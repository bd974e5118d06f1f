/**
 * Properties of the protocol engine that relate several events, or an event
 * to what the peer engine does with its output.
 */
module Properties {
  import opened SeqArith
  import opened Frames
  import opened Protocol

  // ------------------------------------------------------ in-order delivery

  /**
   * The network layer has received the packets of sequence numbers
   * 0, 1, 2, ... in this order, counted round the ring.
   */
  ghost predicate InOrder(h: seq<int>) {
    forall i :: 0 <= i < |h| ==> h[i] == i % RING
  }

  /**
   * Appending a batch that starts where the history left off keeps the whole
   * history in order: what one drain hands up continues what earlier drains
   * handed up.
   */
  lemma AppendInOrder(h: seq<int>, batch: seq<int>)
    requires InOrder(h) && batch == Consecutive(|h| % RING, |batch|)
    ensures InOrder(h + batch)
    ensures |h + batch| % RING == Forward(|h| % RING, |batch|)
  {
    forall i | 0 <= i < |h + batch|
      ensures (h + batch)[i] == i % RING
    {
      if i >= |h| {
        assert (h + batch)[i] == batch[i - |h|] == Forward(|h| % RING, i - |h|);
        ModAddLeft(|h|, i - |h|);
      }
    }
    ModAddLeft(|h|, |batch|);
  }

  // ------------------------------------------------------------------- NAKs

  /** Whether a NAK is among the frames an event hands to the physical layer. */
  predicate HasNak(frames: seq<Frame>) {
    exists i :: 0 <= i < |frames| && frames[i].kind == NAK
  }

  /**
   * The NAK guard (src/SWP.java:178-179): a frame arrival sends a NAK exactly
   * when a DATA frame other than the expected one arrives and no NAK is
   * outstanding; that NAK names `frameExpected` and carries no payload.
   */
  lemma NakGuard(s: State, f: Frame)
    requires Inv(s) && WellFormed(f)
    ensures HasNak(OnArrival(s, f).sent) <==> NakDue(s.rcv, f)
    ensures forall i :: 0 <= i < |OnArrival(s, f).sent| && OnArrival(s, f).sent[i].kind == NAK ==>
              Inc(OnArrival(s, f).sent[i].ack) == s.rcv.frameExpected && OnArrival(s, f).sent[i].info.None?
  {
    var o := OnArrival(s, f);
    if NakDue(s.rcv, f) {
      assert o.sent[0].kind == NAK;
    } else {
      assert forall i :: 0 <= i < |o.sent| ==> o.sent[i].kind == DATA;
    }
  }

  /**
   * At most one NAK per gap: once `no_nak` is cleared, neither a frame
   * arrival nor a checksum error sends another NAK, and `no_nak` stays
   * cleared until a packet is delivered.
   */
  lemma NoSecondNak(s: State, f: Frame)
    requires Inv(s) && WellFormed(f) && !s.rcv.noNak
    ensures !HasNak(OnArrival(s, f).sent) && !HasNak(OnCksumErr(s).sent)
    ensures OnArrival(s, f).state.rcv.noNak <==> |OnArrival(s, f).delivered| > 0
  {
    NakGuard(s, f);
    var d := Receive(s.rcv, f);
    assert OnArrival(s, f).state.rcv == d.rcv;
  }

  /**
   * A NAK round trip: when the peer's NAK reaches this engine and the frame
   * it asks for is still unacknowledged here, exactly that frame is sent
   * again, with the packet buffered for it.
   */
  lemma NakRoundTrip(s: State, peerExpected: int, peerBuf: seq<Packet>)
    requires Inv(s) && InRing(peerExpected) && |peerBuf| == NR_BUFS
    requires Between(s.snd.ackExpected, peerExpected, s.snd.nextFrameToSend)
    ensures OnArrival(s, MakeFrame(NAK, 0, peerExpected, peerBuf)).sent ==
              [Frame(DATA, peerExpected, AckFor(s.rcv.frameExpected), Some(s.snd.outBuf[Slot(peerExpected)]))]
  {
    var nak := MakeFrame(NAK, 0, peerExpected, peerBuf);
    assert Missing(nak) == peerExpected;
    assert Receive(s.rcv, nak).rcv == s.rcv;
  }

  // ------------------------------------------------------------- duplicates

  /**
   * A frame that arrives twice in a row is taken at most once: after the
   * first arrival it is either delivered, and then behind the receiver
   * window, or still buffered, and then its slot is full.
   */
  lemma DuplicateRejected(r: Receiver, f: Frame)
    requires ReceiverInv(r) && WellFormed(f)
    ensures !Accepts(Receive(r, f).rcv, f)
    ensures Receive(Receive(r, f).rcv, f).packets == []
  {
    var r1 := r.(noNak := r.noNak && !NakDue(r, f));
    if Accepts(r1, f) {
      var t := Store(r1, f);
      var fe := r.frameExpected;
      var x := f.seqNo;
      var k := RunLength(t.arrived, fe);
      var d := Drained(t);
      DistForward(fe, NR_BUFS);
      assert Dist(fe, x) < NR_BUFS;
      DistForward(fe, k);
      DrainEdges(fe, r.tooFar, k);
      DistForward(d.rcv.frameExpected, NR_BUFS);
      if Dist(fe, x) < k {
        DistShiftPast(fe, x, k);
        assert !Between(d.rcv.frameExpected, x, d.rcv.tooFar);
      } else {
        SlotOffsetIsDist(fe, x);
        assert d.rcv.arrived[Slot(x)];
      }
    }
    var r2 := Receive(r, f).rcv;
    assert !Accepts(r2.(noNak := r2.noNak && !NakDue(r2, f)), f);
  }

  /**
   * An accepted frame is not lost: its payload is handed up at the place its
   * sequence number has in the window, or it stays buffered in its slot
   * until the frames before it arrive.
   */
  lemma AcceptedNotLost(r: Receiver, f: Frame)
    requires ReceiverInv(r) && WellFormed(f) && Accepts(r, f)
    ensures var d := Receive(r, f);
            var i := Dist(r.frameExpected, f.seqNo);
            (i < |d.packets| ==> d.packets[i] == f.info.value && d.seqs[i] == f.seqNo) &&
            (|d.packets| <= i ==> d.rcv.arrived[Slot(f.seqNo)] && d.rcv.inBuf[Slot(f.seqNo)] == f.info.value &&
                                  d.rcv.inSeq[Slot(f.seqNo)] == f.seqNo)
  {
    var r1 := r.(noNak := r.noNak && !NakDue(r, f));
    assert Accepts(r1, f);
    var t := Store(r1, f);
    var fe := r.frameExpected;
    var x := f.seqNo;
    var i := Dist(fe, x);
    var d := Drained(t);
    DistForward(fe, NR_BUFS);
    assert i < NR_BUFS;
    if i < |d.packets| {
      DistInverse(fe, x);
      assert d.seqs[i] == x;
    } else {
      SlotOffsetIsDist(fe, x);
      assert d.rcv.arrived[Slot(x)];
    }
  }

  /** The expected frame, arriving into its empty slot, is handed up first. */
  lemma ExpectedDelivered(r: Receiver, f: Frame)
    requires ReceiverInv(r) && WellFormed(f) && f.kind == DATA
    requires f.seqNo == r.frameExpected && !r.arrived[Slot(f.seqNo)]
    ensures |Receive(r, f).packets| >= 1 && Receive(r, f).packets[0] == f.info.value
  {
    DistForward(r.frameExpected, NR_BUFS);
    AcceptedNotLost(r, f);
    SmallMod(r.frameExpected);
  }

  /**
   * While the expected frame is missing, nothing is handed up: a frame
   * further on is only buffered.
   */
  lemma GapHoldsBack(r: Receiver, f: Frame)
    requires ReceiverInv(r) && WellFormed(f) && !r.arrived[Slot(r.frameExpected)]
    requires f.seqNo != r.frameExpected
    ensures Receive(r, f).packets == [] && Receive(r, f).rcv.frameExpected == r.frameExpected
  {
    var r1 := r.(noNak := r.noNak && !NakDue(r, f));
    if f.kind == DATA && Accepts(r1, f) {
      var fe := r.frameExpected;
      DistForward(fe, NR_BUFS);
      DistForward(fe, 0);
      SmallMod(fe);
      if Slot(f.seqNo) == Slot(fe) {
        SlotInjective(fe, f.seqNo, fe);
      }
      assert !Store(r1, f).arrived[RunSlot(fe, 0)];
    }
    SmallMod(r.frameExpected);
  }

  // ---------------------------------------------------------------- sending

  /**
   * Two packets accepted one after the other go out with consecutive
   * sequence numbers, and the second does not overwrite the buffer slot the
   * first one waits in for a possible retransmission.
   */
  lemma ConsecutiveReadies(s: State, p1: Packet, p2: Packet)
    requires Inv(s) && s.snd.credit >= 2
    ensures var o1 := OnReady(s, p1);
            var o2 := OnReady(o1.state, p2);
            o2.sent[0].seqNo == Inc(o1.sent[0].seqNo) && o2.sent[0].seqNo != o1.sent[0].seqNo &&
            o2.state.snd.outBuf[Slot(o1.sent[0].seqNo)] == p1 &&
            Dist(o2.state.snd.ackExpected, o2.state.snd.nextFrameToSend) ==
              Dist(s.snd.ackExpected, s.snd.nextFrameToSend) + 2
  {
    var n := s.snd.nextFrameToSend;
    SlotSmall(n);
    SlotSmall(Inc(n));
  }

  // ----------------------------------------------------------------- traces

  /** Two runs of consecutive numbers, the second starting where the first ends, make one run. */
  lemma ConcatConsecutive(fe: int, a: int, b: int)
    requires InRing(fe) && 0 <= a && 0 <= b
    ensures Consecutive(fe, a) + Consecutive(Forward(fe, a), b) == Consecutive(fe, a + b)
    ensures Forward(Forward(fe, a), b) == Forward(fe, a + b)
  {
    var front, back, whole := Consecutive(fe, a), Consecutive(Forward(fe, a), b), Consecutive(fe, a + b);
    forall i | 0 <= i < a + b
      ensures (front + back)[i] == whole[i]
    {
      if a <= i {
        ModAddLeft(fe + a, i - a);
        assert (front + back)[i] == back[i - a];
      }
    }
    assert front + back == whole;
    ModAddLeft(fe + a, b);
  }

  /**
   * The event loop run over a sequence of events, up to the first event the
   * environment would not produce in that state. Everything handed to the
   * network layer along the way carries consecutive sequence numbers from
   * the starting `frameExpected`: no packet is skipped, repeated or
   * delivered out of order.
   */
  function Run(s: State, events: seq<Event>): (o: Outcome)
    requires Inv(s)
    ensures Inv(o.state) && |o.delivered| == |o.deliveredSeqs|
    ensures o.deliveredSeqs == Consecutive(s.rcv.frameExpected, |o.delivered|)
    ensures o.state.rcv.frameExpected == Forward(s.rcv.frameExpected, |o.delivered|)
    decreases |events|
  {
    if events == [] || !Enabled(s, events[0]) then
      SmallMod(s.rcv.frameExpected);
      Outcome(s, [], [], [])
    else
      var o := Step(s, events[0]);
      var rest := Run(o.state, events[1..]);
      var both := Then(o, rest);
      ThenConsecutive(s.rcv.frameExpected, o, rest);
      both
  }

  /** One outcome followed by another: the later state, and both outputs in order. */
  function Then(first: Outcome, second: Outcome): Outcome {
    Outcome(second.state, first.sent + second.sent, first.delivered + second.delivered,
            first.deliveredSeqs + second.deliveredSeqs)
  }

  /** Deliveries that each continue from where the previous one stopped add up. */
  lemma ThenConsecutive(fe: int, first: Outcome, second: Outcome)
    requires InRing(fe) && |first.delivered| == |first.deliveredSeqs|
    requires first.deliveredSeqs == Consecutive(fe, |first.delivered|)
    requires |second.delivered| == |second.deliveredSeqs|
    requires second.deliveredSeqs == Consecutive(Forward(fe, |first.delivered|), |second.delivered|)
    requires second.state.rcv.frameExpected == Forward(Forward(fe, |first.delivered|), |second.delivered|)
    ensures |Then(first, second).delivered| == |Then(first, second).deliveredSeqs|
    ensures Then(first, second).deliveredSeqs == Consecutive(fe, |Then(first, second).delivered|)
    ensures Then(first, second).state.rcv.frameExpected == Forward(fe, |Then(first, second).delivered|)
  {
    ConcatConsecutive(fe, |first.delivered|, |second.delivered|);
  }

  /**
   * From the initial state, whatever events occur, the network layer
   * receives the packets of frames 0, 1, 2, ... in this order.
   */
  lemma DeliveredInOrder(events: seq<Event>)
    ensures InOrder(Run(Init(), events).deliveredSeqs)
    ensures Run(Init(), events).state.rcv.frameExpected == |Run(Init(), events).delivered| % RING
  {
    var o := Run(Init(), events);
    forall i | 0 <= i < |o.deliveredSeqs|
      ensures o.deliveredSeqs[i] == i % RING
    {
      assert o.deliveredSeqs[i] == Forward(0, i);
    }
  }

  /**
   * Frames 0 and 1 arrive in order at a fresh engine: each is handed up on
   * arrival, the receiver window moves past both, and a second copy of
   * frame 0 is ignored.
   */
  lemma InOrderPairDelivered(p0: Packet, p1: Packet, p0again: Packet)
    ensures var f0 := Frame(DATA, 0, MAX_SEQ, Some(p0));
            var f1 := Frame(DATA, 1, MAX_SEQ, Some(p1));
            var a := Receive(Init().rcv, f0);
            var b := Receive(a.rcv, f1);
            a.packets == [p0] && b.packets == [p1] && b.rcv.frameExpected == 2 &&
            Receive(b.rcv, Frame(DATA, 0, MAX_SEQ, Some(p0again))).packets == []
  {
    var f0 := Frame(DATA, 0, MAX_SEQ, Some(p0));
    var f1 := Frame(DATA, 1, MAX_SEQ, Some(p1));
    SlotSmall(0);
    SlotSmall(1);
    SlotSmall(2);
    var r0 := Init().rcv;
    var t0 := Store(r0, f0);
    assert RunSlot(0, 0) == 0 && RunSlot(0, 1) == 1;
    assert RunLength(t0.arrived, 0) == 1;
    var a := Receive(r0, f0);
    assert a.rcv.frameExpected == 1;
    var t1 := Store(a.rcv, f1);
    assert RunSlot(1, 0) == 1 && RunSlot(1, 1) == 2;
    assert !t1.arrived[2];
    assert RunLength(t1.arrived, 1) == 1;
    var b := Receive(a.rcv, f1);
    assert b.rcv.frameExpected == 2;
    assert !Between(2, 0, b.rcv.tooFar);
  }
}
