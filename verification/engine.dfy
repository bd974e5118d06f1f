/**
 * The protocol engine as the source runs it: one object whose variables the
 * event handlers of `protocol6()` (src/SWP.java:129-245) update in place,
 * with the buffers and the inbound bitmap as arrays and the loops as loops.
 * Each handler is proved to do what the pure specification in module
 * Protocol says of its event, and to keep the engine invariant `Valid()`.
 *
 * Where the source calls `inc(x)` and drops the result (src/SWP.java:165,
 * 199, 200 and 215), the handlers assign it: `x := Inc(x)`. The code as
 * written is modelled in module AsWritten.
 */
module Engine {
  import opened SeqArith
  import opened Frames
  import opened Protocol
  import opened Properties

  class SlidingWindow {
    // sender half
    var ackExpected: int
    var nextFrameToSend: int
    var oldestFrame: int
    const outBuf: array<Packet>
    /** Sends the network layer may still make; granted once, at start-up. */
    ghost var credit: nat
    // receiver half
    var frameExpected: int
    var tooFar: int
    var noNak: bool
    const inBuf: array<Packet>
    const arrived: array<bool>
    /** Sequence number of the frame stored in each inbound slot. */
    ghost var inSeq: seq<int>
    // the two neighbouring layers
    /** Frames handed to the physical layer, oldest first. */
    var sent: seq<Frame>
    /** Packets handed to the network layer, oldest first. */
    var delivered: seq<Packet>
    /** Sequence numbers of the frames that carried `delivered`. */
    ghost var deliveredSeqs: seq<int>

    /** The engine's variables as a value of the specification. */
    ghost function View(): State
      reads this, outBuf, inBuf, arrived
    {
      State(SenderView(), ReceiverView())
    }

    ghost function SenderView(): Sender
      reads this`ackExpected, this`nextFrameToSend, this`oldestFrame, this`credit, outBuf
    {
      Sender(ackExpected, nextFrameToSend, oldestFrame, outBuf[..], credit)
    }

    ghost function ReceiverView(): Receiver
      reads this`frameExpected, this`tooFar, this`noNak, this`inSeq, inBuf, arrived
    {
      Receiver(frameExpected, tooFar, noNak, inBuf[..], arrived[..], inSeq)
    }

    /**
     * The engine invariant: the specification's invariant on the variables,
     * and everything delivered so far carrying sequence numbers 0, 1, 2, ...
     * round the ring, up to just before `frameExpected`.
     */
    ghost predicate Valid()
      reads this, outBuf, inBuf, arrived
    {
      outBuf != inBuf && Inv(View()) &&
      InOrder(deliveredSeqs) && |deliveredSeqs| % RING == frameExpected && |delivered| == |deliveredSeqs|
    }

    /**
     * Start-up (src/SWP.java:139-154): `init()` fills both buffers, the
     * bitmap is cleared, the network layer receives NR_BUFS units of credit
     * and all four window edges start at 0 and NR_BUFS.
     */
    constructor ()
      ensures Valid() && View() == Init()
      ensures sent == [] && delivered == [] && deliveredSeqs == []
    {
      var outs := new Packet[NR_BUFS];
      var ins := new Packet[NR_BUFS];
      var i := 0;
      while i < NR_BUFS
        modifies outs, ins
        invariant 0 <= i <= NR_BUFS
        invariant forall j :: 0 <= j < i ==> outs[j] == EmptyPacket && ins[j] == EmptyPacket
      {
        outs[i] := EmptyPacket;
        ins[i] := EmptyPacket;
        i := i + 1;
      }
      var bits := new bool[NR_BUFS];
      i := 0;
      while i < NR_BUFS
        modifies bits
        invariant 0 <= i <= NR_BUFS
        invariant forall j :: 0 <= j < i ==> !bits[j]
      {
        bits[i] := false;
        i := i + 1;
      }
      outBuf, inBuf, arrived := outs, ins, bits;
      credit := NR_BUFS;
      ackExpected, nextFrameToSend := 0, 0;
      frameExpected, tooFar := 0, NR_BUFS;
      noNak, oldestFrame := true, 0;
      inSeq := seq(NR_BUFS, _ => 0);
      sent, delivered, deliveredSeqs := [], [], [];
      new;
      assert outBuf[..] == seq(NR_BUFS, _ => EmptyPacket);
      assert inBuf[..] == seq(NR_BUFS, _ => EmptyPacket);
      assert arrived[..] == seq(NR_BUFS, _ => false);
    }

    /**
     * `send_frame` (src/SWP.java:104-127): builds the frame, clears `no_nak`
     * when it is a NAK and hands the frame to the physical layer.
     */
    method SendFrame(kind: FrameKind, frameNumber: int, expected: int)
      requires outBuf.Length == NR_BUFS && (kind == DATA ==> SlotIndexable(frameNumber))
      modifies this`sent, this`noNak
      ensures sent == old(sent) + [MakeFrame(kind, frameNumber, expected, outBuf[..])]
      ensures noNak == (old(noNak) && kind != NAK)
    {
      var info: Option<Packet> := None;
      if kind == DATA {
        info := Some(outBuf[JavaRem(frameNumber, NR_BUFS)]);
      }
      var s := Frame(kind, frameNumber, JavaRem(expected + MAX_SEQ, MAX_SEQ + 1), info);
      if kind == NAK {
        noNak := false;
      }
      sent := sent + [s];
    }

    /**
     * NETWORK_LAYER_READY (src/SWP.java:161-167): the fetched packet is put
     * in its slot, sent, and the upper edge of the sender window advanced.
     */
    method NetworkLayerReady(packet: Packet)
      requires Valid() && credit > 0
      modifies this`nextFrameToSend, this`credit, this`sent, this`noNak, outBuf
      ensures Valid() && View() == OnReady(old(View()), packet).state
      ensures sent == old(sent) + OnReady(old(View()), packet).sent
      ensures delivered == old(delivered) && deliveredSeqs == old(deliveredSeqs)
    {
      outBuf[Slot(nextFrameToSend)] := packet;
      SendFrame(DATA, nextFrameToSend, frameExpected);
      nextFrameToSend := Inc(nextFrameToSend);
      credit := credit - 1;
    }

    /**
     * The receiver half of FRAME_ARRIVAL for a DATA frame
     * (src/SWP.java:172-206): the NAK decision, then storing an in-window
     * frame in its empty slot and draining the run it completes.
     */
    method ReceiveData(r: Frame)
      requires outBuf != inBuf && outBuf.Length == NR_BUFS && ReceiverInv(ReceiverView())
      requires WellFormed(r) && r.kind == DATA
      modifies this`noNak, this`sent, this`frameExpected, this`tooFar, this`inSeq,
               this`delivered, this`deliveredSeqs, inBuf, arrived
      ensures ReceiverView() == Receive(old(ReceiverView()), r).rcv
      ensures sent == old(sent) + NakReply(old(ReceiverView()), r, outBuf[..])
      ensures delivered == old(delivered) + Receive(old(ReceiverView()), r).packets
      ensures deliveredSeqs == old(deliveredSeqs) + Receive(old(ReceiverView()), r).seqs
    {
      NakCheck(r);
      StoreAndDrain(r);
    }

    /**
     * The NAK decision (src/SWP.java:178-182): a DATA frame other than the
     * expected one draws a NAK unless one is outstanding.
     */
    method NakCheck(r: Frame)
      requires outBuf.Length == NR_BUFS && r.kind == DATA
      modifies this`sent, this`noNak
      ensures noNak == (old(noNak) && !NakDue(old(ReceiverView()), r))
      ensures sent == old(sent) + NakReply(old(ReceiverView()), r, outBuf[..])
    {
      if r.seqNo != frameExpected && noNak {
        SendFrame(NAK, 0, frameExpected);
      }
    }

    /**
     * An in-window DATA frame whose slot is empty is stored in it
     * (src/SWP.java:188-192) and the run it completes is drained.
     */
    method StoreAndDrain(r: Frame)
      requires outBuf != inBuf && ReceiverInv(ReceiverView()) && WellFormed(r) && r.kind == DATA
      modifies this`noNak, this`frameExpected, this`tooFar, this`inSeq,
               this`delivered, this`deliveredSeqs, inBuf, arrived
      ensures var d := if Accepts(old(ReceiverView()), r) then Drained(Store(old(ReceiverView()), r))
                       else Delivery(old(ReceiverView()), [], []);
              ReceiverView() == d.rcv && delivered == old(delivered) + d.packets &&
              deliveredSeqs == old(deliveredSeqs) + d.seqs
    {
      if Between(frameExpected, r.seqNo, tooFar) && !arrived[Slot(r.seqNo)] {
        ghost var r1 := ReceiverView();
        arrived[Slot(r.seqNo)] := true;
        inBuf[Slot(r.seqNo)] := r.info.value;
        inSeq := inSeq[Slot(r.seqNo) := r.seqNo];
        assert ReceiverView() == Store(r1, r);
        Drain();
      }
    }

    /**
     * The drain loop (src/SWP.java:194-202) on the engine's variables; the
     * loop itself is `DrainLoop`.
     */
    method Drain()
      requires outBuf != inBuf && ReceiverInv(ReceiverView())
      modifies this`noNak, this`frameExpected, this`tooFar, this`delivered, this`deliveredSeqs, arrived
      ensures ReceiverView() == Drained(old(ReceiverView())).rcv
      ensures delivered == old(delivered) + Drained(old(ReceiverView())).packets
      ensures deliveredSeqs == old(deliveredSeqs) + Drained(old(ReceiverView())).seqs
    {
      ghost var r0 := ReceiverView();
      var out: seq<Packet>;
      ghost var outSeqs: seq<int>;
      frameExpected, tooFar, noNak, out, outSeqs := DrainLoop(arrived, inBuf, r0, frameExpected, tooFar, noNak);
      delivered, deliveredSeqs := delivered + out, deliveredSeqs + outSeqs;
    }
    /**
     * The cumulative-ack sweep (src/SWP.java:213-217): while `ack` lies in
     * the sender window, the lower edge advances. It stops at the sequence
     * number after `ack`, or does not move when `ack` is outside the window.
     */
    method AckSweep(ack: int)
      requires InRing(ackExpected) && InRing(ack) && InRing(nextFrameToSend)
      modifies this`ackExpected
      ensures ackExpected == SweepTarget(old(ackExpected), ack, nextFrameToSend)
    {
      ghost var a0 := ackExpected;
      ghost var d := 0;
      SmallMod(a0);
      while Between(ackExpected, ack, nextFrameToSend)
        invariant 0 <= d <= Dist(a0, nextFrameToSend) && ackExpected == Forward(a0, d)
        invariant Between(a0, ack, nextFrameToSend) ==> d <= Dist(a0, ack) + 1
        invariant !Between(a0, ack, nextFrameToSend) ==> d == 0
        decreases Dist(a0, nextFrameToSend) - d
      {
        SweepGuard(a0, ack, nextFrameToSend, d);
        ForwardSucc(a0, d);
        ackExpected := Inc(ackExpected);
        d := d + 1;
      }
      SweepGuard(a0, ack, nextFrameToSend, d);
      if Between(a0, ack, nextFrameToSend) {
        DistInverse(a0, ack);
        ForwardSucc(a0, Dist(a0, ack));
      }
    }

    /**
     * FRAME_ARRIVAL (src/SWP.java:169-218): the receiver half for DATA, the
     * selective resend a NAK asks for, and the cumulative-ack sweep.
     */
    method FrameArrival(r: Frame)
      requires Valid() && WellFormed(r)
      modifies this`ackExpected, this`noNak, this`sent, this`frameExpected, this`tooFar, this`inSeq,
               this`delivered, this`deliveredSeqs, inBuf, arrived
      ensures Valid()
      ensures ReceiverView() == Receive(old(ReceiverView()), r).rcv
      ensures SenderView() == old(SenderView()).(ackExpected := SweepTarget(old(ackExpected), r.ack, nextFrameToSend))
      ensures sent == old(sent) + NakReply(old(ReceiverView()), r, outBuf[..]) +
                      Resend(old(SenderView()), r, frameExpected)
      ensures delivered == old(delivered) + Receive(old(ReceiverView()), r).packets
      ensures deliveredSeqs == old(deliveredSeqs) + Receive(old(ReceiverView()), r).seqs
    {
      if r.kind == DATA {
        ReceiveData(r);
      }
      ResendAndSweep(r);
      AppendInOrder(old(deliveredSeqs), Receive(old(ReceiverView()), r).seqs);
    }

    /**
     * The sender half of FRAME_ARRIVAL (src/SWP.java:209-217): the frame a
     * NAK names is sent again if it is still in the sender window, and the
     * frame's cumulative ack moves the lower edge of the window.
     */
    method ResendAndSweep(r: Frame)
      requires SenderInv(SenderView()) && WellFormed(r)
      modifies this`ackExpected, this`sent, this`noNak
      ensures noNak == old(noNak)
      ensures SenderView() == old(SenderView()).(ackExpected := SweepTarget(old(ackExpected), r.ack, nextFrameToSend))
      ensures sent == old(sent) + Resend(old(SenderView()), r, frameExpected)
    {
      var missing := (r.ack + 1) % (MAX_SEQ + 1);
      if r.kind == NAK && Between(ackExpected, missing, nextFrameToSend) {
        SendFrame(DATA, missing, frameExpected);
      }
      AckSweep(r.ack);
    }

    /** CKSUM_ERR (src/SWP.java:220-226): a NAK unless one is outstanding. */
    method CksumErr()
      requires Valid()
      modifies this`sent, this`noNak
      ensures Valid() && View() == OnCksumErr(old(View())).state
      ensures sent == old(sent) + OnCksumErr(old(View())).sent
    {
      if noNak {
        SendFrame(NAK, 0, frameExpected);
      }
    }

    /**
     * TIMEOUT (src/SWP.java:228-231): the event's sequence number becomes
     * `oldest_frame` (src/SWP.java:55) and that frame is sent again.
     */
    method Timeout(timedOut: int)
      requires Valid() && SlotIndexable(timedOut)
      modifies this`oldestFrame, this`sent, this`noNak
      ensures Valid() && View() == OnTimeout(old(View()), timedOut).state
      ensures sent == old(sent) + OnTimeout(old(View()), timedOut).sent
    {
      oldestFrame := timedOut;
      SendFrame(DATA, oldestFrame, frameExpected);
    }

    /** ACK_TIMEOUT (src/SWP.java:233-237): a standalone acknowledgement. */
    method AckTimeout()
      requires Valid()
      modifies this`sent, this`noNak
      ensures Valid() && View() == OnAckTimeout(old(View())).state
      ensures sent == old(sent) + OnAckTimeout(old(View())).sent
    {
      SendFrame(ACK, 0, frameExpected);
    }

    /** One pass of the event loop (src/SWP.java:157-243): dispatch on the event. */
    method Handle(e: Event)
      requires Valid() && Enabled(View(), e)
      modifies this, outBuf, inBuf, arrived
      ensures Valid() && View() == Step(old(View()), e).state
      ensures sent == old(sent) + Step(old(View()), e).sent
      ensures delivered == old(delivered) + Step(old(View()), e).delivered
      ensures deliveredSeqs == old(deliveredSeqs) + Step(old(View()), e).deliveredSeqs
    {
      match e
      case NETWORK_LAYER_READY(p) => NetworkLayerReady(p);
      case FRAME_ARRIVAL(f) => FrameArrival(f);
      case CKSUM_ERR => CksumErr();
      case TIMEOUT(n) => Timeout(n);
      case ACK_TIMEOUT => AckTimeout();
    }
  }

  /**
   * The drain loop (src/SWP.java:194-202): while the slot of `fe` is full,
   * its packet goes up, `no_nak` is re-armed, the slot is emptied and both
   * receiver edges advance. It does what `Drained` says of the receiver `r`
   * the arrays and the three variables stand for, and ends after at most
   * NR_BUFS rounds.
   */
  method DrainLoop(arrived: array<bool>, inBuf: array<Packet>, ghost r: Receiver, fe0: int, tf0: int, nn0: bool)
    returns (fe: int, tf: int, nn: bool, out: seq<Packet>, ghost outSeqs: seq<int>)
    requires ReceiverInv(r) && arrived[..] == r.arrived && inBuf[..] == r.inBuf
    requires fe0 == r.frameExpected && tf0 == r.tooFar && nn0 == r.noNak
    modifies arrived
    ensures Drained(r).rcv == r.(frameExpected := fe, tooFar := tf, noNak := nn, arrived := arrived[..])
    ensures out == Drained(r).packets && outSeqs == Drained(r).seqs
  {
    ghost var k := RunLength(r.arrived, fe0);
    ghost var j := 0;
    fe, tf, nn, out, outSeqs := fe0, tf0, nn0, [], [];
    SmallMod(fe0);
    SmallMod(tf0);
    while arrived[Slot(fe)]
      invariant 0 <= j <= k
      invariant fe == Forward(fe0, j) && tf == Forward(tf0, j)
      invariant arrived[..] == ClearRun(r.arrived, fe0, j)
      invariant nn == (nn0 || j > 0)
      invariant out == RunOf(r.inBuf, fe0, j) && outSeqs == RunOf(r.inSeq, fe0, j)
      decreases k - j
    {
      DrainGuard(r, j);
      DrainRound(r, j);
      out := out + [inBuf[Slot(fe)]];
      outSeqs := outSeqs + [r.inSeq[Slot(fe)]];
      nn := true;
      arrived[Slot(fe)] := false;
      fe := Inc(fe);
      tf := Inc(tf);
      j := j + 1;
    }
    DrainGuard(r, j);
  }

  /**
   * The drain loop's guard: after `j` rounds, the slot of the current
   * `frameExpected` is full exactly while the run has not been exhausted.
   */
  lemma DrainGuard(r: Receiver, j: int)
    requires ReceiverInv(r) && 0 <= j <= RunLength(r.arrived, r.frameExpected)
    ensures ClearRun(r.arrived, r.frameExpected, j)[RunSlot(r.frameExpected, j)] <==>
              j < RunLength(r.arrived, r.frameExpected)
  {
    var fe := r.frameExpected;
    var k := RunLength(r.arrived, fe);
    if j < NR_BUFS {
      DistForward(fe, j);
      SlotOffsetIsDist(fe, Forward(fe, j));
    } else {
      SlotOfOffset(fe, RunSlot(fe, j));
    }
  }

  /**
   * One round of the drain loop in terms of the specification: the slot
   * emptied, the packet and sequence number handed up, and both edges
   * advanced by `inc` are the run's next step.
   */
  lemma DrainRound(r: Receiver, j: int)
    requires ReceiverInv(r) && 0 <= j < NR_BUFS
    ensures ClearRun(r.arrived, r.frameExpected, j)[RunSlot(r.frameExpected, j) := false] ==
              ClearRun(r.arrived, r.frameExpected, j + 1)
    ensures RunOf(r.inBuf, r.frameExpected, j + 1) ==
              RunOf(r.inBuf, r.frameExpected, j) + [r.inBuf[RunSlot(r.frameExpected, j)]]
    ensures RunOf(r.inSeq, r.frameExpected, j + 1) ==
              RunOf(r.inSeq, r.frameExpected, j) + [r.inSeq[RunSlot(r.frameExpected, j)]]
    ensures Inc(Forward(r.frameExpected, j)) == Forward(r.frameExpected, j + 1)
    ensures Inc(Forward(r.tooFar, j)) == Forward(r.tooFar, j + 1)
  {
    ClearStep(r.arrived, r.frameExpected, j);
    RunOfSnoc(r.inBuf, r.frameExpected, j);
    RunOfSnoc(r.inSeq, r.frameExpected, j);
    ForwardSucc(r.frameExpected, j);
    SmallMod(r.tooFar);
    ForwardSucc(r.tooFar, j);
  }

  /** Emptying the next slot of the run is one more round of `ClearRun`. */
  lemma ClearStep(flags: seq<bool>, fe: int, j: int)
    requires |flags| == NR_BUFS && InRing(fe) && 0 <= j < NR_BUFS
    ensures ClearRun(flags, fe, j)[RunSlot(fe, j) := false] == ClearRun(flags, fe, j + 1)
  {
    DistForward(fe, j);
    SlotOffsetIsDist(fe, Forward(fe, j));
    forall q | 0 <= q < NR_BUFS && q != RunSlot(fe, j)
      ensures SlotOffset(fe, q) != j
    {
      SlotOfOffset(fe, q);
    }
  }

  /** The run of `j + 1` slots is the run of `j` slots and the next one. */
  lemma RunOfSnoc<T>(slots: seq<T>, fe: int, j: int)
    requires |slots| == NR_BUFS && 0 <= j
    ensures RunOf(slots, fe, j + 1) == RunOf(slots, fe, j) + [slots[RunSlot(fe, j)]]
  {
    assert forall i :: 0 <= i <= j ==>
      RunOf(slots, fe, j + 1)[i] == (RunOf(slots, fe, j) + [slots[RunSlot(fe, j)]])[i];
  }

  /**
   * The ack sweep's guard: after `d` rounds from `a0`, `ack` still lies in
   * the remaining window exactly while the lower edge has not yet passed it.
   */
  lemma SweepGuard(a0: int, ack: int, next: int, d: int)
    requires InRing(a0) && InRing(ack) && InRing(next)
    requires 0 <= d <= Dist(a0, next)
    requires Between(a0, ack, next) ==> d <= Dist(a0, ack) + 1
    requires !Between(a0, ack, next) ==> d == 0
    ensures Between(Forward(a0, d), ack, next) <==> Between(a0, ack, next) && d <= Dist(a0, ack)
    ensures Between(Forward(a0, d), ack, next) ==> d < Dist(a0, next)
  {
    DistForward(a0, d);
    DistShift(a0, next, d);
    if d <= Dist(a0, ack) {
      DistShift(a0, ack, d);
    } else {
      DistShiftPast(a0, ack, d);
    }
  }
}
