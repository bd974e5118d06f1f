/**
 * The protocol engine of `protocol6()` (src/SWP.java:129-245) as a pure
 * state-transition specification: one function per event kind, from the
 * engine state before the event to the state after it, the frames handed to
 * the physical layer and the packets handed to the network layer.
 *
 * The window edges are advanced with the result of `inc`; the module
 * AsWritten holds the code as it stands, where every `inc` result is dropped.
 */
module Protocol {
  import opened SeqArith
  import opened Frames

  /** The sender half of the engine's variables. */
  datatype Sender = Sender(
    ackExpected: int,         // lower edge of the sender's window
    nextFrameToSend: int,     // upper edge of the sender's window + 1
    oldestFrame: int,         // sequence number carried by the last timeout event
    outBuf: seq<Packet>,      // outbound slots, indexed by sequence number mod NR_BUFS
    credit: nat)              // sends the network layer may still make

  /** The receiver half of the engine's variables. */
  datatype Receiver = Receiver(
    frameExpected: int,       // lower edge of the receiver's window
    tooFar: int,              // upper edge of the receiver's window + 1
    noNak: bool,              // no NAK outstanding for the current gap
    inBuf: seq<Packet>,       // inbound slots
    arrived: seq<bool>,       // inbound bitmap: slot holds an undelivered packet
    inSeq: seq<int>)          // sequence number of the frame stored in each inbound slot

  /** Every variable the engine keeps between two events. */
  datatype State = State(snd: Sender, rcv: Receiver)

  /** What one event does: the new state and what it hands to the two layers. */
  datatype Outcome = Outcome(
    state: State,
    sent: seq<Frame>,           // frames given to the physical layer, in order
    delivered: seq<Packet>,     // packets given to the network layer, in order
    deliveredSeqs: seq<int>)    // sequence numbers of the frames that carried them

  /** What the receiver half does with one frame: its new state and what it hands up. */
  datatype Delivery = Delivery(rcv: Receiver, packets: seq<Packet>, seqs: seq<int>)

  /**
   * Sender invariant: both edges on the ring, and the window
   * [ackExpected, nextFrameToSend) no larger than the credit already used.
   */
  ghost predicate SenderInv(t: Sender) {
    |t.outBuf| == NR_BUFS && InRing(t.ackExpected) && InRing(t.nextFrameToSend) &&
    Dist(t.ackExpected, t.nextFrameToSend) + t.credit <= NR_BUFS
  }

  /**
   * Receiver invariant: a window of exactly NR_BUFS sequence numbers, and
   * each full inbound slot holding the one in-window frame that maps to it.
   */
  ghost predicate ReceiverInv(r: Receiver) {
    |r.inBuf| == NR_BUFS && |r.arrived| == NR_BUFS && |r.inSeq| == NR_BUFS &&
    InRing(r.frameExpected) && r.tooFar == Forward(r.frameExpected, NR_BUFS) &&
    SlotsHold(r.arrived, r.inSeq, r.frameExpected)
  }

  ghost predicate Inv(s: State) {
    SenderInv(s.snd) && ReceiverInv(s.rcv)
  }

  /**
   * Each full inbound slot holds a frame of the receiver window
   * [frameExpected, frameExpected + NR_BUFS), the one whose sequence number
   * maps to that slot.
   */
  ghost predicate SlotsHold(arrived: seq<bool>, inSeq: seq<int>, frameExpected: int)
    requires |arrived| == |inSeq| == NR_BUFS
  {
    forall q :: 0 <= q < NR_BUFS && arrived[q] ==>
      InRing(inSeq[q]) && Slot(inSeq[q]) == q && Dist(frameExpected, inSeq[q]) < NR_BUFS
  }

  /**
   * The state at the top of the event loop (src/SWP.java:139-154): fresh
   * buffers, both windows at 0, the sender window empty, no frame arrived,
   * and NR_BUFS units of credit granted.
   */
  function Init(): (s: State)
    ensures Inv(s)
    ensures s.snd.ackExpected == s.snd.nextFrameToSend && s.snd.credit == NR_BUFS
    ensures s.rcv.frameExpected == 0 && Dist(s.rcv.frameExpected, s.rcv.tooFar) == NR_BUFS
    ensures s.rcv.noNak && forall q :: 0 <= q < NR_BUFS ==> !s.rcv.arrived[q]
  {
    State(Sender(0, 0, 0, seq(NR_BUFS, _ => EmptyPacket), NR_BUFS),
          Receiver(0, NR_BUFS, true, seq(NR_BUFS, _ => EmptyPacket), seq(NR_BUFS, _ => false), seq(NR_BUFS, _ => 0)))
  }

  // ---------------------------------------------------------------- sender

  /**
   * NETWORK_LAYER_READY (src/SWP.java:161-167): the fetched packet goes into
   * the slot of `nextFrameToSend`, is sent as DATA with that sequence number,
   * and the sender window grows by one at its upper edge.
   */
  function OnReady(s: State, packet: Packet): (o: Outcome)
    requires Inv(s) && s.snd.credit > 0
    ensures Inv(o.state) && o.state.rcv == s.rcv
    ensures o.sent == [Frame(DATA, s.snd.nextFrameToSend, AckFor(s.rcv.frameExpected), Some(packet))]
    ensures o.state.snd.outBuf[Slot(s.snd.nextFrameToSend)] == packet
    ensures forall q :: 0 <= q < NR_BUFS && q != Slot(s.snd.nextFrameToSend) ==>
              o.state.snd.outBuf[q] == s.snd.outBuf[q]
    ensures o.state.snd.ackExpected == s.snd.ackExpected
    ensures Dist(o.state.snd.ackExpected, o.state.snd.nextFrameToSend) ==
              Dist(s.snd.ackExpected, s.snd.nextFrameToSend) + 1
    ensures o.state.snd.credit == s.snd.credit - 1 && o.state.snd.oldestFrame == s.snd.oldestFrame
    ensures o.delivered == [] && o.deliveredSeqs == []
  {
    var next := s.snd.nextFrameToSend;
    var buf := s.snd.outBuf[Slot(next) := packet];
    var f := MakeFrame(DATA, next, s.rcv.frameExpected, buf);
    DistToInc(s.snd.ackExpected, next);
    var snd := s.snd.(outBuf := buf, nextFrameToSend := Inc(next), credit := s.snd.credit - 1);
    Outcome(State(snd, s.rcv), [f], [], [])
  }

  /**
   * Where the cumulative-ack sweep of src/SWP.java:213-217 leaves
   * `ack_expected`: one past `ack` when `ack` lies in the sender window,
   * unchanged otherwise. It never passes `next`, and `ack` is outside the
   * window that remains.
   */
  function SweepTarget(ackExpected: int, ack: int, next: int): (r: int)
    requires InRing(ackExpected) && InRing(ack) && InRing(next)
    ensures InRing(r)
    ensures Dist(ackExpected, r) <= Dist(ackExpected, next)
    ensures Dist(r, next) <= Dist(ackExpected, next)
    ensures !Between(r, ack, next)
    ensures Between(ackExpected, ack, next) ==> Dist(ackExpected, r) == Dist(ackExpected, ack) + 1
    ensures !Between(ackExpected, ack, next) ==> r == ackExpected
  {
    if Between(ackExpected, ack, next) then
      DistToInc(ackExpected, ack);
      assert Dist(Inc(ack), next) == Dist(ackExpected, next) - Dist(ackExpected, ack) - 1;
      Inc(ack)
    else
      ackExpected
  }

  /**
   * TIMEOUT (src/SWP.java:228-231): the event's sequence number becomes
   * `oldest_frame` and exactly that one DATA frame is sent again.
   */
  function OnTimeout(s: State, timedOut: int): (o: Outcome)
    requires Inv(s) && SlotIndexable(timedOut)
    ensures Inv(o.state)
    ensures |o.sent| == 1 && o.sent[0].kind == DATA && o.sent[0].seqNo == timedOut
    ensures o.sent[0].info == Some(s.snd.outBuf[Slot(timedOut)])
    ensures Inc(o.sent[0].ack) == s.rcv.frameExpected
    ensures o.state == State(s.snd.(oldestFrame := timedOut), s.rcv)
    ensures o.delivered == [] && o.deliveredSeqs == []
  {
    var snd := s.snd.(oldestFrame := timedOut);
    Outcome(State(snd, s.rcv), [MakeFrame(DATA, snd.oldestFrame, s.rcv.frameExpected, snd.outBuf)], [], [])
  }

  // -------------------------------------------------------------- receiver

  /** Slot of the sequence number `j` steps after `frameExpected`. */
  function RunSlot(frameExpected: int, j: int): int {
    Slot(Forward(frameExpected, j))
  }

  /**
   * Length of the run of full slots from step `i` on: the drain loop of
   * src/SWP.java:194-202 stops at the first empty slot, and at the latest
   * after NR_BUFS steps, when every slot has been emptied.
   */
  function RunFrom(flags: seq<bool>, frameExpected: int, i: int): (k: int)
    requires |flags| == NR_BUFS && 0 <= i <= NR_BUFS
    ensures i <= k <= NR_BUFS
    ensures forall j :: i <= j < k ==> flags[RunSlot(frameExpected, j)]
    ensures k < NR_BUFS ==> !flags[RunSlot(frameExpected, k)]
    decreases NR_BUFS - i
  {
    if i < NR_BUFS && flags[RunSlot(frameExpected, i)] then RunFrom(flags, frameExpected, i + 1) else i
  }

  /** Number of packets that can be delivered in order from `frameExpected`. */
  function RunLength(flags: seq<bool>, frameExpected: int): (k: int)
    requires |flags| == NR_BUFS
    ensures 0 <= k <= NR_BUFS
    ensures forall j :: 0 <= j < k ==> flags[RunSlot(frameExpected, j)]
    ensures k < NR_BUFS ==> !flags[RunSlot(frameExpected, k)]
  {
    RunFrom(flags, frameExpected, 0)
  }

  /** The bitmap after the first `k` slots from `frameExpected` are emptied. */
  function ClearRun(flags: seq<bool>, frameExpected: int, k: int): (r: seq<bool>)
    requires |flags| == NR_BUFS
    ensures |r| == NR_BUFS
    ensures forall q :: 0 <= q < NR_BUFS ==> (r[q] <==> flags[q] && SlotOffset(frameExpected, q) >= k)
  {
    seq(NR_BUFS, q requires 0 <= q < NR_BUFS => flags[q] && SlotOffset(frameExpected, q) >= k)
  }

  /** The contents of the `k` slots from `frameExpected` on, in ring order. */
  function RunOf<T>(slots: seq<T>, frameExpected: int, k: int): (r: seq<T>)
    requires |slots| == NR_BUFS && 0 <= k
    ensures |r| == k
    ensures forall i :: 0 <= i < k ==> r[i] == slots[RunSlot(frameExpected, i)]
  {
    seq(k, i requires 0 <= i < k => slots[RunSlot(frameExpected, i)])
  }

  /** The `k` sequence numbers from `frameExpected` on, in ring order. */
  function Consecutive(frameExpected: int, k: int): (r: seq<int>)
    requires 0 <= k
    ensures |r| == k
    ensures forall i :: 0 <= i < k ==> r[i] == Forward(frameExpected, i)
  {
    seq(k, i requires 0 <= i < k => Forward(frameExpected, i))
  }

  /**
   * The drain loop (src/SWP.java:194-202) in closed form: the maximal run of
   * buffered frames from `frameExpected` is handed up, their flags cleared,
   * both receiver edges advanced past them, and `no_nak` re-armed if anything
   * was delivered. The packets go up in consecutive sequence order starting
   * at `frameExpected`, and the loop ends on an empty slot.
   */
  function Drained(r: Receiver): (d: Delivery)
    requires ReceiverInv(r)
    ensures ReceiverInv(d.rcv)
    ensures |d.packets| == |d.seqs| == RunLength(r.arrived, r.frameExpected)
    ensures d.seqs == Consecutive(r.frameExpected, |d.packets|)
    ensures d.rcv.frameExpected == Forward(r.frameExpected, |d.packets|)
    ensures !d.rcv.arrived[Slot(d.rcv.frameExpected)]
    ensures d.rcv.noNak == (r.noNak || |d.packets| > 0)
    ensures d.rcv.inBuf == r.inBuf && d.rcv.inSeq == r.inSeq
    ensures forall i :: 0 <= i < |d.packets| ==> d.packets[i] == r.inBuf[Slot(d.seqs[i])]
    ensures forall q :: 0 <= q < NR_BUFS && d.rcv.arrived[q] ==> r.arrived[q]
  {
    var fe := r.frameExpected;
    var k := RunLength(r.arrived, fe);
    var t := r.(arrived := ClearRun(r.arrived, fe, k),
                frameExpected := Forward(fe, k),
                tooFar := Forward(r.tooFar, k),
                noNak := r.noNak || k > 0);
    DrainKeepsInv(r, k, t);
    RunSeqs(r, k);
    RunExit(r, k);
    Delivery(t, RunOf(r.inBuf, fe, k), RunOf(r.inSeq, fe, k))
  }

  /** The state `Drained` produces satisfies the receiver invariant. */
  lemma DrainKeepsInv(r: Receiver, k: int, t: Receiver)
    requires ReceiverInv(r) && k == RunLength(r.arrived, r.frameExpected)
    requires t == r.(arrived := ClearRun(r.arrived, r.frameExpected, k),
                     frameExpected := Forward(r.frameExpected, k),
                     tooFar := Forward(r.tooFar, k),
                     noNak := r.noNak || k > 0)
    ensures ReceiverInv(t)
  {
    DrainEdges(r.frameExpected, r.tooFar, k);
    RunRest(r, k);
    forall q | 0 <= q < NR_BUFS && t.arrived[q]
      ensures InRing(t.inSeq[q]) && Slot(t.inSeq[q]) == q && Dist(t.frameExpected, t.inSeq[q]) < NR_BUFS
    {
      assert r.arrived[q];
    }
    assert SlotsHold(t.arrived, t.inSeq, t.frameExpected);
  }

  /** Both receiver edges move `k` steps and stay NR_BUFS apart. */
  lemma DrainEdges(frameExpected: int, tooFar: int, k: int)
    requires InRing(frameExpected) && tooFar == Forward(frameExpected, NR_BUFS) && 0 <= k <= NR_BUFS
    ensures InRing(Forward(frameExpected, k))
    ensures Forward(tooFar, k) == Forward(Forward(frameExpected, k), NR_BUFS)
  {
    SmallMod(frameExpected + NR_BUFS);
    SmallMod(frameExpected + k);
    SmallMod(tooFar + k);
    SmallMod(Forward(frameExpected, k) + NR_BUFS);
  }

  /** The frames of the run carry consecutive sequence numbers from `frameExpected`. */
  lemma RunSeqs(r: Receiver, k: int)
    requires ReceiverInv(r) && k == RunLength(r.arrived, r.frameExpected)
    ensures RunOf(r.inSeq, r.frameExpected, k) == Consecutive(r.frameExpected, k)
  {
    var fe := r.frameExpected;
    forall i | 0 <= i < k
      ensures r.inSeq[RunSlot(fe, i)] == Forward(fe, i)
    {
      var q := RunSlot(fe, i);
      assert r.arrived[q];
      DistForward(fe, i);
      SlotInjective(fe, r.inSeq[q], Forward(fe, i));
    }
    assert forall i :: 0 <= i < k ==> RunOf(r.inSeq, fe, k)[i] == Consecutive(fe, k)[i];
  }

  /** After the run is cleared, the slot of the new `frameExpected` is empty. */
  lemma RunExit(r: Receiver, k: int)
    requires ReceiverInv(r) && k == RunLength(r.arrived, r.frameExpected)
    ensures !ClearRun(r.arrived, r.frameExpected, k)[RunSlot(r.frameExpected, k)]
  {
    if k < NR_BUFS {
      assert !r.arrived[RunSlot(r.frameExpected, k)];
    }
  }

  /** Slots still full after the drain hold frames inside the advanced window. */
  lemma RunRest(r: Receiver, k: int)
    requires ReceiverInv(r) && k == RunLength(r.arrived, r.frameExpected)
    ensures forall q :: 0 <= q < NR_BUFS && ClearRun(r.arrived, r.frameExpected, k)[q] ==>
              Dist(Forward(r.frameExpected, k), r.inSeq[q]) < NR_BUFS
  {
    var fe := r.frameExpected;
    forall q | 0 <= q < NR_BUFS && ClearRun(r.arrived, fe, k)[q]
      ensures Dist(Forward(fe, k), r.inSeq[q]) < NR_BUFS
    {
      assert r.arrived[q];
      var x := r.inSeq[q];
      SlotOffsetIsDist(fe, x);
      DistShift(fe, x, k);
    }
  }

  /**
   * Whether a DATA frame is stored (src/SWP.java:188): it lies in the
   * receiver window, i.e. fewer than NR_BUFS steps from `frameExpected`,
   * and its slot is empty.
   */
  function Accepts(r: Receiver, f: Frame): (ok: bool)
    requires ReceiverInv(r) && WellFormed(f)
    ensures ok <==> f.kind == DATA && Dist(r.frameExpected, f.seqNo) < NR_BUFS && !r.arrived[Slot(f.seqNo)]
  {
    DistForward(r.frameExpected, NR_BUFS);
    f.kind == DATA && Between(r.frameExpected, f.seqNo, r.tooFar) && !r.arrived[Slot(f.seqNo)]
  }

  /** Storing an accepted frame in its slot (src/SWP.java:191-192). */
  function Store(r: Receiver, f: Frame): (t: Receiver)
    requires ReceiverInv(r) && WellFormed(f) && Accepts(r, f)
    ensures ReceiverInv(t)
    ensures t.arrived[Slot(f.seqNo)] && t.inBuf[Slot(f.seqNo)] == f.info.value
    ensures t.inSeq[Slot(f.seqNo)] == f.seqNo
    ensures forall q :: 0 <= q < NR_BUFS && q != Slot(f.seqNo) ==>
              t.arrived[q] == r.arrived[q] && t.inBuf[q] == r.inBuf[q] && t.inSeq[q] == r.inSeq[q]
    ensures t.frameExpected == r.frameExpected && t.tooFar == r.tooFar && t.noNak == r.noNak
  {
    var slot := Slot(f.seqNo);
    StoreKeepsSlots(r.arrived, r.inSeq, r.frameExpected, f.seqNo);
    r.(arrived := r.arrived[slot := true], inBuf := r.inBuf[slot := f.info.value],
       inSeq := r.inSeq[slot := f.seqNo])
  }

  /** Filling the empty slot of an in-window frame keeps every slot consistent. */
  lemma StoreKeepsSlots(arrived: seq<bool>, inSeq: seq<int>, frameExpected: int, x: int)
    requires |arrived| == |inSeq| == NR_BUFS && SlotsHold(arrived, inSeq, frameExpected)
    requires InRing(frameExpected) && InRing(x)
    requires Between(frameExpected, x, Forward(frameExpected, NR_BUFS))
    ensures SlotsHold(arrived[Slot(x) := true], inSeq[Slot(x) := x], frameExpected)
  {
    DistForward(frameExpected, NR_BUFS);
  }

  /**
   * Whether an arriving frame draws a NAK (src/SWP.java:178): a DATA frame
   * any number of steps ahead of `frameExpected`, in the window or beyond
   * it, while no NAK is outstanding.
   */
  function NakDue(r: Receiver, f: Frame): (due: bool)
    ensures InRing(r.frameExpected) && InRing(f.seqNo) ==>
              (due <==> f.kind == DATA && r.noNak && Dist(r.frameExpected, f.seqNo) != 0)
  {
    f.kind == DATA && f.seqNo != r.frameExpected && r.noNak
  }

  /**
   * The receiver half of FRAME_ARRIVAL (src/SWP.java:172-206): the NAK
   * decision clears `no_nak`, then an accepted frame is stored and the run
   * from `frameExpected` delivered. Frames of other kinds, duplicates and
   * frames outside the receiver window deliver nothing.
   */
  function Receive(r: Receiver, f: Frame): (d: Delivery)
    requires ReceiverInv(r) && WellFormed(f)
    ensures ReceiverInv(d.rcv)
    ensures |d.packets| == |d.seqs| && d.seqs == Consecutive(r.frameExpected, |d.packets|)
    ensures d.rcv.frameExpected == Forward(r.frameExpected, |d.packets|)
    ensures d.rcv.noNak == (|d.packets| > 0 || (r.noNak && !NakDue(r, f)))
    ensures f.kind != DATA ==> d == Delivery(r, [], [])
    ensures f.kind == DATA && !Accepts(r, f) ==>
              d.packets == [] && d.rcv == r.(noNak := r.noNak && !NakDue(r, f))
  {
    var r1 := r.(noNak := r.noNak && !NakDue(r, f));
    if Accepts(r1, f) then Drained(Store(r1, f)) else Delivery(r1, [], [])
  }

  /** The frame a NAK asks to have resent: the one after its cumulative ack. */
  function Missing(f: Frame): (m: int)
    requires WellFormed(f)
    ensures InRing(m) && m == Inc(f.ack)
  {
    (f.ack + 1) % RING
  }

  /**
   * FRAME_ARRIVAL (src/SWP.java:169-218): the receiver half for DATA frames,
   * a selective resend of the frame a NAK names when it is in the sender
   * window, and the cumulative-ack sweep, for every frame kind.
   */
  function OnArrival(s: State, f: Frame): (o: Outcome)
    requires Inv(s) && WellFormed(f)
    ensures Inv(o.state)
    ensures o.state.snd.nextFrameToSend == s.snd.nextFrameToSend && o.state.snd.credit == s.snd.credit
    ensures o.state.snd.outBuf == s.snd.outBuf
    ensures o.state.snd.ackExpected == SweepTarget(s.snd.ackExpected, f.ack, s.snd.nextFrameToSend)
    ensures |o.delivered| == |o.deliveredSeqs|
    ensures o.deliveredSeqs == Consecutive(s.rcv.frameExpected, |o.delivered|)
    ensures o.state.rcv.frameExpected == Forward(s.rcv.frameExpected, |o.delivered|)
    ensures f.kind != NAK ==> forall i :: 0 <= i < |o.sent| ==> o.sent[i].kind == NAK
  {
    var d := Receive(s.rcv, f);
    var snd := s.snd.(ackExpected := SweepTarget(s.snd.ackExpected, f.ack, s.snd.nextFrameToSend));
    Outcome(State(snd, d.rcv), NakReply(s.rcv, f, s.snd.outBuf) + Resend(s.snd, f, d.rcv.frameExpected),
            d.packets, d.seqs)
  }

  /** The NAK a frame arrival sends, if any (src/SWP.java:178-179). */
  function NakReply(r: Receiver, f: Frame, outBuf: seq<Packet>): (frames: seq<Frame>)
    requires |outBuf| == NR_BUFS
    ensures |frames| <= 1 && (|frames| == 1 <==> NakDue(r, f))
    ensures forall i :: 0 <= i < |frames| ==> frames[i].kind == NAK && frames[i].info.None?
  {
    if NakDue(r, f) then [MakeFrame(NAK, 0, r.frameExpected, outBuf)] else []
  }

  /**
   * The DATA frame a NAK asks to have resent, if it lies in the sender
   * window (src/SWP.java:209-210).
   */
  function Resend(t: Sender, f: Frame, frameExpected: int): (frames: seq<Frame>)
    requires SenderInv(t) && WellFormed(f)
    ensures |frames| <= 1
    ensures |frames| == 1 <==> f.kind == NAK && Between(t.ackExpected, Missing(f), t.nextFrameToSend)
    ensures forall i :: 0 <= i < |frames| ==>
              frames[i].kind == DATA && frames[i].seqNo == Missing(f) &&
              frames[i].info == Some(t.outBuf[Slot(Missing(f))])
  {
    if f.kind == NAK && Between(t.ackExpected, Missing(f), t.nextFrameToSend)
    then [MakeFrame(DATA, Missing(f), frameExpected, t.outBuf)] else []
  }

  /** CKSUM_ERR (src/SWP.java:220-226): a NAK unless one is outstanding. */
  function OnCksumErr(s: State): (o: Outcome)
    requires Inv(s)
    ensures Inv(o.state) && !o.state.rcv.noNak
    ensures o.sent == if s.rcv.noNak then [MakeFrame(NAK, 0, s.rcv.frameExpected, s.snd.outBuf)] else []
    ensures o.state == State(s.snd, s.rcv.(noNak := false)) && o.delivered == [] && o.deliveredSeqs == []
  {
    if s.rcv.noNak then
      Outcome(State(s.snd, s.rcv.(noNak := false)), [MakeFrame(NAK, 0, s.rcv.frameExpected, s.snd.outBuf)], [], [])
    else
      Outcome(s, [], [], [])
  }

  /** ACK_TIMEOUT (src/SWP.java:233-237): a standalone ACK, nothing else. */
  function OnAckTimeout(s: State): (o: Outcome)
    requires Inv(s)
    ensures Inv(o.state) && o.state == s && o.delivered == [] && o.deliveredSeqs == []
    ensures |o.sent| == 1 && o.sent[0].kind == ACK && o.sent[0].info.None?
    ensures InRing(o.sent[0].ack) && Inc(o.sent[0].ack) == s.rcv.frameExpected
  {
    Outcome(s, [MakeFrame(ACK, 0, s.rcv.frameExpected, s.snd.outBuf)], [], [])
  }

  // ----------------------------------------------------------------- events

  /** The five events `wait_for_event` reports, with what each one carries. */
  datatype Event =
    | NETWORK_LAYER_READY(packet: Packet)   // the packet `from_network_layer` fetches
    | FRAME_ARRIVAL(frame: Frame)           // the frame `from_physical_layer` fetches
    | CKSUM_ERR
    | TIMEOUT(seqNo: int)                   // sequence number of the frame that timed out
    | ACK_TIMEOUT

  /**
   * What the environment guarantees about an event: the network layer is
   * ready only while it holds credit, arriving frames are well formed, and
   * a timed-out sequence number indexes the outbound buffer under Java's `%`.
   */
  predicate Enabled(s: State, e: Event) {
    match e
    case NETWORK_LAYER_READY(_) => s.snd.credit > 0
    case FRAME_ARRIVAL(f) => WellFormed(f)
    case TIMEOUT(n) => SlotIndexable(n)
    case _ => true
  }

  /**
   * One pass through the body of the event loop (src/SWP.java:157-243). Every
   * event keeps the invariant, and whatever is delivered continues the
   * sequence numbers from `frameExpected` on.
   */
  function Step(s: State, e: Event): (o: Outcome)
    requires Inv(s) && Enabled(s, e)
    ensures Inv(o.state) && |o.delivered| == |o.deliveredSeqs|
    ensures o.deliveredSeqs == Consecutive(s.rcv.frameExpected, |o.delivered|)
    ensures o.state.rcv.frameExpected == Forward(s.rcv.frameExpected, |o.delivered|)
  {
    SmallMod(s.rcv.frameExpected);
    match e
    case NETWORK_LAYER_READY(p) => OnReady(s, p)
    case FRAME_ARRIVAL(f) => OnArrival(s, f)
    case CKSUM_ERR => OnCksumErr(s)
    case TIMEOUT(n) => OnTimeout(s, n)
    case ACK_TIMEOUT => OnAckTimeout(s)
  }
}
