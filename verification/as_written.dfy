/**
 * The event handlers as src/SWP.java writes them. `inc` returns the
 * successor of its argument (src/SWP.java:249-255), but every call of it in
 * `protocol6()` is a statement whose result is dropped (src/SWP.java:165,
 * 199, 200 and 215), so no window edge ever moves. The members here show
 * what that does; modules Protocol and Engine advance the edges.
 */
module AsWritten {
  import opened SeqArith
  import opened Frames
  import opened Protocol

  /**
   * `inc(x);` as a statement: the successor is computed and dropped, so `x`
   * keeps its value, which is never the successor.
   */
  function IncDropped(x: int): (r: int)
    ensures r == x
    ensures InRing(x) ==> r != Inc(x)
  {
    var _ := Inc(x);
    x
  }

  // ------------------------------------------------ src/SWP.java:161-167

  /** NETWORK_LAYER_READY as written: `next_frame_to_send` stays put. */
  function ReadyAsWritten(s: State, packet: Packet): (o: Outcome)
    requires Inv(s) && s.snd.credit > 0
    ensures Inv(o.state) && o.state.rcv == s.rcv
    ensures o.state.snd.nextFrameToSend == s.snd.nextFrameToSend
    ensures o.sent == [Frame(DATA, s.snd.nextFrameToSend, AckFor(s.rcv.frameExpected), Some(packet))]
    ensures o.state.snd.outBuf[Slot(s.snd.nextFrameToSend)] == packet
  {
    var next := s.snd.nextFrameToSend;
    var buf := s.snd.outBuf[Slot(next) := packet];
    var snd := s.snd.(outBuf := buf, nextFrameToSend := IncDropped(next), credit := s.snd.credit - 1);
    Outcome(State(snd, s.rcv), [MakeFrame(DATA, next, s.rcv.frameExpected, buf)], [], [])
  }

  /**
   * Two packets in a row go out under the same sequence number, and the
   * second overwrites the first in the outbound buffer: a timeout for that
   * sequence number retransmits the second packet, and the first is lost.
   */
  lemma ReadyTwiceReusesSequenceNumber(s: State, p1: Packet, p2: Packet)
    requires Inv(s) && s.snd.credit >= 2
    ensures var o1 := ReadyAsWritten(s, p1);
            var o2 := ReadyAsWritten(o1.state, p2);
            o2.sent[0].seqNo == o1.sent[0].seqNo &&
            OnTimeout(o2.state, o1.sent[0].seqNo).sent[0].info == Some(p2)
  {
    var o1 := ReadyAsWritten(s, p1);
    var o2 := ReadyAsWritten(o1.state, p2);
    assert o2.state.snd.outBuf[Slot(s.snd.nextFrameToSend)] == p2;
  }

  // ------------------------------------------------ src/SWP.java:194-202

  /**
   * The drain loop as written: `frame_expected` and `too_far` stay put, so
   * after the first round the guard tests the slot just emptied and the
   * loop ends. At most one packet goes up per arrival.
   */
  function DrainedAsWritten(r: Receiver): (d: Delivery)
    requires ReceiverInv(r)
    ensures ReceiverInv(d.rcv) && |d.packets| <= 1 && |d.seqs| == |d.packets|
    ensures d.rcv.frameExpected == r.frameExpected && d.rcv.tooFar == r.tooFar
    ensures d.rcv.inBuf == r.inBuf && d.rcv.inSeq == r.inSeq
    ensures forall q :: 0 <= q < NR_BUFS && q != Slot(r.frameExpected) ==> d.rcv.arrived[q] == r.arrived[q]
  {
    var slot := Slot(r.frameExpected);
    if r.arrived[slot] then
      var t := r.(arrived := r.arrived[slot := false], noNak := true,
                  frameExpected := IncDropped(r.frameExpected), tooFar := IncDropped(r.tooFar));
      Delivery(t, [r.inBuf[slot]], [r.inSeq[slot]])
    else
      Delivery(r, [], [])
  }

  /** The receiver half of FRAME_ARRIVAL as written (src/SWP.java:172-206). */
  function ReceiveAsWritten(r: Receiver, f: Frame): (d: Delivery)
    requires ReceiverInv(r) && WellFormed(f)
    ensures ReceiverInv(d.rcv) && d.rcv.frameExpected == r.frameExpected && |d.packets| <= 1
  {
    var r1 := r.(noNak := r.noNak && !NakDue(r, f));
    if Accepts(r1, f) then DrainedAsWritten(Store(r1, f)) else Delivery(r1, [], [])
  }

  /**
   * Frames 0 and 1 arrive in order at a fresh engine. As written, packet 0
   * goes up, but packet 1 stays in its slot for good: a retransmission of
   * frame 1 finds the slot full, while a second copy of frame 0 is handed up
   * again.
   */
  lemma InOrderPairStranded(p0: Packet, p1: Packet, p0again: Packet)
    ensures var f0 := Frame(DATA, 0, MAX_SEQ, Some(p0));
            var f1 := Frame(DATA, 1, MAX_SEQ, Some(p1));
            var a := ReceiveAsWritten(Init().rcv, f0);
            var b := ReceiveAsWritten(a.rcv, f1);
            a.packets == [p0] && b.packets == [] && b.rcv.frameExpected == 0 && b.rcv.arrived[1] &&
            ReceiveAsWritten(b.rcv, f1).packets == [] &&
            ReceiveAsWritten(b.rcv, Frame(DATA, 0, MAX_SEQ, Some(p0again))).packets == [p0again]
  {
    var f0 := Frame(DATA, 0, MAX_SEQ, Some(p0));
    var f1 := Frame(DATA, 1, MAX_SEQ, Some(p1));
    var r0 := Init().rcv;
    SlotSmall(0);
    SlotSmall(1);
    var a := ReceiveAsWritten(r0, f0);
    assert a.rcv.arrived[0] == false;
    var b := ReceiveAsWritten(a.rcv, f1);
    assert Accepts(a.rcv, f1);
    assert b.rcv.arrived[1];
  }

  // ------------------------------------------------ src/SWP.java:213-217

  /**
   * `ack_expected` after `n` rounds of the ack sweep's body as written
   * (src/SWP.java:213-216): no number of rounds moves it.
   */
  function SweepRoundsAsWritten(ackExpected: int, n: nat): (r: int)
    ensures r == ackExpected
  {
    if n == 0 then ackExpected else IncDropped(SweepRoundsAsWritten(ackExpected, n - 1))
  }

  /**
   * The ack sweep as written never leaves its loop once it enters it: no
   * number of rounds makes the guard false, whereas the corrected sweep
   * stops after `Dist(ackExpected, ack) + 1` rounds. (With
   * `next_frame_to_send` also stuck, the guard is `between(0, ack, 0)`,
   * which is false, so the loop is only reached once line 165 advances the
   * sender window.)
   */
  lemma SweepAsWrittenNeverExits(ackExpected: int, ack: int, next: int, n: nat)
    requires Between(ackExpected, ack, next)
    ensures SweepRoundsAsWritten(ackExpected, n) == ackExpected
    ensures Between(SweepRoundsAsWritten(ackExpected, n), ack, next)
  {
  }
}
