/**
 * Reassembly by the receiver half of FRAME_ARRIVAL (src/SWP.java:172-206):
 * the frames of a batch of up to NR_BUFS consecutive sequence numbers may
 * arrive in any order, and the network layer still receives every packet of
 * the batch, once, in sequence order.
 *
 * Positions in the batch are counted as offsets from the `frameExpected`
 * the batch starts at, `fe0`; `got` is the set of offsets that have arrived
 * and `m` the number of packets handed up so far.
 */
module Reassembly {
  import opened SeqArith
  import opened Frames
  import opened Protocol
  import opened Properties

  /** The offsets of a batch of `n` frames. */
  function Offsets(n: int): (s: set<int>)
    ensures forall i :: i in s <==> 0 <= i < n
    decreases n
  {
    if n <= 0 then {} else Offsets(n - 1) + {n - 1}
  }

  /**
   * Every arrived offset is in the batch, every offset below `m` has
   * arrived, and `m` itself has not: the next one to hand up is missing.
   */
  ghost predicate GotPrefix(got: set<int>, m: int, n: int) {
    (forall i :: i in got ==> 0 <= i < n) && (forall i :: 0 <= i < m ==> i in got) && m !in got
  }

  /**
   * The inbound slots hold exactly the arrived packets from offset `m` on,
   * each in the slot of its sequence number.
   */
  ghost predicate SlotView(arrived: seq<bool>, inBuf: seq<Packet>, fe0: int, payloads: seq<Packet>, got: set<int>, m: int) {
    |arrived| == NR_BUFS && |inBuf| == NR_BUFS &&
    forall q :: 0 <= q < NR_BUFS ==>
      (arrived[q] <==> SlotOffset(fe0, q) >= m && SlotOffset(fe0, q) in got) &&
      (arrived[q] && SlotOffset(fe0, q) < |payloads| ==> inBuf[q] == payloads[SlotOffset(fe0, q)])
  }

  /** The receiver after the arrivals `got` of the batch `payloads` starting at `fe0`. */
  ghost predicate Holds(r: Receiver, fe0: int, payloads: seq<Packet>, got: set<int>, m: int) {
    ReceiverInv(r) && InRing(fe0) && 0 <= m <= |payloads| <= NR_BUFS &&
    r.frameExpected == Forward(fe0, m) && GotPrefix(got, m, |payloads|) &&
    SlotView(r.arrived, r.inBuf, fe0, payloads, got, m)
  }

  /**
   * `events` are the arrivals of the frames at the offsets `todo` from
   * `fe0`, each exactly once, in any order, each with its payload.
   */
  ghost predicate Arrivals(events: seq<Event>, fe0: int, payloads: seq<Packet>, todo: set<int>) {
    |events| == |todo| &&
    (forall j :: 0 <= j < |events| ==>
       events[j].FRAME_ARRIVAL? && WellFormed(events[j].frame) && events[j].frame.kind == DATA &&
       Dist(fe0, events[j].frame.seqNo) in todo && Dist(fe0, events[j].frame.seqNo) < |payloads| &&
       events[j].frame.info == Some(payloads[Dist(fe0, events[j].frame.seqNo)])) &&
    (forall j, j' :: 0 <= j < j' < |events| ==> events[j].frame.seqNo != events[j'].frame.seqNo)
  }

  /**
   * A batch of up to NR_BUFS frames from `frameExpected` on, arriving in any
   * order at a receiver with no frame buffered, hands every packet of the
   * batch to the network layer, in sequence order.
   */
  lemma BatchDelivered(s: State, payloads: seq<Packet>, events: seq<Event>)
    requires Inv(s) && |payloads| <= NR_BUFS
    requires forall q :: 0 <= q < NR_BUFS ==> !s.rcv.arrived[q]
    requires Arrivals(events, s.rcv.frameExpected, payloads, Offsets(|payloads|))
    ensures Run(s, events).delivered == payloads
  {
    var fe0 := s.rcv.frameExpected;
    SmallMod(fe0);
    assert Holds(s.rcv, fe0, payloads, {}, 0);
    assert Offsets(|payloads|) - {} == Offsets(|payloads|);
    BatchSuffix(s, fe0, payloads, {}, 0, events);
  }

  /** The rest of a batch hands up the rest of its packets. */
  lemma {:induction false} BatchSuffix(s: State, fe0: int, payloads: seq<Packet>, got: set<int>, m: int,
                                       events: seq<Event>)
    requires Inv(s) && Holds(s.rcv, fe0, payloads, got, m)
    requires Arrivals(events, fe0, payloads, Offsets(|payloads|) - got)
    ensures Run(s, events).delivered == payloads[m..]
    decreases |events|
  {
    var todo := Offsets(|payloads|) - got;
    if events == [] {
      assert todo == {};
      assert m !in todo;
    } else {
      var f := events[0].frame;
      var t := ArrivalsRest(events, fe0, payloads, todo);
      var m2 := ReceiveStep(s.rcv, fe0, payloads, got, m, f);
      var o := Step(s, events[0]);
      RunCons(s, events);
      assert Offsets(|payloads|) - (got + {t}) == todo - {t};
      BatchSuffix(o.state, fe0, payloads, got + {t}, m2, events[1..]);
      SliceSplit(payloads, m, m2);
    }
  }

  /** A suffix is the slice up to a later point followed by the suffix from there. */
  lemma SliceSplit(s: seq<Packet>, a: int, b: int)
    requires 0 <= a <= b <= |s|
    ensures s[a..] == s[a..b] + s[b..]
  {
  }

  /** The first arrival takes one offset of the batch, and the others arrive after it. */
  lemma ArrivalsRest(events: seq<Event>, fe0: int, payloads: seq<Packet>, todo: set<int>) returns (t: int)
    requires InRing(fe0) && Arrivals(events, fe0, payloads, todo) && |events| > 0
    ensures t == Dist(fe0, events[0].frame.seqNo) && t in todo
    ensures Arrivals(events[1..], fe0, payloads, todo - {t})
  {
    t := Dist(fe0, events[0].frame.seqNo);
    var rest := events[1..];
    assert todo == (todo - {t}) + {t};
    forall j | 0 <= j < |rest|
      ensures Dist(fe0, rest[j].frame.seqNo) != t
    {
      assert rest[j] == events[j + 1];
      DistInverse(fe0, events[0].frame.seqNo);
      DistInverse(fe0, rest[j].frame.seqNo);
    }
  }

  /** A run that starts with an event the environment can produce is that event, then the rest. */
  lemma RunCons(s: State, events: seq<Event>)
    requires Inv(s) && |events| > 0 && Enabled(s, events[0])
    ensures Run(s, events).delivered ==
              Step(s, events[0]).delivered + Run(Step(s, events[0]).state, events[1..]).delivered
  {
  }

  /**
   * One arrival of a frame of the batch that has not arrived yet: it is
   * accepted, and the drain hands up the offsets from `m` on that are now
   * all present.
   */
  lemma ReceiveStep(r: Receiver, fe0: int, payloads: seq<Packet>, got: set<int>, m: int, f: Frame)
    returns (m2: int)
    requires Holds(r, fe0, payloads, got, m) && WellFormed(f) && f.kind == DATA
    requires Dist(fe0, f.seqNo) < |payloads| && Dist(fe0, f.seqNo) !in got
    requires f.info == Some(payloads[Dist(fe0, f.seqNo)])
    ensures m <= m2
    ensures Holds(Receive(r, f).rcv, fe0, payloads, got + {Dist(fe0, f.seqNo)}, m2)
    ensures Receive(r, f).packets == payloads[m..m2]
  {
    var r1 := r.(noNak := r.noNak && !NakDue(r, f));
    var got2 := got + {Dist(fe0, f.seqNo)};
    assert Holds(r1, fe0, payloads, got, m);
    StoreView(r1, fe0, payloads, got, m, f);
    var st := Store(r1, f);
    m2 := RunOfView(st, fe0, payloads, got2, m);
    DrainedView(st, fe0, payloads, got2, m, m2);
  }

  /** A frame of the batch that has not arrived is accepted and stored in its slot. */
  lemma StoreView(r: Receiver, fe0: int, payloads: seq<Packet>, got: set<int>, m: int, f: Frame)
    requires Holds(r, fe0, payloads, got, m) && WellFormed(f) && f.kind == DATA
    requires Dist(fe0, f.seqNo) < |payloads| && Dist(fe0, f.seqNo) !in got
    requires f.info == Some(payloads[Dist(fe0, f.seqNo)])
    ensures Accepts(r, f)
    ensures SlotView(Store(r, f).arrived, Store(r, f).inBuf, fe0, payloads, got + {Dist(fe0, f.seqNo)}, m)
  {
    var x := f.seqNo;
    var t := Dist(fe0, x);
    var fe := r.frameExpected;
    assert t >= m;
    DistForward(fe0, m);
    DistShift(fe0, x, m);
    DistForward(fe, NR_BUFS);
    SlotOffsetIsDist(fe0, x);
    assert Accepts(r, f);
    var st := Store(r, f);
    forall q | 0 <= q < NR_BUFS && q != Slot(x)
      ensures SlotOffset(fe0, q) != t
    {
      SlotOfOffset(fe0, q);
      DistInverse(fe0, x);
    }
  }

  /**
   * After the store, the drain's run from `Forward(fe0, m)` covers the
   * offsets m, m+1, ... that have all arrived, and stops at the first
   * missing one.
   */
  lemma RunOfView(st: Receiver, fe0: int, payloads: seq<Packet>, got: set<int>, m: int) returns (m2: int)
    requires ReceiverInv(st) && InRing(fe0) && 0 <= m <= |payloads| <= NR_BUFS
    requires st.frameExpected == Forward(fe0, m)
    requires (forall i :: i in got ==> 0 <= i < |payloads|) && (forall i :: 0 <= i < m ==> i in got)
    requires SlotView(st.arrived, st.inBuf, fe0, payloads, got, m)
    ensures m2 == m + RunLength(st.arrived, st.frameExpected)
    ensures m2 <= |payloads| && GotPrefix(got, m2, |payloads|)
    ensures forall j :: 0 <= j < m2 - m ==> SlotOffset(fe0, RunSlot(st.frameExpected, j)) == m + j
  {
    var fe := st.frameExpected;
    var k := RunLength(st.arrived, fe);
    m2 := m + k;
    forall j | 0 <= j < k
      ensures SlotOffset(fe0, RunSlot(fe, j)) == m + j && m + j in got
    {
      RunSlotOffset(fe0, m, j);
      assert m + j < NR_BUFS;
    }
    assert |payloads| !in got;
    if k < NR_BUFS {
      RunSlotOffset(fe0, m, k);
    }
  }

  /**
   * The drain hands up the packets of offsets m .. m2 - 1 in order and
   * leaves the receiver holding the batch from offset m2 on.
   */
  lemma DrainedView(st: Receiver, fe0: int, payloads: seq<Packet>, got: set<int>, m: int, m2: int)
    requires ReceiverInv(st) && InRing(fe0) && 0 <= m <= m2 <= |payloads| <= NR_BUFS
    requires st.frameExpected == Forward(fe0, m) && GotPrefix(got, m2, |payloads|)
    requires SlotView(st.arrived, st.inBuf, fe0, payloads, got, m)
    requires m2 == m + RunLength(st.arrived, st.frameExpected)
    requires forall j :: 0 <= j < m2 - m ==> SlotOffset(fe0, RunSlot(st.frameExpected, j)) == m + j
    ensures Drained(st).packets == payloads[m..m2]
    ensures Holds(Drained(st).rcv, fe0, payloads, got, m2)
  {
    var fe := st.frameExpected;
    var k := m2 - m;
    var d := Drained(st);
    DrainedPackets(st, fe0, payloads, got, m, m2);
    ForwardAdd(fe0, m, k);
    assert d.rcv.arrived == ClearRun(st.arrived, fe, k);
    forall q | 0 <= q < NR_BUFS
      ensures d.rcv.arrived[q] <==> SlotOffset(fe0, q) >= m2 && SlotOffset(fe0, q) in got
    {
      OffsetShift(fe0, m, q);
    }
  }

  /** The packets the drain hands up are those of offsets m .. m2 - 1, in order. */
  lemma DrainedPackets(st: Receiver, fe0: int, payloads: seq<Packet>, got: set<int>, m: int, m2: int)
    requires ReceiverInv(st) && InRing(fe0) && 0 <= m <= m2 <= |payloads| <= NR_BUFS
    requires SlotView(st.arrived, st.inBuf, fe0, payloads, got, m)
    requires m2 == m + RunLength(st.arrived, st.frameExpected)
    requires forall j :: 0 <= j < m2 - m ==> SlotOffset(fe0, RunSlot(st.frameExpected, j)) == m + j
    ensures Drained(st).packets == payloads[m..m2]
  {
    forall j | 0 <= j < m2 - m
      ensures Drained(st).packets[j] == payloads[m + j]
    {
      DrainedPacketAt(st, fe0, payloads, got, m, j);
    }
  }

  /** The `j`-th packet of the drain is the one of the slot `j` steps on from `Forward(fe0, m)`. */
  lemma DrainedPacketAt(st: Receiver, fe0: int, payloads: seq<Packet>, got: set<int>, m: int, j: int)
    requires ReceiverInv(st) && 0 <= m && |payloads| <= NR_BUFS
    requires SlotView(st.arrived, st.inBuf, fe0, payloads, got, m)
    requires 0 <= j < RunLength(st.arrived, st.frameExpected) && m + j < |payloads|
    requires SlotOffset(fe0, RunSlot(st.frameExpected, j)) == m + j
    ensures Drained(st).packets[j] == payloads[m + j]
  {
    var fe := st.frameExpected;
    var d := Drained(st);
    var q := RunSlot(fe, j);
    assert d.seqs[j] == Forward(fe, j);
    assert d.packets[j] == st.inBuf[q];
    assert st.arrived[q];
  }

  /**
   * Slot offsets from `fe0` and from `m` steps later differ by `m`, round
   * the slots.
   */
  lemma OffsetShift(fe0: int, m: int, q: int)
    requires InRing(fe0) && 0 <= m <= NR_BUFS && 0 <= q < NR_BUFS
    ensures SlotOffset(fe0, q) >= m ==> SlotOffset(Forward(fe0, m), q) == SlotOffset(fe0, q) - m
    ensures SlotOffset(fe0, q) < m ==> SlotOffset(Forward(fe0, m), q) == SlotOffset(fe0, q) - m + NR_BUFS
  {
    SlotOfOffset(fe0, q);
    if SlotOffset(fe0, q) >= m {
      OffsetAhead(fe0, m, q);
    } else {
      OffsetBehind(fe0, m, q);
    }
  }

  /** A slot at least `m` slots after `fe0`'s is `m` slots nearer to `Forward(fe0, m)`'s. */
  lemma OffsetAhead(fe0: int, m: int, q: int)
    requires InRing(fe0) && 0 <= m <= SlotOffset(fe0, q) < NR_BUFS && 0 <= q < NR_BUFS
    ensures SlotOffset(Forward(fe0, m), q) == SlotOffset(fe0, q) - m
  {
    var o := SlotOffset(fe0, q);
    var fe := Forward(fe0, m);
    SlotOfOffset(fe0, q);
    DistForward(fe0, m);
    ForwardAdd(fe0, m, o - m);
    DistForward(fe, o - m);
    SlotOffsetIsDist(fe, Forward(fe, o - m));
  }

  /** A slot fewer than `m` slots after `fe0`'s comes round again after `Forward(fe0, m)`'s. */
  lemma OffsetBehind(fe0: int, m: int, q: int)
    requires InRing(fe0) && 0 <= SlotOffset(fe0, q) < m <= NR_BUFS && 0 <= q < NR_BUFS
    ensures SlotOffset(Forward(fe0, m), q) == SlotOffset(fe0, q) - m + NR_BUFS
  {
    var o := SlotOffset(fe0, q);
    var fe := Forward(fe0, m);
    SlotOfOffset(fe0, q);
    DistForward(fe0, m);
    ForwardAdd(fe0, m, o - m + NR_BUFS);
    ForwardAdd(fe0, o, NR_BUFS);
    DistForward(fe0, o);
    HalfTurnSlot(Forward(fe0, o));
    DistForward(fe, o - m + NR_BUFS);
    SlotOffsetIsDist(fe, Forward(fe, o - m + NR_BUFS));
  }

  /** The slot `j` steps after `Forward(fe0, m)` is `m + j` slots after `fe0`'s, round the slots. */
  lemma RunSlotOffset(fe0: int, m: int, j: int)
    requires InRing(fe0) && 0 <= m <= NR_BUFS && 0 <= j < NR_BUFS
    ensures m + j < NR_BUFS ==> SlotOffset(fe0, RunSlot(Forward(fe0, m), j)) == m + j
    ensures m + j >= NR_BUFS ==> SlotOffset(fe0, RunSlot(Forward(fe0, m), j)) == m + j - NR_BUFS
  {
    ForwardAdd(fe0, m, j);
    if m + j < NR_BUFS {
      DistForward(fe0, m + j);
      SlotOffsetIsDist(fe0, Forward(fe0, m + j));
    } else {
      var n := m + j - NR_BUFS;
      DistForward(fe0, n);
      SlotOffsetIsDist(fe0, Forward(fe0, n));
      ForwardAdd(fe0, n, NR_BUFS);
      HalfTurnSlot(Forward(fe0, n));
    }
  }

  /** Half a turn of the ring lands on the same slot. */
  lemma HalfTurnSlot(y: int)
    requires InRing(y)
    ensures Slot(Forward(y, NR_BUFS)) == Slot(y)
  {
    SmallMod(y + NR_BUFS);
    SlotSmall(y);
    SlotSmall(Forward(y, NR_BUFS));
  }
}
