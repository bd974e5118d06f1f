/**
 * Frames exchanged by two protocol engines, and their construction by
 * `send_frame` (src/SWP.java:104-127).
 */
module Frames {
  import opened SeqArith

  /** A network-layer payload; its internals belong to the upper layer. */
  type Packet = string

  /** The payload a buffer slot holds before anything is stored in it. */
  const EmptyPacket: Packet := ""

  datatype FrameKind = DATA | ACK | NAK

  datatype Option<T> = None | Some(value: T)

  /**
   * A frame on the wire: its kind, its sequence number, the piggybacked
   * cumulative acknowledgement and, for DATA frames only, the payload.
   */
  datatype Frame = Frame(kind: FrameKind, seqNo: int, ack: int, info: Option<Packet>)

  /** The shape of every frame a peer engine puts on the wire. */
  predicate WellFormed(f: Frame) {
    InRing(f.seqNo) && InRing(f.ack) && (f.info.Some? <==> f.kind == DATA)
  }

  /**
   * The piggybacked acknowledgement `(frame_expected + MAX_SEQ) % (MAX_SEQ + 1)`:
   * the last sequence number received in order, i.e. the one just before
   * `frameExpected` on the ring.
   */
  function AckFor(frameExpected: int): (a: int)
    ensures InRing(frameExpected) ==> InRing(a) && Inc(a) == frameExpected
  {
    JavaRem(frameExpected + MAX_SEQ, RING)
  }

  /**
   * The frame `send_frame(kind, frameNumber, frameExpected, buffer)` hands to
   * the physical layer. Only DATA frames index the buffer.
   */
  function MakeFrame(kind: FrameKind, frameNumber: int, frameExpected: int, buffer: seq<Packet>): (f: Frame)
    requires |buffer| == NR_BUFS
    requires kind == DATA ==> SlotIndexable(frameNumber)
    ensures f.kind == kind && f.seqNo == frameNumber
    ensures InRing(frameExpected) ==> InRing(f.ack) && Inc(f.ack) == frameExpected
    ensures f.info.Some? <==> kind == DATA
    ensures kind == DATA ==> f.info.value == buffer[Slot(frameNumber)]
    ensures InRing(frameNumber) && InRing(frameExpected) ==> WellFormed(f)
  {
    JavaSlot(frameNumber);
    var info := if kind == DATA then Some(buffer[JavaRem(frameNumber, NR_BUFS)]) else None;
    Frame(kind, frameNumber, AckFor(frameExpected), info)
  }

  /**
   * A NAK built by `send_frame` names the frame its sender is waiting for:
   * the receiving peer computes `(ack + 1) % (MAX_SEQ + 1)` from it
   * (src/SWP.java:209) and obtains the sender's `frameExpected`.
   */
  lemma NakNamesFrameExpected(frameExpected: int, buffer: seq<Packet>)
    requires InRing(frameExpected) && |buffer| == NR_BUFS
    ensures (MakeFrame(NAK, 0, frameExpected, buffer).ack + 1) % RING == frameExpected
  {
    var f := MakeFrame(NAK, 0, frameExpected, buffer);
    assert Inc(f.ack) == (f.ack + 1) % RING;
  }
}
