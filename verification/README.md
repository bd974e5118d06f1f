# Selective-repeat sliding-window protocol engine

`src/SWP.java` implements the sender and receiver of one station of the
selective-repeat sliding-window protocol ("protocol 6"):

- sequence numbers `0..MAX_SEQ` with `MAX_SEQ = 7`;
- `NR_BUFS = 4` buffer slots per direction;
- piggybacked cumulative acknowledgements;
- negative acknowledgements (NAKs) for fast retransmission;
- an inbound bitmap `arrived[]` so that frames may arrive out of order and are still handed to the network layer in order.

This project models that engine in Dafny and proves properties of the model.

- **`seq_arith.dfy` (module `SeqArith`)** holds the ring arithmetic:
  - `between` as `Between` and `inc` as `Inc`;
  - Java's `%` as `JavaRem`;
  - the distance round the ring, `Dist`;
  - lemmas tying these to modular arithmetic.
- **`frames.dfy` (module `Frames`)** holds:
  - the frame record and the well-formedness of arriving frames;
  - `send_frame`'s frame construction, `MakeFrame`.
- **`protocol.dfy` (module `Protocol`)** is the pure specification of `protocol6()`.
  - The engine state is `State`, made of a `Sender` and a `Receiver`, with the invariant `Inv`.
  - The five `PEvent` types the event loop switches on (src/SWP.java:159-243) are the cases of the datatype `Event`, and `Enabled` says which events the environment can produce in a state.
  - There is one function per event: `OnReady`, `OnArrival`, `OnCksumErr`, `OnTimeout` and `OnAckTimeout`.
  - Each returns the new state, the frames handed to the physical layer and the packets handed to the network layer.
  - The drain loop is written in closed form as `Drained`, and the ack sweep as `SweepTarget`.
- **`engine.dfy` (module `Engine`)** is the engine as the source runs it.
  - It is a class `SlidingWindow` whose fields are the protocol variables.
  - `out_buf`, `in_buf` and `arrived` are arrays of length `NR_BUFS`.
  - The handlers update the fields in place, and the source's loops are loops.
  - The frames sent and the packets delivered are recorded in the histories `sent` and `delivered`.
  - Each handler's contract ties the new state and the new history entries to the `Protocol` function of its event, and keeps the invariant `Valid()`.
  - `Valid()` includes the fact that everything delivered so far carries the sequence numbers 0, 1, 2, … round the ring.
- **`properties.dfy` (module `Properties`)** states the properties that relate several events:
  - the NAK guard;
  - duplicate rejection;
  - in-order delivery over any sequence of events (`Run`);
  - the NAK round trip to the peer;
  - what happens to a single accepted, expected or out-of-order frame.
- **`reassembly.dfy` (module `Reassembly`)** proves the purpose of the inbound bitmap. The frames of a batch of up to NR_BUFS consecutive numbers from `frame_expected` may arrive in any order, and the network layer still receives all of the batch's packets, once each, in sequence order.
- **`as_written.dfy` (module `AsWritten`)** models three parts of the code as it stands, where every result of `inc` is dropped, and exhibits what goes wrong (see "Findings"):
  - the NETWORK_LAYER_READY handler;
  - the receiver half of FRAME_ARRIVAL: the store and the drain loop;
  - the rounds of the ack sweep loop.

  The rest of FRAME_ARRIVAL and the CKSUM_ERR, TIMEOUT and ACK_TIMEOUT handlers contain no `inc` statement, so they are written once, in `Protocol`.

Each of the four `inc(x);` statements at src/SWP.java:165, 199, 200 and 215 computes the successor and throws it away. The comments next to them say "advance upper window edge" and "Advance lower edge". Modules `Protocol` and `Engine` assign the result (`x := Inc(x)`), as those comments intend.

## Model

| member | source | states |
|---|---|---|
| SeqArith.JavaRem | src/SWP.java:252 | Java's `%`: for a non-negative dividend it is the Euclidean remainder in `[0, m)`; for a negative one it lies in `(-m, 0]` |
| SeqArith.Dist | src/SWP.java:97-102 | the number of forward steps between two ring values is in `[0, 8)`, and is `b - a` or `b - a + 8` |
| SeqArith.Between | src/SWP.java:97-102 | for ring values, `between(a, b, c)` holds iff `b` is fewer steps from `a` than `c` is, i.e. `b` is in the circular interval `[a, c)`; `between(a, b, a)` is false for every `b` |
| SeqArith.Inc | src/SWP.java:249-255 | `inc` maps the ring to itself one step forward: `inc(7) == 0`, and `inc(n) == n + 1` below 7 |
| SeqArith.IncIterMod | src/SWP.java:249-255 | applying `inc` k times from a ring value gives `(n + k) mod 8` |
| SeqArith.IncFullCircle | src/SWP.java:249-255 | applying `inc` MAX_SEQ + 1 times returns the starting value |
| SeqArith.JavaSlot | src/SWP.java:112 | Java's `n % NR_BUFS` is a valid index exactly when `n` is non-negative or a multiple of NR_BUFS, and then it is the slot `n mod NR_BUFS` |
| SeqArith.SlotInjective | src/SWP.java:22-23 | two sequence numbers inside one window of NR_BUFS never share a buffer slot `n % NR_BUFS` |
| SeqArith.SlotOffsetIsDist | src/SWP.java:188 | inside a window of NR_BUFS from `start`, a number's slot is as many slots after `start`'s as the number is steps after `start` |
| Frames.AckFor | src/SWP.java:115 | the piggybacked ack `(frame_expected + MAX_SEQ) % (MAX_SEQ + 1)` is on the ring and is the predecessor of `frame_expected` |
| Frames.MakeFrame | src/SWP.java:104-127 | `send_frame`'s frame has the given kind and sequence number and the ack before `frame_expected`; it carries a payload iff it is DATA, and that payload is `buffer[frame_number % NR_BUFS]`. A DATA frame's number must be one Java's `%` can index with |
| Frames.NakNamesFrameExpected | src/SWP.java:209 | the peer's `(ack + 1) % (MAX_SEQ + 1)` applied to a NAK recovers the NAK sender's `frame_expected` |
| Protocol.Init | src/SWP.java:139-154 | the start state satisfies the invariant: an empty sender window, NR_BUFS credit, receiver window `[0, NR_BUFS)`, `no_nak` set and no slot full |
| Protocol.OnReady | src/SWP.java:161-167 | NETWORK_LAYER_READY stores the packet in the slot of `next_frame_to_send` and sends exactly one DATA frame with that number and packet. The sender window grows by one, the other slots and the receiver are untouched, and nothing is delivered |
| Protocol.SweepTarget | src/SWP.java:213-217 | the ack sweep stops one past `ack` when `ack` is in `[ack_expected, next_frame_to_send)` and otherwise does not move. It never passes `next_frame_to_send`, and afterwards `ack` is outside the window |
| Protocol.OnTimeout | src/SWP.java:228-231 | TIMEOUT records the event's number as `oldest_frame` and sends exactly one DATA frame with that number and its buffered packet; nothing else changes. The number must be one Java's `%` can index with |
| Protocol.RunLength | src/SWP.java:194 | the drain loop's number of rounds: every slot of the first k numbers from `frame_expected` is full, and the next one is empty (or all NR_BUFS were full) |
| Protocol.Drained | src/SWP.java:194-202 | the drain hands up the buffered packets of `frame_expected`, `frame_expected + 1`, … in order, and each packet is the one buffered in its number's slot. It ends on an empty slot, moves both receiver edges past the run, keeps the invariant (so `too_far == frame_expected + NR_BUFS mod 8`), only clears flags, and re-arms `no_nak` iff something was delivered |
| Protocol.DrainKeepsInv | src/SWP.java:194-202 | the state after the drain keeps the receiver invariant: every full slot holds the frame of the advanced window that maps to it |
| Protocol.DrainEdges | src/SWP.java:149 | advancing both receiver edges by the same number of steps keeps `too_far == frame_expected + NR_BUFS mod 8` |
| Protocol.RunSeqs | src/SWP.java:194-202 | the frames drained carry consecutive sequence numbers starting at `frame_expected` |
| Protocol.Store | src/SWP.java:188-192 | an accepted frame sets its slot's flag and puts its payload in that slot; every other slot and both edges stay as they were; the invariant is kept |
| Protocol.StoreKeepsSlots | src/SWP.java:188-192 | filling the empty slot of an in-window number keeps every full slot holding an in-window frame of its own slot |
| Protocol.Accepts | src/SWP.java:188 | a frame is stored iff it is DATA, lies fewer than NR_BUFS steps ahead of `frame_expected` (`between(frame_expected, seq, too_far)` under the invariant), and its slot is empty |
| Protocol.NakDue | src/SWP.java:178 | a NAK is due iff a DATA frame arrives any number of steps other than zero ahead of `frame_expected`, in the window or beyond it, while `no_nak` holds |
| Protocol.Receive | src/SWP.java:172-206 | the receiver half of FRAME_ARRIVAL keeps the invariant and delivers consecutive numbers from `frame_expected`; afterwards `no_nak` holds iff something was delivered or it held and no NAK was due. A non-DATA frame changes nothing; a refused DATA frame delivers nothing and changes only `no_nak` |
| Protocol.Missing | src/SWP.java:209 | the frame a NAK asks for, `(r.ack + 1) % (MAX_SEQ + 1)`, is `inc(r.ack)` and on the ring |
| Protocol.NakReply | src/SWP.java:178-182 | a frame arrival sends one NAK, without payload, iff the frame is DATA, is not the expected one and `no_nak` holds; otherwise none |
| Protocol.Resend | src/SWP.java:209-210 | a NAK arrival sends again exactly one DATA frame iff the frame after its ack is in the sender window, with that number and its buffered packet; otherwise nothing |
| Protocol.OnArrival | src/SWP.java:169-218 | FRAME_ARRIVAL keeps the invariant, leaves the upper sender edge and the outbound buffer alone, sets `ack_expected` to the sweep target, and delivers consecutive numbers from `frame_expected`; a frame other than a NAK draws no DATA frame |
| Protocol.OnCksumErr | src/SWP.java:220-226 | CKSUM_ERR sends one NAK iff `no_nak` holds, then `no_nak` is false; nothing else changes |
| Protocol.OnAckTimeout | src/SWP.java:233-237 | ACK_TIMEOUT sends exactly one ACK, with no payload and the ack before `frame_expected`, and changes no state |
| Protocol.Step | src/SWP.java:157-243 | every event the environment can produce keeps the invariant, and what it delivers continues the sequence numbers from `frame_expected` |
| Properties.AppendInOrder | src/SWP.java:194-202 | a batch that continues the delivery history's numbering keeps the whole history in order 0, 1, 2, … mod 8 |
| Properties.NakGuard | src/SWP.java:178-179 | a frame arrival emits a NAK iff a DATA frame other than the expected one arrives while `no_nak` holds, and every NAK names `frame_expected` (its ack is the one before) and carries no payload |
| Properties.NoSecondNak | src/SWP.java:220-224 | once `no_nak` is false, neither a frame arrival nor a checksum error emits a NAK, and `no_nak` becomes true again exactly when a packet is delivered |
| Properties.NakRoundTrip | src/SWP.java:209-210 | a NAK built by the peer for a frame still in this sender's window makes this engine send exactly that DATA frame with its buffered packet, and nothing else |
| Properties.DuplicateRejected | src/SWP.java:188-192 | after a frame arrives, the same frame is no longer accepted, and a second copy delivers nothing: storing is idempotent |
| Properties.AcceptedNotLost | src/SWP.java:188-202 | an accepted frame is never lost: its packet is either handed up at its position `Dist(frame_expected, seq)` in the delivered run, or stays buffered in its slot with the flag set |
| Properties.ExpectedDelivered | src/SWP.java:188-196 | the expected frame arriving into its empty slot is handed to the network layer first |
| Properties.GapHoldsBack | src/SWP.java:188-194 | while the expected frame's slot is empty, any other frame arrival delivers nothing and leaves `frame_expected` in place |
| Properties.ConsecutiveReadies | src/SWP.java:161-167 | two packets from the network layer go out under consecutive, distinct sequence numbers, the second does not overwrite the first's slot, and the sender window grows by two |
| Properties.ConcatConsecutive | src/SWP.java:194-202 | two runs of consecutive numbers, the second starting where the first ends, form one run |
| Properties.ThenConsecutive | src/SWP.java:156-244 | two steps whose deliveries each continue the numbering together continue it |
| Properties.Run | src/SWP.java:156-244 | any sequence of events keeps the invariant and delivers consecutive sequence numbers from the start `frame_expected` |
| Properties.DeliveredInOrder | src/SWP.java:156-244 | from start-up, under any events, the network layer receives the packets of frames 0, 1, 2, … mod 8 in order, and `frame_expected` is the count delivered mod 8 |
| Properties.InOrderPairDelivered | src/SWP.java:188-202 | frames 0 and 1 arriving in order at a fresh engine are each delivered on arrival, `frame_expected` becomes 2, and a second copy of frame 0 delivers nothing |
| Reassembly.BatchDelivered | src/SWP.java:172-206 | from a receiver with no frame buffered, the frames `frame_expected` … `frame_expected + k - 1` (k ≤ NR_BUFS) arriving once each in any order hand up exactly their k packets, in sequence order |
| Reassembly.BatchSuffix | src/SWP.java:172-206 | from any point of such a batch, the remaining arrivals hand up exactly the packets not yet handed up, in order |
| Reassembly.ReceiveStep | src/SWP.java:172-206 | one arrival of a not-yet-arrived frame of the batch hands up the next packets of the batch, those whose frames are now all present, and keeps the receiver holding the rest |
| Reassembly.StoreView | src/SWP.java:188-192 | a frame of the batch that has not arrived is accepted and stored, and the slots then hold exactly the arrived, not yet handed up packets |
| Reassembly.RunOfView | src/SWP.java:194 | the drain loop runs over exactly the consecutive arrived frames from `frame_expected`, and stops at the first missing one |
| Reassembly.DrainedView | src/SWP.java:194-202 | the drain hands up those packets in order and leaves the slots holding exactly the arrived frames past them |
| Reassembly.DrainedPackets | src/SWP.java:194-196 | the drain's packets are the batch's packets at the offsets it passes, in order |
| Reassembly.DrainedPacketAt | src/SWP.java:196 | the j-th packet handed up is the batch's packet j offsets after the current `frame_expected` |
| Reassembly.OffsetShift | src/SWP.java:199-200 | after both receiver edges advance m steps, every slot is m slots nearer, round the NR_BUFS slots |
| Reassembly.RunSlotOffset | src/SWP.java:194 | the slot the drain tests j rounds after `fe0 + m` is m + j slots after `fe0`'s, round the slots |
| Engine.SlidingWindow.constructor | src/SWP.java:139-154 | `init()` and the set-up loops give the specification's start state, with empty histories |
| Engine.SlidingWindow.SendFrame | src/SWP.java:104-127 | `send_frame` appends exactly `MakeFrame(...)` to the frames sent, and clears `no_nak` iff the kind is NAK |
| Engine.SlidingWindow.NetworkLayerReady | src/SWP.java:161-167 | the handler's new state and sent frame are those of `OnReady`; nothing is delivered; the invariant is kept |
| Engine.SlidingWindow.ReceiveData | src/SWP.java:172-206 | the DATA half of FRAME_ARRIVAL changes the receiver variables as `Receive` does, sends the NAK of `NakReply`, and appends `Receive`'s packets to the delivery history |
| Engine.SlidingWindow.NakCheck | src/SWP.java:178-182 | the NAK decision clears `no_nak` iff a NAK is due, and sends exactly the NAK of `NakReply` |
| Engine.SlidingWindow.StoreAndDrain | src/SWP.java:188-204 | an accepted frame is stored and the run drained as `Store` and `Drained` say; anything else changes nothing |
| Engine.SlidingWindow.Drain | src/SWP.java:194-202 | the drain leaves the receiver variables as `Drained` does and appends its packets, in order, to the delivery history |
| Engine.SlidingWindow.AckSweep | src/SWP.java:213-217 | the sweep loop terminates with `ack_expected == SweepTarget(...)` |
| Engine.SlidingWindow.FrameArrival | src/SWP.java:169-218 | the handler keeps the invariant (so all deliveries stay in order); receiver as `Receive`, sender only `ack_expected` moved to the sweep target; frames sent are the NAK of `NakReply` then the resend of `Resend` |
| Engine.SlidingWindow.ResendAndSweep | src/SWP.java:209-217 | the selective resend sends exactly `Resend`'s frame, and the sweep moves only `ack_expected`, to `SweepTarget` |
| Engine.SlidingWindow.CksumErr | src/SWP.java:220-226 | the handler's new state and frames are those of `OnCksumErr`; the invariant is kept |
| Engine.SlidingWindow.Timeout | src/SWP.java:228-231 | the handler's new state and frames are those of `OnTimeout`; the invariant is kept |
| Engine.SlidingWindow.AckTimeout | src/SWP.java:233-237 | the handler's new state and frames are those of `OnAckTimeout`; the invariant is kept |
| Engine.SlidingWindow.Handle | src/SWP.java:157-243 | one pass of the event loop does what `Step` says, on state and on both histories, and keeps the invariant |
| Engine.DrainLoop | src/SWP.java:194-202 | the drain loop terminates, and its arrays and variables end as `Drained` says, having handed up `Drained`'s packets in order |
| Engine.DrainGuard | src/SWP.java:194 | after j rounds the loop guard `arrived[frame_expected % NR_BUFS]` holds iff j is below the run length |
| Engine.DrainRound | src/SWP.java:196-200 | one round of the loop body is one more step of the run: a slot cleared, a packet handed up, both edges advanced by `inc` |
| Engine.ClearStep | src/SWP.java:198 | emptying the current slot is one more round of `ClearRun` |
| Engine.SweepGuard | src/SWP.java:213 | after d rounds the sweep guard holds iff `ack` is in the original window and not yet passed, and then the window is not yet empty |
| AsWritten.IncDropped | src/SWP.java:165 | the statement `inc(x);` leaves `x` as it was, which is never its successor |
| AsWritten.ReadyAsWritten | src/SWP.java:161-167 | as written, NETWORK_LAYER_READY sends the packet but leaves `next_frame_to_send` where it was |
| AsWritten.ReadyTwiceReusesSequenceNumber | src/SWP.java:165 | as written, two packets go out under one sequence number, and a timeout for it resends the second packet: the first is lost |
| AsWritten.DrainedAsWritten | src/SWP.java:194-202 | as written, the drain hands up at most one packet and moves neither receiver edge |
| AsWritten.ReceiveAsWritten | src/SWP.java:172-206 | as written, a frame arrival never moves `frame_expected` and delivers at most one packet |
| AsWritten.InOrderPairStranded | src/SWP.java:199-200 | as written, after frames 0 and 1 arrive in order, packet 1 stays buffered, a retransmitted frame 1 is refused, and a second copy of frame 0 is delivered again |
| AsWritten.SweepRoundsAsWritten | src/SWP.java:213-216 | as written, any number of rounds of the sweep body leaves `ack_expected` where it was |
| AsWritten.SweepAsWrittenNeverExits | src/SWP.java:215 | as written, once `ack` is in the sender window, `ack_expected` never moves and the sweep guard stays true after any number of rounds |

## Left out

- The SWE simulator calls (src/SWP.java:53-84) are not modelled as calls.
  - `wait_for_event`, `from_network_layer`, `from_physical_layer`, `to_network_layer`, `to_physical_layer` and `grant_credit` are foreign, blocking I/O.
  - The event, the fetched packet and the arriving frame are parameters (`Event`, `Handle`).
  - What the engine emits is recorded in the histories `sent` and `delivered`.
- `wait_for_event` stores the event's sequence number in `oldest_frame` on every event (src/SWP.java:55). Only TIMEOUT reads it, so the model sets it in the TIMEOUT handler alone, from the event.
- The timer calls are left out. `start_timer`, `stop_timer`, `start_ack_timer` and `stop_ack_timer` (src/SWP.java:263-277) have empty bodies.
  - The code passes timers the slot `frame_number % NR_BUFS` (src/SWP.java:123) and `ack_expected % NR_BUFS` (src/SWP.java:214).
  - The note at src/SWP.java:258-261 says they must be given the sequence number. With empty timers this has no effect, and the model has no timers.
- Logging is left out: the `System.out.println` output (src/SWP.java:72-74) and the `default` branch's diagnostic (src/SWP.java:240-242).
- The infinite `while (true)` loop (src/SWP.java:156) is modelled as single steps.
  - One pass is `Handle` / `Step`.
  - Finite sequences of events are `Properties.Run`. It stops at the first event the environment could not produce in that state: no credit for NETWORK_LAYER_READY, a malformed frame, or a timed-out number that Java's `%` cannot index with.
- Credit is granted once, at start-up (src/SWP.java:143), and never again. The model follows the code: `credit` is a ghost field, and NETWORK_LAYER_READY requires it to be positive, which is what the simulator's credit promises. The usual description of the protocol re-grants credit as acknowledgements free buffers; this code does not.
- Arriving frames are assumed well formed. Sequence number and ack are in `0..7`, and a payload is present iff the kind is DATA (`Frames.WellFormed`). These are the frames a peer's `send_frame` builds from ring values.
- A DATA frame's number given to `send_frame`, and the TIMEOUT event's number, are required to be non-negative or a multiple of NR_BUFS (`SeqArith.SlotIndexable`). Any other negative number makes `frame_number % NR_BUFS` (src/SWP.java:112) negative and the array access throws, which the code does not handle.
- `Packet`, `PFrame` and `PEvent` are not part of this model beyond the fields the engine reads.
  - A packet is a string, and a fresh `new Packet()` is the empty string.
  - `from_network_layer` filling the buffer slot's object in place is modelled as storing the fetched packet value in the slot.
  - A non-DATA frame's `info` is absent.
- `Properties.Run` and `Engine.SlidingWindow.Handle` model one station. The peer station is not modelled, apart from the frames it builds with `send_frame` (`Properties.NakRoundTrip`).

## Findings

| source | as written | input that shows it | evidently intended | confidence | as-written member | corrected member |
|---|---|---|---|---|---|---|
| src/SWP.java:165 | `inc (next_frame_to_send);` drops the successor, so the upper sender edge never advances | two NETWORK_LAYER_READY events from the start state: both packets go out as frame 0, the second overwrites slot 0, and a timeout for frame 0 resends only the second | `next_frame_to_send = inc(next_frame_to_send);` as the comment "advance upper window edge" says | high (not executed) | AsWritten.ReadyTwiceReusesSequenceNumber | Properties.ConsecutiveReadies |
| src/SWP.java:199-200 | `inc(frame_expected); inc(too_far);` drop the successors, so the receiver window never moves | DATA frames 0 then 1 (ack 7) at a fresh engine: packet 0 is delivered, packet 1 stays buffered forever, a retransmitted frame 1 is refused, and a new copy of frame 0 is delivered again | `frame_expected = inc(frame_expected); too_far = inc(too_far);` as the comment "Advance lower edge" says | high (not executed) | AsWritten.InOrderPairStranded | Properties.InOrderPairDelivered |
| src/SWP.java:215 | `inc(ack_expected);` drops the successor, so the ack sweep never leaves its loop once the guard holds | `ack_expected = 0`, `next_frame_to_send = 1` (reachable once line 165 is corrected), arriving frame with `ack = 0` | `ack_expected = inc(ack_expected);` as the comment "advance the lower edge" says | high (not executed) | AsWritten.SweepAsWrittenNeverExits | Engine.SlidingWindow.AckSweep |
