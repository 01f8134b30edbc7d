# mlink: verified model of the session layer and the daemon's delivery protocol

mlink connects two devices over up to four physical links at once and hands the application
one stream of messages. This project models the parts where that can go wrong and proves what
they guarantee, for every input and every run:

- **Numbers on the wire** (`Words`, `Bits`, `Sequence`). Messages are numbered without bound, the
  wire carries 32 bits of the number, and the receiver keeps 128 flags. The wrapped machine is
  proved to answer like a machine that remembers every number it ever saw.
- **The sender's ring** (`AckRing`) and **the ACK policy** (`AckPolicy`).
- **The session** (`SessionLayer`): sending with one failover, receiving from all links.
- **Links and the link table** (`LinkHealth`, `Manager`).
- **Codecs** (`Frames`) and **streams** (`Streams`).
- **The daemon**: backlog and fan-out (`Backlog`, `Fanout`), the connect loop (`ConnectLoop`), and
  the reconnect policy (`Reconnect`).

## How to read it

What the source changes in place is a class here, with methods that follow the source's branches;
each method is tied by its `ensures` to a reference (an unbounded history, a ledger, a state
function), and the theorems about whole runs are lemmas about that reference. Ghost fields hold the
unbounded numbers behind the words. The outside world is in the parameters: whether a write or a
dial succeeds, what arrives, and what the clock reads (natural numbers of milliseconds). Where a
method reads the clock several times in a row, one reading stands for them; `send` has two, one
before each write. Words are integers with their range in the type, and shifts, masks and wrapping
are written out.

Each session or manager method is one step. In the daemon a step is one critical section; the
worker's section is split further, into one step per push and one per client offered, because a
`leave` takes only the client's own lock and can fall in between.

`dafny verify dfyconfig.toml` checks everything.

## Where the code and its own documentation differ

The model follows the code; each difference is a lemma.

- The ACK frame built by the receiver carries its largest number and flags counting *down*, while
  the sender reads the flags counting *up*. Based there, a frame is truthful in the sender's sense
  exactly if nothing below is missing and no flag is set (`AckRing.TruthfulAtLargest`); the
  receiver's always sets flag 0, so it never is (`AckRing.WindowFrameIsNeverTruthful`), while for
  the same receiver a frame that counts up from its first gap always is
  (`AckRing.ForwardFrameIsTruthful`). `AckRing.WindowFrameDrops` says exactly which unreceived
  frames the receiver's frame makes the sender forget. The safety results for ACKs are therefore
  about frames that are truthful in the convention of `ack.rs`.
- The header of `reader.rs` says messages start with a 4-byte number; `send` writes none
  (`SessionLayer.SendOmitsTheWord`). Receiver theorems are about messages in the documented layout.
- `flush_unacked_over` is described as resending the whole ring; what it sets out to resend is the
  whole ring exactly while no pending word is in the upper half of the number space
  (`AckRing.ReplayIsComplete`), and it stops at the first write that fails.
- A message delivered live stays queued, so a session that joins a room a second time can be sent
  the end of its stream again. Whether or not it left in between, it is sent something again exactly
  if a message it was offered was pushed since the queue was last drained or removed and is among
  the last 500 pushes; then the repeated entries come first and the rest is new
  (`Fanout.SecondJoinRepeats`). For a session that never left, that means exactly if the queue is
  not empty, and then all it drains is repeated (`Fanout.RejoinRepeats`). `Fanout.RejoinSendsTwice`
  is a run in which it happens.
- After a lag, the connect loop drops its wire map but not `engaged`; a wire engaged at that moment
  is not dialled again until it connects inwards (`ConnectLoop.LagStrandsEngaged`), and the books
  stay sound exactly if nothing was engaged (`ConnectLoop.LagIsSoundIffIdle`).
- The announced number of stream chunks is right exactly within the bounds of
  `Streams.AnnouncedCountIsRight`.

## Model

| member | source | states |
|---|---|---|
| `Words.NearestIsInverse` | crates/mlink-core/src/protocol/seq.rs:71-88 | a word read next to a reference gives back the number it carries if and only if that number is within half the number space of the reference |
| `Words.SerialOrder` | crates/mlink-core/src/protocol/ack.rs:37-41 | the wrapping comparison of words is the order of the numbers, for numbers within half the space of each other |
| `Words.SerialOrderBreaksAtHalf` | crates/mlink-core/src/protocol/ack.rs:37-41 | at distance exactly 2^31 the comparison is wrong, so the bound is tight |
| `Sequence.SeqGen.Next` | crates/mlink-core/src/protocol/seq.rs:18-22 | hands out the words of 0, 1, 2, ... across every wrap of the counter |
| `Sequence.StampsCollide` | crates/mlink-core/src/protocol/seq.rs:6-7 | two messages share a word exactly when whole wraps lie between them, and never within 2^32 of each other |
| `Sequence.DedupWindow.Observe` | crates/mlink-core/src/protocol/seq.rs:63-99 | after any history, with any number of wraps and jumps, the two words answer as a machine that remembers every number: stale exactly if 128 or more below the largest, duplicate exactly if observed and not stale, accept otherwise; the flags stay an exact record of the last 128 |
| `Sequence.DedupWindow.Snapshot` | crates/mlink-core/src/protocol/seq.rs:103-109 | the snapshot is the largest number ever observed, and flag i says whether the number i below it was |
| `Sequence.Advance` | crates/mlink-core/src/protocol/seq.rs:71-81 | shifting the u128 moves every flag to its new distance, drops those pushed out of the window, and a jump of 128 or more clears all but the newcomer |
| `Sequence.LookBack` | crates/mlink-core/src/protocol/seq.rs:83-98 | the mask test finds a number exactly if it was observed, and or-ing the mask records exactly that number |
| `Sequence.JumpOfHalfSpaceIsLost` | crates/mlink-core/src/protocol/seq.rs:71-91 | a new message 2^31 or more ahead of the largest number, up to 128 short of a whole wrap, has the word of a stale one that lies within half the space |
| `Sequence.ReplayOfHalfSpaceIsAccepted` | crates/mlink-core/src/protocol/seq.rs:71-81 | a stale message more than 2^31 behind the largest number, up to a whole wrap, has the word of a new one that lies within half the space |
| `Sequence.ObserveBeyondLimit` | crates/mlink-core/src/protocol/seq.rs:63-99 | on such words the window itself errs: it drops the new message as stale and accepts the stale one as new |
| `Sequence.AtMostOnce` | crates/mlink-core/src/core/session/reader.rs:208-228 | no two accepted arrivals of a run carry the same message, whatever is duplicated, reordered or replayed |
| `Sequence.FateOfMessage` | crates/mlink-core/src/protocol/seq.rs:71-98 | a message is delivered at all if and only if its first copy came in time, and then only at that copy |
| `Sequence.ExactlyOnce` | crates/mlink-core/src/protocol/seq.rs:71-98 | every message of a run is delivered exactly once, at its first copy, if and only if the reordering is bounded by the window |
| `Sequence.DeliveriesDistinct` | crates/mlink-core/src/core/session/reader.rs:208-228 | the stream of accepted numbers of any run has no repeats |
| `AckRing.UnackedRing.Push` | crates/mlink-core/src/protocol/ack.rs:62-70 | files the frame last under its number, leaving the others as they were; at 256 entries the oldest, and only it, is evicted and returned |
| `AckRing.UnackedRing.AckCum` | crates/mlink-core/src/protocol/ack.rs:73-75 | keeps, in order, exactly the entries not at or before the acknowledged word |
| `AckRing.UnackedRing.Sack` | crates/mlink-core/src/protocol/ack.rs:79-91 | keeps, in order, exactly the entries whose flag 1..128 ahead of the base is clear |
| `AckRing.UnackedRing.UnackedSince` | crates/mlink-core/src/protocol/ack.rs:94-100 | returns, in order, exactly the entries at or after the given word |
| `AckRing.RingAcrossWrap` | crates/mlink-core/src/protocol/ack.rs:39-100 | across any wrap, with live numbers within half the space of the argument, the three word filters are the plain filters on unbounded numbers, order kept |
| `AckRing.TwoPassesAreOne` | crates/mlink-core/src/core/session/io.rs:71-75 | the cumulative and selective passes together drop exactly the entries the frame covers |
| `AckRing.ReplayIsComplete` | crates/mlink-core/src/core/session/io.rs:77-89 | the entries at or after word 0 are the whole ring if and only if no pending word is 2^31 or more |
| `AckRing.AckIsSafe` | crates/mlink-core/src/core/session/io.rs:71-75 | an ACK that is truthful about what was sent drops an entry exactly if it acknowledges it, and then the peer has it |
| `AckRing.AcksInAnyOrder` | crates/mlink-core/src/core/session/io.rs:71-75 | lists of ACK frames with the same frames, in any order and with any repeats, leave the same ring |
| `AckRing.TruthfulAtLargest` | crates/mlink-core/src/protocol/ack.rs:72-91 | a frame based at the largest number received is truthful to the sender's reading if and only if nothing below is missing and it sets no flag |
| `AckRing.WindowFrameIsNeverTruthful` | crates/mlink-core/src/core/session/reader.rs:87-91 | the receiver's frame sets flag 0, which the sender reads as the number after the largest received, so no such frame is truthful |
| `AckRing.ForwardFrameIsTruthful` | crates/mlink-core/src/protocol/ack.rs:72-91 | for every nonempty history there is a frame that is truthful to the sender's reading and acknowledges exactly what was received up to 128 past its base, and no truthful frame has a larger base |
| `AckRing.WindowFrameDrops` | crates/mlink-core/src/core/session/reader.rs:87-91 | exactly which pending frames such a frame drops although the peer never got them |
| `AckRing.Conservation` | crates/mlink-core/src/core/session/io.rs:21-75 | after any run of sends and ACKs each confirmed number is in exactly one of ring, acknowledged, evicted; the ring is strictly increasing and at most 256; evictions are in order and below all that is pending |
| `AckRing.RingHoldsWhatWasSent` | crates/mlink-core/src/core/session/io.rs:21-75 | after any run every pending entry is the frame of the very send that took its number |
| `AckRing.NothingForgotten` | crates/mlink-core/src/core/session/io.rs:21-75 | if each ACK of a run was truthful about the numbers sent successfully by then, every confirmed number is received, still pending, or evicted |
| `Frames.EncodeFrame` | crates/mlink-core/src/protocol/frame.rs:4-14 | the eight header bytes field by field, high bytes first, and the payload |
| `Frames.DecodeOfEncoded` | crates/mlink-core/src/protocol/frame.rs:16-64 | what is read of any encoded frame, with any bytes after it: the canonical header and the payload up to its 16-bit length |
| `Frames.PayloadSurvives` | crates/mlink-core/src/protocol/frame.rs:4-64 | a payload survives encoding and decoding if and only if it has at most 65535 bytes, and then the whole frame does |
| `Frames.EncodedOfDecode` | crates/mlink-core/src/protocol/frame.rs:16-64 | whatever decodes re-encodes to a prefix of the buffer |
| `Frames.DecodesIffEncoding` | crates/mlink-core/src/protocol/frame.rs:16-64 | a buffer is accepted if and only if it begins with the encoding of some frame that fits |
| `Frames.FlagsRoundTrip` | crates/mlink-core/src/protocol/types.rs:107-132 | every combination of compressed, encrypted and message type survives the flag byte |
| `Frames.FlagsLayout` | crates/mlink-core/src/protocol/types.rs:107-132 | the two flags are the top bits of the byte and the type code its low six |
| `Frames.FlagsCanonical` | crates/mlink-core/src/protocol/types.rs:107-132 | decoding and re-encoding a flag byte gives it back if and only if its type bits are known |
| `Frames.CodesFit` | crates/mlink-core/src/protocol/types.rs:44-74 | each message type is found again from its code, and all but Error fit the six type bits |
| `Frames.AckLayout` | crates/mlink-core/src/protocol/ack.rs:15-20 | twenty bytes, the acknowledged word first, high byte first |
| `Frames.AckRoundTrip` | crates/mlink-core/src/protocol/ack.rs:15-35 | an ACK of a u32 and a u128 survives its 20 bytes, whatever follows them |
| `Frames.AckFrameRecognised` | crates/mlink-core/src/core/session/reader.rs:246-257 | an ACK wrapped in a frame is recognised as an ACK and read back whole |
| `SessionLayer.PayloadRecovered` | crates/mlink-core/src/core/session/io.rs:29-52 | a peer that can undo the compression and the encryption recovers the original payload from what `send` wrote, by the flags and the low 16 bits of the number; the flags say truly which were applied |
| `SessionLayer.ErrorsOfPreparing` | crates/mlink-core/src/core/session/io.rs:31-45 | which failure gives which error: compression first, then encryption, then the length |
| `SessionLayer.PreparedReadsBack` | crates/mlink-core/src/core/session/io.rs:28-52 | the bytes `send` writes decode to the message type and flags asked for, the low 16 bits of the number, and the processed body |
| `SessionLayer.EncodeAckFrame` | crates/mlink-core/src/core/session/reader.rs:246-257 | the peer classifies the bytes as exactly this ACK |
| `SessionLayer.ClassifiedByFrame` | crates/mlink-core/src/core/session/reader.rs:172-206 | a buffer counts as a numbered message if and only if it decodes to type Message with four payload bytes or more, which are the number, high byte first, and as an ACK if and only if it decodes to type Ack with twenty or more |
| `SessionLayer.NumberedReadsBack` | crates/mlink-core/src/core/session/reader.rs:196-206 | a message in the documented layout is read as its word and its body |
| `SessionLayer.SendOmitsTheWord` | crates/mlink-core/src/core/session/io.rs:45-52 | whatever its flags, a message written by `send` is read with the first four bytes of its body as the number, and dropped if there are fewer |
| `SessionLayer.Session.LinkById` | crates/mlink-core/src/core/session/io.rs:186-189 | finds the first link of that id, or there is none |
| `SessionLayer.Session.BestExcluding` | crates/mlink-core/src/core/session/io.rs:159-166 | a healthy link of maximal score other than the excluded one, the last of equals; none only if no such link exists |
| `SessionLayer.BestMeans` | crates/mlink-core/src/core/session/io.rs:159-166 | best of the ranks is a healthy link not excluded, with no greater score among those, and the last of equals |
| `SessionLayer.ChosenMeans` | crates/mlink-core/src/core/session/io.rs:168-184 | the link chosen is healthy, is the active one if that is healthy, and otherwise no healthy link scores higher |
| `SessionLayer.Session.PromoteOnFailure` | crates/mlink-core/src/core/session/io.rs:126-144 | makes the best other link active, or changes nothing if there is none |
| `SessionLayer.Session.CurrentOrPick` | crates/mlink-core/src/core/session/io.rs:168-184 | the active link while healthy, otherwise the best; it becomes active only if none was set |
| `SessionLayer.Session.SwitchActive` | crates/mlink-core/src/core/node/lifecycle.rs:136-157 | succeeds exactly for an attached link, which is then active |
| `SessionLayer.Session.Transmit` | crates/mlink-core/src/core/session/io.rs:54-65 | at most two writes of the same bytes, on distinct links; the second only after a failure, on the best of the others, which is then active; no other link is touched |
| `SessionLayer.Session.Send` | crates/mlink-core/src/core/session/io.rs:21-68 | every outcome takes exactly one number; Ok exactly if the last link tried took the frame, and then the frame is pending under its number; Err leaves the ring as it was; framing errors touch no link |
| `SessionLayer.Session.RecordUnacked` | crates/mlink-core/src/core/session/io.rs:191-202 | the frame written is the last of the ring, under the number it took, and the books stay balanced |
| `SessionLayer.Session.OnAck` | crates/mlink-core/src/core/session/io.rs:71-75 | the ring loses exactly what the frame covers, and the ledger moves it to acknowledged |
| `SessionLayer.Session.FlushUnackedOver` | crates/mlink-core/src/core/session/io.rs:78-89 | writes the frames at or after word 0, in order and unchanged, up to the first failure; every other link is left alone |
| `SessionLayer.Session.FlushAckNow` | crates/mlink-core/src/core/session/reader.rs:74-106 | if anything is pending, one frame goes to the active link only, and the peer reads it as the two words of the window; a failed write leaves one message pending |
| `SessionLayer.Session.ConsumeMessage` | crates/mlink-core/src/core/session/reader.rs:196-230 | hands the message on exactly if the reference machine accepts its number, and only then counts it for the ACK; exactly at the eighth one ACK with the window goes out, on the active link |
| `SessionLayer.Session.HandleBytes` | crates/mlink-core/src/core/session/reader.rs:172-194 | only a numbered message reaches the window, only an ACK reaches the ring; malformed, short and other frames change nothing; an ACK is written exactly if this was the eighth message |
| `SessionLayer.Session.MaybeFlushAck` | crates/mlink-core/src/core/session/reader.rs:117-125 | an ACK with the window goes out, on the active link, exactly if the first message waiting has waited 50 ms |
| `SessionLayer.Session.LinkReadFailed` | crates/mlink-core/src/core/session/reader.rs:153-166 | charges the error to that link and no other, and ends the session exactly if it was the last |
| `SessionLayer.Session.TakeTurn` | crates/mlink-core/src/core/session/reader.rs:48-68 | one turn: the pending count follows the ACK policy, each flush it asks for writes one ACK with the window of that moment on the active link and nothing else is written, the history grows by the message's number, and a message comes out exactly if accepted |
| `SessionLayer.Session.Recv` | crates/mlink-core/src/core/session/reader.rs:46-70 | over any turns, the application gets exactly the next number the reference machine delivers, with the body that carried it, and loses none it skipped over |
| `SessionLayer.SessionDeliversOnce` | crates/mlink-core/src/core/session/reader.rs:172-230 | over a whole session on any links no message is delivered twice, only messages that arrived are, and all of them are exactly if the reordering was bounded |
| `AckPolicy.Coalescing` | crates/mlink-core/src/core/session/reader.rs:74-106 | after every step at most 7 messages are pending, a deadline is set exactly while some are, and at most 8 are accepted between two flush attempts, failed ones included |
| `AckPolicy.TickMeetsDeadline` | crates/mlink-core/src/core/session/reader.rs:233-243 | a turn of the loop leaves nothing pending past 50 ms |
| `AckPolicy.TickWaitsForDeadline` | crates/mlink-core/src/core/session/reader.rs:233-243 | the clock flushes nothing before the deadline |
| `AckPolicy.FirstSetsDeadline` | crates/mlink-core/src/core/session/reader.rs:214-222 | the deadline is fixed by the first message waiting; later ones do not move it |
| `AckPolicy.EveryEighth` | crates/mlink-core/src/core/session/reader.rs:214-226 | with working writes and no timer, ACKs go out after exactly every eighth message |
| `LinkHealth.Link.RecordRtt` | crates/mlink-core/src/core/link.rs:87-93 | updates both averages and the time of the last success, and nothing else |
| `LinkHealth.Link.Send` | crates/mlink-core/src/core/link.rs:134-140 | one write, logged with its outcome, counted as a success or an error accordingly |
| `LinkHealth.ErrorRateCeiling` | crates/mlink-core/src/core/link.rs:162-165 | the reachable error rate never exceeds 993 per mille |
| `LinkHealth.ErrorRateMoves` | crates/mlink-core/src/core/link.rs:162-165 | below the ceiling every error raises the rate and above zero every success lowers it |
| `LinkHealth.SixInARow` | crates/mlink-core/src/core/link.rs:162-165 | from any state six errors reach the unhealthy limit and six successes go below it; five do not always |
| `LinkHealth.SuccessesReachZero` | crates/mlink-core/src/core/link.rs:162-165 | the rate falls at least one per success and reaches zero |
| `LinkHealth.ServiceTurnsInSix` | crates/mlink-core/src/core/link.rs:121-131 | after any history six failures take a link out of service at every later time, and six successes return it for five seconds |
| `LinkHealth.RttWithinSamples` | crates/mlink-core/src/core/link.rs:156-160 | over any history the round-trip average stays within every interval that holds all samples |
| `LinkHealth.RttStallsUpwards` | crates/mlink-core/src/core/link.rs:156-160 | the average ignores exactly the samples less than 8 us above it |
| `LinkHealth.SilenceTurnsOff` | crates/mlink-core/src/core/link.rs:121-131 | a link that measured a round trip leaves service exactly 5 s after its last good operation, errors apart; one that never did does not leave it for silence |
| `LinkHealth.ThroughputRanks` | crates/mlink-core/src/core/link.rs:167-172 | at equal health more throughput never ranks lower, and ranks strictly higher exactly if more is carried in effect |
| `LinkHealth.TwoMoreRanksHigher` | crates/mlink-core/src/core/link.rs:167-172 | for a healthy link 2 bits per second more rank strictly higher, short of saturation |
| `LinkHealth.ScoreMonotone` | crates/mlink-core/src/core/link.rs:167-172 | the saturating score never rises when the error rate or the round trip rises |
| `Manager.SessionManager.AttachLink` | crates/mlink-core/src/core/session/manager.rs:30-72 | the table and the answer are those of the attach rules; the id announced is the one stored, the link is attached, and no other peer's session changes |
| `Manager.SessionManager.DetachLink` | crates/mlink-core/src/core/session/manager.rs:92-121 | the table and the answer are those of the detach rules; sessions that stay keep their identity |
| `Manager.SessionManager.SwitchActiveLink` | crates/mlink-core/src/core/node/lifecycle.rs:136-157 | succeeds exactly if the peer is present and has the link, and then that link is active and nothing else changed |
| `Manager.SendMoves` | crates/mlink-core/src/core/session/io.rs:54-65 | to the table a send is one activation of the last link it tried, or nothing |
| `Manager.ActiveMoves` | crates/mlink-core/src/core/session/io.rs:126-144 | whatever keeps the links and leaves the active one attached, as a promotion and a switch do, is one activation or nothing |
| `Manager.SessionManager.DropPeer` | crates/mlink-core/src/core/session/manager.rs:83-89 | exactly the named peer goes, and its session is returned |
| `Manager.AttachSucceedsWhen` | crates/mlink-core/src/core/session/manager.rs:37-71 | exactly when each kind of attach succeeds and when it is rejected for the session id or for capacity, and that a rejected one changes nothing |
| `Manager.CapacityMeansEveryKind` | crates/mlink-core/src/core/session/manager.rs:42-44 | rejection for capacity happens only when all four kinds are attached |
| `Manager.DetachRemovesLast` | crates/mlink-core/src/core/session/manager.rs:92-121 | true exactly when the last link was removed, which is exactly when the peer disappears |
| `Manager.DetachRemovesOne` | crates/mlink-core/src/core/session/manager.rs:96-115 | otherwise exactly the named link is gone and, if it was active, no link is |
| `Manager.KindsNameApart` | crates/mlink-core/src/core/node/connect.rs:334-348 | links of different kinds have different ids |
| `Manager.StatusShowsOneActive` | crates/mlink-core/src/core/session/manager.rs:164-173 | a status marks exactly the active link, so at most one, and one exactly while the peer has an active link |
| `Manager.ShapeOverRuns` | crates/mlink-core/src/core/session/manager.rs:30-121 | in every table reached by attaches, detaches, drops, sends and switches each peer has 1 to 4 links of distinct kinds and an active link that is attached, or none |
| `Manager.SessionIdFixed` | crates/mlink-core/src/core/session/manager.rs:60-71 | a peer that stays present keeps its session id over any stretch of a run |
| `Manager.ShapedSessionsRoute` | crates/mlink-core/src/core/session/io.rs:159-189 | the table's shape gives what the send path relies on: distinct ids and an attached active link |
| `Reconnect.ReconnectPolicy.NextDelay` | crates/mlink-core/src/core/reconnect.rs:47-84 | the delay and the whole new state of one call, in both phases and at the give-up point |
| `Reconnect.FreshBudget` | crates/mlink-core/src/core/reconnect.rs:47-84 | a caller that waits out its delays gets at most 11 foreground and 15 background ones |
| `Reconnect.AtMostTwentySix` | crates/mlink-core/src/core/reconnect.rs:47-84 | the budget left from any state on schedule, for any later calls |
| `Reconnect.TwentySeventhGivesUp` | crates/mlink-core/src/core/reconnect.rs:47-84 | the 27th call of a caller that waits out its delays, and every later one, is told to give up |
| `Reconnect.TwentySixReached` | crates/mlink-core/src/core/reconnect.rs:47-84 | the bound is tight: a caller that returns on time is answered with 11 foreground delays and then, up to the 26th call, background ones |
| `Reconnect.GivesUpForGood` | crates/mlink-core/src/core/reconnect.rs:68-76 | once it has given up it never retries again, however it is called |
| `Reconnect.DelaysInOrder` | crates/mlink-core/src/core/reconnect.rs:58-67 | foreground delays never shrink, never exceed 60 s, and never follow a background one |
| `Backlog.MessageQueue.Push` | crates/mlink-daemon/src/queue.rs:70-76 | the room's bucket stays the last 500 of everything pushed since its last drain or removal; no other room changes |
| `Backlog.MessageQueue.Drain` | crates/mlink-daemon/src/queue.rs:80-85 | returns the last min(k, 500) of the k pushes since the previous drain or removal, oldest first |
| `Backlog.MessageQueue.RemoveRoom` | crates/mlink-daemon/src/queue.rs:95-97 | forgets the room's backlog and nothing else |
| `Backlog.MessageQueue.Len` | crates/mlink-daemon/src/queue.rs:88-90 | the number of messages a drain would return |
| `Backlog.SessionEntry.TrySend` | crates/mlink-daemon/src/bootstrap.rs:143-145 | appends unless the channel is full, and then drops |
| `Backlog.Daemon.FanOut` | crates/mlink-daemon/src/bootstrap.rs:116-147 | the message is queued under every room in order, and counted to what was pushed since the last drain; every client is offered it once per room it subscribes to, in the same order, as far as its channel has room; sender, payload and time arrive unaltered in both |
| `Backlog.Daemon.SubscribeAndDrain` | crates/mlink-daemon/src/session/handlers.rs:80-87 | subscription and the whole backlog in one section |
| `Backlog.Daemon.Leave` | crates/mlink-daemon/src/session/handlers.rs:137-156 | the room's backlog is dropped exactly if the client was subscribed and no session wants the room any more |
| `Fanout.StepKeeps` | crates/mlink-daemon/src/bootstrap.rs:116-147 | every critical section, at every interleaving, keeps the invariant that ties queues, worker and each client's stream to the push history |
| `Fanout.SubscriberSeesSegment` | crates/mlink-daemon/src/session/handlers.rs:75-102 | at every point of every run, what a once-joined, never-overflowed session was sent of a room is one gap-free, repeat-free, in-order segment of the pushes, starting at the last min(k, 500) before its join and complete when nothing is in flight |
| `Fanout.JoinIsSettled` | crates/mlink-daemon/src/session/handlers.rs:80-87 | where the segment starts is fixed by the first join for the rest of the run |
| `Fanout.SecondJoinRepeats` | crates/mlink-daemon/src/session/handlers.rs:80-102 | every second join, also after a leave: how many of the drained entries repeat the end of what the session was given, that they come first and nothing after them was given before, and exactly when there are any |
| `Fanout.RejoinRepeats` | crates/mlink-daemon/src/bootstrap.rs:122-145 | joining again while subscribed drains exactly the last min(k, 500) of the k pushes since the previous drain, all of which the session already has; so it repeats something if and only if the queue is not empty |
| `Fanout.RejoinSendsTwice` | crates/mlink-daemon/src/session/handlers.rs:80-102 | for every room and message there is a run that pushes the message once and sends it twice to one client |
| `Fanout.HistoryIsBrought` | crates/mlink-daemon/src/bootstrap.rs:116-138 | in every run each entry of a room's history carries, unaltered, a message that was brought and listed for that room |
| `Fanout.LeaveAloneIsLeave` | crates/mlink-daemon/src/session/handlers.rs:137-156 | the critical sections of a leave, uninterrupted, come to the daemon's leave: the room and its backlog go if and only if the client was subscribed and no other listed session wants it |
| `Fanout.DrainedSegment` | crates/mlink-daemon/src/session/handlers.rs:80-87 | in the protocol, too, the drained backlog is the last min(k, 500) pushes and holds only that room's messages |
| `Fanout.OffersAreFanOut` | crates/mlink-daemon/src/bootstrap.rs:121-147 | the protocol's single offers, taken together, leave a client's channel as the worker's loop does |
| `ConnectLoop.Loop.OnDiscovered` | crates/mlink-daemon/src/discovery/connect.rs:39-89 | dials exactly when the wire is neither engaged nor inbound nor served and has attempts left; a failure costs one attempt, a room mismatch all, and a success leads the wire to its app |
| `ConnectLoop.Loop.OnAccepted` | crates/mlink-daemon/src/discovery/connect.rs:90-123 | books an accepted connection or withdraws it |
| `ConnectLoop.Loop.OnPeerDisconnected` | crates/mlink-daemon/src/discovery/connect.rs:129-150 | forgets exactly the wires that led to the app, and offers a report of each of them, and of no other, to the scanner |
| `ConnectLoop.Loop.Handle` | crates/mlink-daemon/src/discovery/connect.rs:37-173 | the loop over any events is the fold of the steps |
| `ConnectLoop.RunSound` | crates/mlink-daemon/src/discovery/connect.rs:39-150 | in every run without a lag every engaged wire is mapped to a connected app, inbound wires are engaged, and counters stay within 3 |
| `ConnectLoop.NeverStranded` | crates/mlink-daemon/src/discovery/connect.rs:39-150 | in such a run a wire that surfaces is dialled if and only if its app is not connected and it has attempts left |
| `ConnectLoop.DisconnectFreesWires` | crates/mlink-daemon/src/discovery/connect.rs:129-150 | the loss of an app makes each of its wires dialable at once |
| `ConnectLoop.AtMostThreeDials` | crates/mlink-daemon/src/discovery/connect.rs:49-53 | in every run, lags included, a wire is dialled at most 3 times between resets of its counter |
| `ConnectLoop.LagIsSoundIffIdle` | crates/mlink-daemon/src/discovery/connect.rs:152-168 | a lag keeps the books sound if and only if no wire is engaged |
| `ConnectLoop.LagStrandsEngaged` | crates/mlink-daemon/src/discovery/connect.rs:152-168 | a wire engaged at a lag is not dialled again, whatever follows, short of an accept from it |
| `Streams.ChunksAreData` | crates/mlink-core/src/api/stream.rs:90 | the chunks put together are the data, and there are as many as the rounded-up quotient |
| `Streams.Xor8Concat` | crates/mlink-core/src/api/stream.rs:52-54 | the checksum of a whole is the combination of the checksums of its parts, however it is cut |
| `Streams.OneByteNoticed` | crates/mlink-core/src/api/stream.rs:52-54 | the checksum changes exactly if a byte does: no change of one byte goes unnoticed |
| `Streams.AnnouncedCountIsRight` | crates/mlink-core/src/api/stream.rs:227-232 | the announced count is the number of chunks if and only if the rounding sum does not overflow and the count fits 32 bits |
| `Streams.CreateStream` | crates/mlink-core/src/api/stream.rs:211-254 | announces the stream, or emits nothing if the chunk size is zero or the frame is refused |
| `Streams.StreamWriter.Write` | crates/mlink-core/src/api/stream.rs:84-103 | emits the chunks in order, numbered on from the last write, up to the first refusal; the checksum takes in the chunks sent and the one refused, and no more |
| `Streams.StreamWriter.Finish` | crates/mlink-core/src/api/stream.rs:105-117 | the end frame carries the XOR of everything written, however it was chunked |
| `Streams.SendStream` | crates/mlink-core/src/api/stream.rs:84-117 | create, one write and finish put exactly the stream on the wire |
| `Streams.StreamReader.Next` | crates/mlink-core/src/api/stream.rs:162-200 | yields the next of the stream's chunks, and nothing exactly when none is left |
| `Streams.ForeignFramesIgnored` | crates/mlink-core/src/api/stream.rs:174-198 | frames of other streams and malformed ones make no difference to what a reader yields |
| `Streams.ForeignFrameRemoved` | crates/mlink-core/src/api/stream.rs:174-198 | any one frame that is no chunk or end of the stream can be taken off the connection without the reader noticing |
| `Streams.StreamRoundTrip` | crates/mlink-core/src/api/stream.rs:162-200 | on a lossless ordered connection with any other traffic mixed in, the reader yields exactly the chunks written; together they are the data and match the checksum |
| `Streams.ReadAll` | crates/mlink-core/src/api/stream.rs:162-200 | reading until the end yields everything the reader has ahead of it, in order |
| `Streams.ReceiveStream` | crates/mlink-core/src/api/stream.rs:162-200 | the receiving end of the round trip, by the reader itself: the chunks written, whose concatenation is the data |
| `Streams.StreamIdsCollide` | crates/mlink-core/src/api/stream.rs:13-22 | the two ends never choose the same id, and one end repeats an id exactly every 32768 streams |

## Left out

- Compression, encryption, msgpack and JSON: functions that may fail, about which nothing is assumed.
- BLE, TCP, IPC and mDNS transports, tokio channels and tasks: a write, read or dial is a result chosen by the environment.
- Byte-level delivery from `send` to `recv`: the two disagree on the message layout, see `SessionLayer.SendOmitsTheWord`; receiver theorems are about messages in the documented layout.
- End-to-end reliability: the receiver's own ACK frames are not truthful to the sender, and nothing resends after a failover, so only the sender's and the receiver's guarantees are stated.
- Concurrent calls of one session's methods, and other tasks running between the awaits of one call: each method is one step. Two sessions of one peer existing at once for that reason are not modelled.
- `SessionLayer.Session.Recv`: one link wins each turn and the others' reads are not modelled; a clock reading stands for a whole turn.
- `SessionLayer.Session.Send`: scores and health are read at two instants, one before each write, not link by link.
- `Manager.SessionManager.AttachLink`: the fresh session id is a parameter, and closing the physical connections of a removed link has no effect in the model.
- `Backlog.SessionEntry.TrySend`: the transport and stream-progress frames the daemon also puts into a client's channel (crates/mlink-daemon/src/session/transport_forward.rs:59-71) are not in the modelled channel; in `Fanout` they appear only as offers that find the channel crowded.
- `Fanout.SubscriberSeesSegment`: says nothing of sessions that join a room twice or whose channel of 1024 was ever full, since those do get repeats or gaps; it does not claim that a room stays joined when a join races the last leave.
- Parsing of a peer's payload into JSON by the worker, room persistence, room-code validation, and the replies and errors sent to WebSocket clients.
- `ConnectLoop.Loop.OnDiscovered`: the report a failed dial sends the scanner two seconds later is not modelled; that the wire surfaces again is an event the environment chooses.
- `ConnectLoop.Loop.OnPeerDisconnected`: does not say that the scanner gets a report, since a full channel drops it; the model says which reports are offered.
- Session events, manual-override expiry, `should_switchback` and the display-only score of `Session::score`.
- `Link.inflight` counters and the percentage of `Progress`: single saturating or floating-point steps no result depends on.
- `Streams.AnnouncedCountIsRight`: models the wrapping arithmetic of a release build; a debug build stops at the overflow instead.
- The CLI's own connection tracker, the resume bookkeeping of `ReconnectManager`, publish/subscribe, RPC, peers and rooms managers, and the TypeScript client: easy members next to these.
