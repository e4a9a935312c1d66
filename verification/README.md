# Sponge: a verified model of a user-space TCP/IP stack

The project models the protocol core of the `sponge` library in Dafny 4.11 and proves what it
promises. Two layers run side by side:

- **values**: datatypes and functions (or relations) that say what each operation does to the state.
  The theorems over whole runs are about these;
- **objects**: classes with the fields, loops and in-place updates of the C++ classes. Every method
  is proved to do to the abstract value (`Model()`) what the value layer says.

`dafny verify dfyconfig.toml` checks everything.

## What is proved

**Stream reassembly** (`Reassembly.dfy`, `StreamReassembler.dfy`, `ByteStream.dfy`, `Buffer.dfy`).
The specification knows only a set of indices and a byte for each. The object keeps an ordered map of
strings, trims, merges and erases them in place, and maintains a counter beside the map. One push
makes exactly the pushed indices below `bytes_read + capacity` known and leaves the assembled prefix
ending at the least unknown index. When everything fits, neither the order nor the repetition of
pushes, nor how the strings were cut, nor the reads in between leave a trace. Where two pushes
disagree about a byte that is not yet assembled, the new byte is kept exactly if the string that the old
one waits in starts after the new string and is covered by it whole; so strings and push determine the
outcome.

**One direction of TCP** (`TcpSender*.dfy`, `TcpReceiver.dfy`, `TcpLink.dfy`, `TcpDelivery.dfy`).
A sender, a receiver and a network that loses, repeats and reorders. In every run what is assembled is
a prefix of what was written; the end is seen only after everything; nothing that was given a sequence
number and is not assembled has left the retransmission queue; every number carries the symbol that
belongs to it; a retransmission repeats an earlier segment; the FIN is made once, at the number after
the last byte, and nothing is numbered after it.

**Two endpoints** (`TcpConnection*.dfy`, `TcpSystem.dfy`, `TcpTwoEndpoints.dfy`). Two connections over
such a network, resets and aborts included. A step that makes an endpoint inactive without an error
means full delivery both ways; at most one endpoint ever skips lingering, and it is the second one to
close; the state summaries never move back. `TcpTimerHistory.dfy` tells the timer from the run: it runs
exactly when something is in flight, its timeout is the initial one doubled once for each expiry with an
open window since it was last started, at most eight times, and it expires exactly when the ticks since
then reach that. `TcpLifecycle.dfy` says field by field what each step of a run does to an endpoint: what
resets and aborts do and that nothing else does it, what is stamped on every segment, when the connection
ends, and that the streams do what the applications ask for. `TcpFilling.dfy` says exactly which segments
filling the window sends.

**A window that is not there** (`TcpWindowEdge.dfy`, `TcpStaleAck.dfy`). That a sender stays within its
peer's room is not true of the code: an old acknowledgment overwrites the window before it is recognised
as old (tcp_sender.cc:72). There are runs that show it, by ordinary reordering. Exactly the stale
acknowledgments with an open window are to blame: whatever the peer's state may be, any other one is safe,
and for each of them some state of the peer is overrun. The property holds in every run without them; the
window held, though not what was already sent, is right again after the next harmless one.

**Nothing is ever lost for good** (`TcpRun.dfy`, `TcpProgress.dfy`). From every state of every run in which
something is in flight and a retransmission is left, with an active peer that has capacity, the run can go
on until everything is delivered and acknowledged. After eight retransmissions the next expiry aborts, and
then a timely copy that is already on the wire is enough.

**ARP and routing** (`NetworkInterface*.dfy`, `ArpHistory.dfy`, `Router*.dfy`). An outside observer's
notes over any run: requests for one address are more than five seconds apart, every frame goes to the
address last learned within 30 seconds, every datagram has exactly one fate, which the notes decide, and a
reply sends off all that can be reached. The router's first match in table order is the longest matching
prefix, bit by bit, and each routable datagram goes to exactly one interface, for its gateway or for the
destination itself. The router object is built from interface objects.

**Wire formats** (`Wire.dfy`, `InternetChecksum.dfy`, `TcpWire.dfy`, `TcpCodec.dfy`, `Ipv4Wire.dfy`,
`Ipv4Codec.dfy`, `FieldLayout.dfy`, `TcpLayout.dfy`, `Ipv4Layout.dfy`, `TcpOverIpv4.dfy`). Every field at
its place in the bytes, for writing and for reading; what the checksum is; round trips of integers, headers,
segments and datagrams, with the checksums verifying at both layers, up to the adapter that filters by
address and port.

## Modelling decisions

- Counters are unbounded, except where a width shows: 32-bit sequence numbers, the 32-bit timeout
  shift, the 32-bit checksum accumulator, the 16-bit window of a reset, 16-bit lengths. Streams stay
  below 2^64 - 2^32 - 2 bytes, so that no byte counter wraps. The index of a pushed string and its end
  are 64-bit numbers and do wrap, as `Arriving` says: a string whose end wraps is lost, as happens to
  the payload of a segment without SYN at the initial sequence number (`TcpReceivers.BeforeTheStream`).
  No sender of this stack makes such a segment.
- Bytes are integers: the transport layers never look at their values. The codecs say where
  `0 <= b < 256` matters (`Octets`).
- The network is a set of segments that only grows; delivering picks a member. A delivered segment (or
  acknowledgment with its window) is assumed timely: some place where its content truly belongs lies
  within 2^31 of the checkpoint (the segment-lifetime assumption of section 3.3 of RFC 793). This is
  weaker than assuming it of the place it was sent from.
- In a run, a step whose operation would be undefined may do anything; the theorems show that this
  never comes up.
- Nobody writes to a stream after ending it. The code does not check this, so it is a condition of the
  write steps.
- `std::map` iterators are modelled by the keys they point at, hash-map iteration by an arbitrary order,
  and the exceptions of the codecs and buffers by `None` or a false result.
- A received frame whose payload does not parse is the payload `Malformed`; the addresses of an
  interface and the initial sequence numbers are arbitrary constants.
- A lookup in `_arp_expire_time` (network_interface.cc:80-84) is compared with the `end()` of another
  map; the model reads it as "key absent".

## Model

| member | source | states |
|---|---|---|
| `WrappingIntegers.UnwrapIsNearest` | lab/stanfordCS144/sponge/libsponge/wrapping_integers.cc:28-42 | the result wraps to `n`, fits 64 bits, and every other such number is farther from the checkpoint, or as far and higher |
| `WrappingIntegers.UnwrapUndoesWrap` | lab/stanfordCS144/sponge/libsponge/wrapping_integers.cc:16-42 | unwrapping undoes wrapping if and only if the number is within 2^31 of the checkpoint, or is a low number without a smaller rival |
| `WrappingIntegers.WrapCongruent` | lab/stanfordCS144/sponge/libsponge/wrapping_integers.hh:47-59 | two absolute numbers wrap alike exactly when they differ by a multiple of 2^32 |
| `Buffers.Buffer.RemovePrefix` | lab/stanfordCS144/sponge/libsponge/util/buffer.cc:5-13 | fails exactly when the prefix is too long; otherwise drops exactly it |
| `Buffers.BufferList.Append` | lab/stanfordCS144/sponge/libsponge/util/buffer.cc:15-19 | the contents grow by those of the other list, buffer by buffer |
| `Buffers.BufferList.Size` | lab/stanfordCS144/sponge/libsponge/util/buffer.cc:56-62 | the number of bytes in all buffers together |
| `Buffers.BufferList.Concatenate` | lab/stanfordCS144/sponge/libsponge/util/buffer.cc:43-54 | the first `n` bytes of the contents, or all of them |
| `Buffers.BufferList.RemovePrefix` | lab/stanfordCS144/sponge/libsponge/util/buffer.cc:64-78 | fails exactly when there are fewer than `n` bytes; otherwise the contents lose their first `n` |
| `ByteStreams.ByteStream.Write` | lab/stanfordCS144/sponge/libsponge/byte_stream.cc:26-32 | as many bytes as fit join the history; the buffers hold exactly the unread part |
| `ByteStreams.ByteStream.PeekOutput` | lab/stanfordCS144/sponge/libsponge/byte_stream.cc:35-38 | the next bytes, up to the length asked for |
| `ByteStreams.ByteStream.PopOutput` | lab/stanfordCS144/sponge/libsponge/byte_stream.cc:41-46 | moves the read position; removing the prefix never throws |
| `ByteStreams.ByteStream.Read` | lab/stanfordCS144/sponge/libsponge/byte_stream.cc:51-55 | returns the next bytes and pops them |
| `ByteStreams.ReadsAreInOrder` | lab/stanfordCS144/sponge/libsponge/byte_stream.cc:26-55 | however writes and reads alternate, what was given out and what is still held are together what was there and what was taken in, in order, each byte once |
| `Reassembly.NextIsLeastUnknown` | lab/stanfordCS144/sponge/libsponge/stream_reassembler.hh:19 | the assembled prefix ends at the least unknown index, and only there |
| `Reassembly.StorageIsBounded` | lab/stanfordCS144/sponge/libsponge/stream_reassembler.hh:28-36 | assembled but unread bytes and waiting bytes together never exceed the capacity |
| `Reassembly.PushKeepsConsistent` | lab/stanfordCS144/sponge/libsponge/stream_reassembler.cc:21-101 | pushes cut from one true stream leave every known byte equal to the true one, and the end at its end |
| `Reassembly.KnownDetermines` | lab/stanfordCS144/sponge/libsponge/stream_reassembler.cc:21-118 | the set of known indices determines the assembled and the waiting bytes |
| `Reassembly.OrderDoesNotMatter` | lab/stanfordCS144/sponge/libsponge/stream_reassembler.hh:10-11 | two runs whose strings cover the same indices, however cut, ordered and repeated, and with reads in between, end in the same state up to the read position, when every string fits at its moment |
| `StreamReassemblers.StreamReassembler.PushSubstring` | lab/stanfordCS144/sponge/libsponge/stream_reassembler.cc:21-32 | known indices are the old ones and the pushed ones below `bytes_read + capacity`; a waiting string is replaced exactly if the pushed one starts before it and covers it whole; delivery is eager; the input ends exactly when the end index is reached; a string whose end leaves 64 bits adds nothing but its wrapped end |
| `StreamReassemblers.PushIsDetermined` | lab/stanfordCS144/sponge/libsponge/stream_reassembler.cc:21-101 | the waiting strings and the push determine the outcome, byte for byte |
| `Reassembly.PushHasOutcome` | lab/stanfordCS144/sponge/libsponge/stream_reassembler.cc:21-32 | every push has an outcome |
| `StreamReassemblers.StreamReassembler.InsertPair` | lab/stanfordCS144/sponge/libsponge/stream_reassembler.cc:34-101 | takes in the pushed interval cut at the window, keeping the strings non-empty and disjoint and the counter equal to the number of waiting indices; of two bytes for one index the new one is kept exactly if the waiting string is replaced |
| `StreamReassemblers.StreamReassembler.SkipKnown` | lab/stanfordCS144/sponge/libsponge/stream_reassembler.cc:35-46 | everything skipped is known, and the map splits cleanly at the new index |
| `StreamReassemblers.AbsorbFollowing` | lab/stanfordCS144/sponge/libsponge/stream_reassembler.cc:58-75 | exactly the strings after the index that end inside the interval are erased; the interval is cut where a string it covers only partly begins, and what is cut off is waiting already |
| `StreamReassemblers.StreamReassembler.Place` | lab/stanfordCS144/sponge/libsponge/stream_reassembler.cc:82-101 | the data is written whole if it comes next and stored otherwise; a partial write never happens |
| `StreamReassemblers.StreamReassembler.WriteOutput` | lab/stanfordCS144/sponge/libsponge/stream_reassembler.cc:103-118 | moves bytes from waiting to assembled, changes no known byte, and stops only when the next index is not waiting |
| `StreamReassemblers.UpperBound` | lab/stanfordCS144/sponge/libsponge/stream_reassembler.cc:60 | the least key above a bound, if there is one |
| `StreamReassemblers.GreatestAtMost` | lab/stanfordCS144/sponge/libsponge/stream_reassembler.cc:37-40 | the greatest key not above a bound, if there is one |
| `RetransmissionTimers.BackoffOverHistory` | lab/stanfordCS144/sponge/libsponge/tcp_sender.hh:24-57 | over any history of a running timer the timeout is the initial one doubled once per expiry with an open window since the last start (in 32 bits), and all expiries since then are counted; `TcpTimerHistory.TimerIsItsHistory` says which history a run has |
| `RetransmissionTimers.RetransmissionTimer.Timeout` | lab/stanfordCS144/sponge/libsponge/tcp_sender.hh:24-30 | expires exactly when the time so far and the tick together reach the timeout; otherwise the tick is added |
| `RetransmissionTimers.RetransmissionTimer.ResetTimer` | lab/stanfordCS144/sponge/libsponge/tcp_sender.hh:33-47 | counts a retransmission, restarts the time, and doubles the timeout if the window is open |
| `RetransmissionTimers.RetransmissionTimer.Start` | lab/stanfordCS144/sponge/libsponge/tcp_sender.hh:48-53 | running, with the initial timeout and no retransmissions |
| `RetransmissionTimers.RetransmissionTimer.Close` | lab/stanfordCS144/sponge/libsponge/tcp_sender.hh:54-57 | stopped, with no retransmissions |
| `TcpSenderInvariant.FillWindowIsSafeAndMaximal` | lab/stanfordCS144/sponge/libsponge/tcp_sender.cc:28-61 | keeps the sender's invariant, never goes past the window held (unless it was overrun before), and, unless still waiting for the SYN's acknowledgment, stops only when the window is full or the stream is drained and its end sent |
| `TcpFilling.FillSendsExactly` | lab/stanfordCS144/sponge/libsponge/tcp_sender.cc:28-61 | once the SYN is acknowledged, filling sends the next bytes, as many as are there and fit, in segments of a thousand but for the last, with the FIN on the last one or alone if the stream has ended and it fits |
| `TcpFilling.FillOpensOnce` | lab/stanfordCS144/sponge/libsponge/tcp_sender.cc:28-36 | before that it sends the SYN once, at the initial number, and nothing while that is not acknowledged |
| `TcpSenderInvariant.InFlightPicture` | lab/stanfordCS144/sponge/libsponge/tcp_sender.cc:79-87 | the tracked segments follow each other without gap up to the next number, their total is the bytes in flight, only the first may be acknowledged in part, and each stored number unwraps to its true start |
| `TcpSenderInvariant.AckReceivedKeeps` | lab/stanfordCS144/sponge/libsponge/tcp_sender.cc:65-100 | keeps the invariant; the acknowledged number moves only forward and only to a number that was sent; any acceptable acknowledgment sets the window |
| `TcpSenderInvariant.NewAckRestartsTimer` | lab/stanfordCS144/sponge/libsponge/tcp_sender.cc:89-99 | a new acknowledgment ends the back-off and refills the window |
| `TcpSenderInvariant.SynSentMeansUnacked` | lab/stanfordCS144/sponge/libsponge/tcp_sender.cc:33-35 | the test "next equals in flight" holds exactly while nothing is acknowledged |
| `TcpSenderInvariant.TickKeeps` | lab/stanfordCS144/sponge/libsponge/tcp_sender.cc:103-121 | keeps the invariant; on an expiry, and only then, the earliest tracked segment is queued again |
| `TcpSenderInvariant.SendEmptyKeeps` | lab/stanfordCS144/sponge/libsponge/tcp_sender.cc:125-129 | keeps the invariant; one segment that takes up no number joins the queue, with the next number |
| `TcpSenderObjects.TCPSender.SendNoEmptySegment` | lab/stanfordCS144/sponge/libsponge/tcp_sender.cc:131-140 | the segment takes the next number, is queued and tracked, and the timer is started if it was not running |
| `TcpSenderObjects.TCPSender.FillWindow` | lab/stanfordCS144/sponge/libsponge/tcp_sender.cc:28-61 | the loop computes what the value-level filling says, and keeps the invariant |
| `TcpSenderObjects.TCPSender.PopAcknowledged` | lab/stanfordCS144/sponge/libsponge/tcp_sender.cc:78-87 | the loop drops exactly the front segments that are acknowledged to their end |
| `TcpSenderObjects.TCPSender.AckReceived` | lab/stanfordCS144/sponge/libsponge/tcp_sender.cc:65-100 | does what the value-level acknowledgment says, and keeps the invariant |
| `TcpSenderObjects.TCPSender.Tick` | lab/stanfordCS144/sponge/libsponge/tcp_sender.cc:103-121 | does what the value-level tick says; the branch for an empty queue is never reached |
| `TcpSenderObjects.TCPSender.SendEmptySegment` | lab/stanfordCS144/sponge/libsponge/tcp_sender.cc:125-129 | queues an empty segment at the next number and tracks nothing |
| `TcpReceivers.AcknoWrapsAbsAck` | lab/stanfordCS144/sponge/libsponge/tcp_receiver.cc:30-36 | the number on the wire is the wrapped absolute number of the first byte (or FIN) not assembled |
| `TcpReceivers.WindowIsWhatIsAccepted` | lab/stanfordCS144/sponge/libsponge/tcp_receiver.hh:42-52 | of the new bytes of a segment exactly those below first-unassembled plus window are kept |
| `TcpReceivers.TCPReceiver.SegmentReceived` | lab/stanfordCS144/sponge/libsponge/tcp_receiver.cc:13-28 | discards everything before the first SYN; otherwise pushes the payload at the unwrapped place, in 64-bit arithmetic |
| `TcpReceivers.BeforeTheStream` | lab/stanfordCS144/sponge/libsponge/tcp_receiver.cc:24-27 | the payload of a segment without SYN at the initial number is lost, and a FIN on it sets the end one short of its length |
| `TcpReceivers.TCPReceiver.Ackno` | lab/stanfordCS144/sponge/libsponge/tcp_receiver.cc:30-36 | the acknowledgment number of the receiver's value, none before the SYN |
| `TcpReceivers.TCPReceiver.WindowSize` | lab/stanfordCS144/sponge/libsponge/tcp_receiver.cc:38 | the free capacity, never negative |
| `TcpLinks.StepKeepsLink` | lab/stanfordCS144/sponge/libsponge/tcp_receiver.cc:13-36 | every step of sender, receiver and network keeps: everything known at the receiver was sent and is the sender's byte, everything on the network is genuine, and the sender has acknowledged no more than the receiver has reached |
| `TcpLinks.TimelyIsReceivable` | lab/stanfordCS144/sponge/libsponge/tcp_receiver.cc:24-27 | a timely segment never takes the receiver's index arithmetic out of 64 bits |
| `TcpLinks.AckKeepsLink` | lab/stanfordCS144/sponge/libsponge/tcp_sender.cc:65-77 | a timely acknowledgment is read as a number that the receiver has reached and from which the window it carries does not pass the receiver's edge; taking it keeps the link's invariant |
| `TcpDelivery.EndToEndSafety` | lab/stanfordCS144/sponge/libsponge/tcp_receiver.cc:13-28 | in every run the assembled bytes are a prefix of the written ones, and the receiver's input ends only when they are equal and the writer has finished |
| `TcpDelivery.NothingForgotten` | lab/stanfordCS144/sponge/libsponge/tcp_sender.cc:65-87 | in every run the acknowledged number is at most the receiver's, which is at most the sender's next, and every number between the last two is covered by a tracked segment in its true place |
| `TcpDelivery.AckedMeansDelivered` | lab/stanfordCS144/sponge/libsponge/tcp_connection.cc:156-162 | once the FIN is acknowledged the receiver has assembled the whole stream and its end |
| `TcpDelivery.LayoutOverRun` | lab/stanfordCS144/sponge/libsponge/tcp_sender.cc:28-61 | over any run every segment queued or on the network carries at each number the symbol that belongs there: SYN at 0, byte k at k + 1, FIN only at the number after the last byte of an ended stream, and nothing beyond it |
| `TcpDelivery.RetransmissionRepeats` | lab/stanfordCS144/sponge/libsponge/tcp_sender.cc:109-114 | over any run a timeout queues nothing, or a segment that was queued or sent before |
| `TcpDelivery.FinIsLast` | lab/stanfordCS144/sponge/libsponge/tcp_sender.cc:45-58 | over any run, once a segment with FIN is queued or on the network, the stream has ended, the FIN has the number after its last byte, no further number is given out, and the stream is fixed |
| `TcpDelivery.FinIsMadeOnce` | lab/stanfordCS144/sponge/libsponge/tcp_sender.cc:45-58 | over any run, after a segment with FIN exists, whatever a step queues is empty or a copy of a segment queued or sent before |
| `TcpDelivery.RunAdvances` | lab/stanfordCS144/sponge/libsponge/tcp_sender.hh:83-87 | over any run the sender's numbers and the receiver's acknowledgment only grow |
| `TcpSystems.SendMoves` | lab/stanfordCS144/sponge/libsponge/tcp_connection.cc:37-58 | draining the sender's queue, with acknowledgments added, keeps both directions of the connection sound |
| `TcpSystems.RstMoves` | lab/stanfordCS144/sponge/libsponge/tcp_connection.cc:15-27 | a reset made from the front of the queue keeps both directions sound |
| `TcpTwoEndpoints.OpMoves` | lab/stanfordCS144/sponge/libsponge/tcp_connection.cc:60-149 | every operation of a connection keeps both directions sound and only moves its two halves forward |
| `TcpTwoEndpoints.BothDirectionsSafe` | lab/stanfordCS144/sponge/libsponge/tcp_connection.cc:60-135 | in every run of two endpoints, resets and aborts included, each direction delivers a prefix and its end only after all of it |
| `TcpTwoEndpoints.CleanCloseMeansFullDelivery` | lab/stanfordCS144/sponge/libsponge/tcp_connection.cc:151-182 | in every run, a step that makes an endpoint inactive without an error leaves both streams delivered whole, its own acknowledged with the FIN, and is taken only if it need not linger or has lingered ten initial timeouts |
| `TcpTwoEndpoints.OnlySecondToCloseSkipsLinger` | lab/stanfordCS144/sponge/libsponge/tcp_connection.cc:170-174 | in every run, lingering is given up only when the peer's stream is complete here and our own is not finished; from then on the peer is the one that lingers |
| `TcpTwoEndpoints.AtMostOneSkipsLinger` | lab/stanfordCS144/sponge/libsponge/tcp_connection.cc:170-182 | in every state of every run at least one endpoint still has to linger, and one that need not faces a peer whose FIN was sent |
| `TcpTwoEndpoints.ProgressNeverReverses` | lab/stanfordCS144/sponge/libsponge/tcp_helpers/tcp_state.cc:82-110 | over any stretch of any run both state summaries of an endpoint only move forward, and the error states are never left |
| `TcpTimerHistory.TimerOverRun` | lab/stanfordCS144/sponge/libsponge/tcp_connection.cc:104-114 | in every run an active endpoint's timer runs exactly when something is in flight; its timeout is then the initial one times 2^k without overflow, where k is the number of expiries with an open window since the last start, and all expiries since then are counted and at most eight |
| `TcpTimerHistory.TimerIsItsHistory` | lab/stanfordCS144/sponge/libsponge/tcp_sender.cc:89-121 | in every state of every run the timer is what the starts, stops, ticks and expiries caused by the steps so far make of a new one |
| `TcpTimerHistory.TimerShowsTime` | lab/stanfordCS144/sponge/libsponge/tcp_sender.hh:24-57 | in every state of every run a running timer shows the sum of the ticks since it was last started or expired, and has not reached its timeout |
| `TcpTimerHistory.ExpiresExactly` | lab/stanfordCS144/sponge/libsponge/tcp_sender.hh:24-30 | in every run a tick makes an active endpoint's running timer expire if and only if those ticks and this one reach the initial timeout times 2^k |
| `TcpTimerHistory.ExpirySendsFront` | lab/stanfordCS144/sponge/libsponge/tcp_sender.cc:103-121 | on an expiry a copy of the first segment in flight leaves, and nothing otherwise |
| `TcpWindowEdge.SafeAckExactly` | lab/stanfordCS144/sponge/libsponge/tcp_sender.cc:65-75 | for every receiver compatible with a sender and an acknowledgment the window then held ends within the receiver's true edge, if and only if the acknowledgment is not stale or closes the window |
| `TcpWindowEdge.RespectsTrueEdge` | lab/stanfordCS144/sponge/libsponge/tcp_sender.cc:28-75 | in every run, as long as an endpoint has taken no stale acknowledgment with an open window, all it has sent lies within its peer's room, but for one number that probes a closed window, and so does the window it holds |
| `TcpWindowEdge.HarmlessAckRestoresEdge` | lab/stanfordCS144/sponge/libsponge/tcp_sender.cc:72-75 | in every run, once an acknowledgment that is not stale or closes the window is taken, the window held is within the peer's room until the next one is taken |
| `TcpStaleAck.StaleAckOverrunsEdge` | lab/stanfordCS144/sponge/libsponge/tcp_sender.cc:72-75 | runs in which a repeated acknowledgment, timely but stale, makes the sender hold and use a window that ends beyond the receiver's true edge |
| `TcpProgress.CopySuffices` | lab/stanfordCS144/sponge/libsponge/tcp_connection.cc:60-90 | a timely copy of the first tracked segment on the wire, and room for a byte, are enough for the run to go on to a state in which more is acknowledged |
| `TcpProgress.DeliveryStaysPossible` | lab/stanfordCS144/sponge/libsponge/tcp_sender.cc:103-121 | from every state of every run in which something is in flight with a retransmission to spare, and the peer is active and has capacity, the run can go on until all that was written, and its end, is delivered and acknowledged |
| `TcpConnectionObjects.TCPConnection.SegmentReceived` | lab/stanfordCS144/sponge/libsponge/tcp_connection.cc:60-90 | a reset ends the connection with both streams in error; otherwise receiver, acknowledgment, response and final test follow as the value layer says |
| `TcpLifecycle.EveryStepIsLawful` | lab/stanfordCS144/sponge/libsponge/tcp_connection.cc:15-149 | in every run: a reset received kills the endpoint, both streams in error, and sends nothing; giving up and destruction do so with exactly one reset sent; no other step changes the errors or sends a reset, and all it sends carries the receiver's acknowledgment number and window |
| `TcpLifecycle.ErrorsHaveCauses` | lab/stanfordCS144/sponge/libsponge/tcp_connection.cc:60-149 | in every run a healthy endpoint gets into error exactly by a reset received, by more than eight retransmissions in a row, or by destruction while active |
| `TcpLifecycle.StreamsFollowApplications` | lab/stanfordCS144/sponge/libsponge/tcp_connection.cc:94-126 | in every run the outbound stream grows by exactly what is written and fits and ends when it is ended, and the inbound stream is read by exactly what is asked for and there |
| `TcpLifecycle.NumbersAreAnswered` | lab/stanfordCS144/sponge/libsponge/tcp_connection.cc:80-88 | every segment that takes up sequence numbers is answered |
| `TcpProgress.EmptyIsNotAnswered` | lab/stanfordCS144/sponge/libsponge/tcp_connection.cc:73-88 | a segment that takes up no numbers is never answered with one that takes up none |
| `TcpLifecycle.NothingIsHeldBack` | lab/stanfordCS144/sponge/libsponge/tcp_connection.cc:73-135 | in every run, after connecting, writing, ending, a segment that takes up numbers or a new acknowledgment, all that can be sent has left |
| `TcpLifecycle.ConnectOpens` | lab/stanfordCS144/sponge/libsponge/tcp_connection.cc:128-135 | connecting sends a SYN at the initial number and makes the connection active; after that it does nothing |
| `TcpLifecycle.LingerClock` | lab/stanfordCS144/sponge/libsponge/tcp_connection.cc:60-120 | in every state of every run the linger clock shows the ticks since the last segment received |
| `TcpLifecycle.SummariesOverRun` | lab/stanfordCS144/sponge/libsponge/tcp_helpers/tcp_state.cc:82-110 | in every state of every run each summary holds exactly when its half has got that far: FIN_SENT when the FIN is out and not acknowledged, FIN_ACKED when everything is |
| `TcpConnectionObjects.TCPConnection.SendSegments` | lab/stanfordCS144/sponge/libsponge/tcp_connection.cc:37-58 | the queue is emptied, and each segment leaves with the receiver's acknowledgment and window (at most 65535) |
| `TcpConnectionObjects.StampQueue` | lab/stanfordCS144/sponge/libsponge/tcp_connection.cc:39-56 | the loop stamps every queued segment, in order |
| `TcpConnectionObjects.TCPConnection.SendRstSegment` | lab/stanfordCS144/sponge/libsponge/tcp_connection.cc:15-27 | the front of the queue, after an empty segment joined it, leaves as a reset with the window's low 16 bits |
| `TcpLifecycle.ResetIsFront` | lab/stanfordCS144/sponge/libsponge/tcp_connection.cc:15-27 | the reset of an abort is an empty segment at the next number if nothing was queued, and otherwise whatever was first in the queue |
| `TcpConnectionObjects.TCPConnection.Tick` | lab/stanfordCS144/sponge/libsponge/tcp_connection.cc:104-120 | passes the time on, aborts after more than eight retransmissions, otherwise sends and tests for the end |
| `TcpConnectionObjects.TCPConnection.TestEnd` | lab/stanfordCS144/sponge/libsponge/tcp_connection.cc:170-182 | changes only the linger and active flags, as the value layer says |
| `TcpLifecycle.FinishedMeansInactive` | lab/stanfordCS144/sponge/libsponge/tcp_connection.cc:151-182 | in every run, right after a tick or a segment, an endpoint with both streams complete, all acknowledged and no need to linger any more is inactive, and one whose peer finished first will not linger |
| `TcpConnectionObjects.TCPConnection.Write` | lab/stanfordCS144/sponge/libsponge/tcp_connection.cc:94-101 | writes what fits, fills the window, sends, and returns how much was taken |
| `TcpConnectionObjects.TCPConnection.EndInputStream` | lab/stanfordCS144/sponge/libsponge/tcp_connection.cc:122-126 | ends the stream, fills the window and sends |
| `TcpConnectionObjects.TCPConnection.Connect` | lab/stanfordCS144/sponge/libsponge/tcp_connection.cc:128-135 | sends the SYN once and sets the connection active then |
| `TcpConnectionObjects.TCPConnection.PassiveClose` | lab/stanfordCS144/sponge/libsponge/tcp_connection.cc:164-168 | both streams are in error and the connection is inactive |
| `TcpConnectionObjects.TCPConnection.Destroy` | lab/stanfordCS144/sponge/libsponge/tcp_connection.cc:137-149 | an active connection is closed with an error and a reset |
| `NetworkInterfaceObjects.NetworkInterface.SendDatagram` | lab/stanfordCS144/sponge/libsponge/network_interface.cc:73-92 | sends to a cached address, discards while a request is pending, and otherwise asks and blocks |
| `NetworkInterfaceObjects.NetworkInterface.RecvFrame` | lab/stanfordCS144/sponge/libsponge/network_interface.cc:95-140 | learns from ARP messages for us, drains after a reply, answers a request, and hands up a datagram |
| `NetworkInterfaceObjects.NetworkInterface.DrainBlocked` | lab/stanfordCS144/sponge/libsponge/network_interface.cc:107-117 | the loop sends blocked datagrams up to the first whose hop is unknown |
| `NetworkInterfaceObjects.NetworkInterface.UpdateIpEthernetCache` | lab/stanfordCS144/sponge/libsponge/network_interface.cc:64-68 | the address counts for 30 seconds and the pending request is forgotten |
| `NetworkInterfaceObjects.NetworkInterface.Tick` | lab/stanfordCS144/sponge/libsponge/network_interface.cc:143-154 | the clock advances and exactly the expired entries leave both maps |
| `NetworkInterfaceObjects.EraseExpired` | lab/stanfordCS144/sponge/libsponge/network_interface.cc:146-153 | whatever the order of the walk, exactly the expired entries are erased from both maps |
| `ArpHistory.HistoryHolds` | lab/stanfordCS144/sponge/libsponge/network_interface.cc:64-154 | in every run cache, pending requests and blocked queue agree with the observer's notes |
| `ArpHistory.RequestSpacing` | lab/stanfordCS144/sponge/libsponge/network_interface.cc:79-88 | in every run two broadcast requests for one address are more than 5000 ms apart, and the notes miss none |
| `ArpHistory.CacheRefinesHistory` | lab/stanfordCS144/sponge/libsponge/network_interface.cc:64-154 | in every run both cache maps have the same keys; each datagram was sent once, waits in order, or was dropped within 5000 ms of a request for its hop; each frame went to the address last learned, at most 30000 ms before |
| `ArpHistory.SendIsDecided` | lab/stanfordCS144/sponge/libsponge/network_interface.cc:73-92 | in every run a datagram leaves at once for the address last learned for its hop if that was at most 30000 ms ago; otherwise nothing leaves if its hop was asked for at most 5000 ms ago, and else one request is broadcast and it waits behind all others |
| `ArpHistory.ReplyFlushes` | lab/stanfordCS144/sponge/libsponge/network_interface.cc:100-117 | in every run, when a reply for us comes in, the waiting datagrams are shipped in order up to the first whose hop was not learned in the last 30000 ms |
| `ArpHistory.HandsUpDatagrams` | lab/stanfordCS144/sponge/libsponge/network_interface.cc:95-140 | a frame for us that carries a datagram hands exactly that up; frames that are not for us change nothing |
| `ArpHistory.Identity` | lab/stanfordCS144/sponge/libsponge/network_interface.cc:143-154 | an interface keeps its addresses and its clock shows the time that has passed |
| `ArpHistory.AnswersExactlyRequests` | lab/stanfordCS144/sponge/libsponge/network_interface.cc:119-128 | a request for our address is answered once, to the asker; nothing else received makes us send an ARP message |
| `Routers.MatchesIsPrefix` | lab/stanfordCS144/sponge/libsponge/router.cc:42-52 | the mask test holds exactly when the first prefix-length bits agree |
| `Routers.FirstMatchIsLongest` | lab/stanfordCS144/sponge/libsponge/router.cc:57-62 | scanning in table order finds a route exactly when some prefix agrees, and the longest such one |
| `Routers.RouteAllPerInterface` | lab/stanfordCS144/sponge/libsponge/router.cc:63-77 | each interface sends exactly the datagrams decided for it, in order, and no inbound queue is touched |
| `Routers.HandedOnce` | lab/stanfordCS144/sponge/libsponge/router.cc:39-66 | a datagram with TTL above 1 that some prefix agrees with is handed once, with its TTL one lower, to exactly one interface, that of the longest such prefix, for its gateway or else for the destination itself; any other is handed to none |
| `Routers.ForwardedFrame` | lab/stanfordCS144/sponge/libsponge/router.cc:53-65 | if that interface knows the address of the next hop, one frame leaves to it with the datagram, TTL one lower; other interfaces do nothing |
| `Routers.SharesInOrder` | lab/stanfordCS144/sponge/libsponge/router.cc:63-77 | the handoffs of an interface are the shares of the datagrams, one by one and in order |
| `RouterObjects.Router.AddRoute` | lab/stanfordCS144/sponge/libsponge/router.cc:25-36 | keeps the table in order, adds a route with a new key and ignores one whose key is there |
| `RouterObjects.Router.FindRoute` | lab/stanfordCS144/sponge/libsponge/router.cc:58-62 | the loop finds the first match in table order |
| `RouterObjects.Router.RouteOneDatagram` | lab/stanfordCS144/sponge/libsponge/router.cc:39-66 | lowers the TTL, drops at TTL 1 or without a route, else gives the datagram to one interface; throws exactly for a route to an interface that was never added |
| `RouterObjects.Router.RouteArrivals` | lab/stanfordCS144/sponge/libsponge/router.cc:68-77 | every inbound queue ends empty and all arrivals have been routed in order of interface and arrival; or routing stopped at the first arrival whose route leads to an interface never added, with exactly those before it routed |
| `RouterObjects.EachArrivalOnce` | lab/stanfordCS144/sponge/libsponge/router.cc:39-77 | each arrival that can be routed was given, in its turn and with its TTL one lower, to the interface of the longest prefix that agrees; all others are as if it had not come |
| `RouterObjects.Router.ReceiveFrame` | lab/stanfordCS144/sponge/libsponge/router.hh:31-36 | a datagram for us joins the inbound queue of that interface; no other interface changes |
| `RouterObjects.AsyncNetworkInterface.RecvFrame` | lab/stanfordCS144/sponge/libsponge/router.hh:31-36 | does what the interface does with a frame, and keeps the datagram it hands up |
| `RouterObjects.Router.AddInterface` | lab/stanfordCS144/sponge/libsponge/router.hh:67-70 | the interface is last and its index is returned |
| `Wire.DecodeEncode` | lab/stanfordCS144/sponge/libsponge/util/parser.cc:26-60 | reading back an unparsed integer that fits gives the integer |
| `Wire.EncodeDecode` | lab/stanfordCS144/sponge/libsponge/util/parser.cc:26-60 | unparsing a parsed string of bytes gives the string |
| `Wire.ReadWritten` | lab/stanfordCS144/sponge/libsponge/util/parser.cc:26-60 | a row of fields that was written is read back, and the parser stands right after it |
| `Wire.NetParser.ParseInt` | lab/stanfordCS144/sponge/libsponge/util/parser.cc:26-43 | the big-endian value, or 0 with the error set and nothing consumed |
| `Wire.NetParser.RemovePrefix` | lab/stanfordCS144/sponge/libsponge/util/parser.cc:45-51 | drops the bytes, or sets the error and drops nothing |
| `Wire.UnparseInt` | lab/stanfordCS144/sponge/libsponge/util/parser.cc:53-60 | appends the bytes of the integer, most significant first |
| `InternetChecksums.AddSplits` | lab/stanfordCS144/sponge/libsponge/util/util.cc:89-98 | the accumulator is the same however the bytes are cut up |
| `InternetChecksums.FoldKeepsResidue` | lab/stanfordCS144/sponge/libsponge/util/util.cc:100-108 | folding ends, keeps the sum modulo 65535, and gives 0 only for 0 |
| `InternetChecksums.ChecksumVerifies` | lab/stanfordCS144/sponge/libsponge/util/util.cc:77-83 | a message whose checksum was computed with the field zero sums to checksum 0, as long as the sum fits 32 bits |
| `InternetChecksums.ChecksumIsComplement` | lab/stanfordCS144/sponge/libsponge/util/util.cc:89-108 | the checksum is the 16-bit number that makes the sum of the words, most significant byte first, a multiple of 65535 |
| `InternetChecksums.VerifiesExactly` | lab/stanfordCS144/sponge/libsponge/util/util.cc:77-108 | data verify exactly if that sum is a positive multiple of 65535 |
| `InternetChecksums.InternetChecksum.Add` | lab/stanfordCS144/sponge/libsponge/util/util.cc:89-98 | the loop adds every byte at its place in the 16-bit words |
| `InternetChecksums.InternetChecksum.ComputeValue` | lab/stanfordCS144/sponge/libsponge/util/util.cc:100-108 | the complement of the folded sum |
| `TcpWire.HeaderRoundTrip` | lab/stanfordCS144/sponge/libsponge/tcp_helpers/tcp_header.cc:17-78 | parsing a serialized header gives it back and leaves what follows |
| `TcpLayout.HeaderLayout` | lab/stanfordCS144/sponge/libsponge/tcp_helpers/tcp_header.cc:51-78 | every field of a serialized header lies at its place, most significant byte first, with zeros where options would be |
| `TcpLayout.ParsedLayout` | lab/stanfordCS144/sponge/libsponge/tcp_helpers/tcp_header.cc:17-48 | from any buffer of at least twenty bytes each field is the number at its place, and options are skipped if they are there |
| `TcpLayout.SegmentLayout` | lab/stanfordCS144/sponge/libsponge/tcp_helpers/tcp_segment.cc:30-45 | a serialized segment is its header with a checksum that verifies, and its payload |
| `TcpLayout.ParsedSegmentLayout` | lab/stanfordCS144/sponge/libsponge/tcp_helpers/tcp_segment.cc:12-23 | a buffer is rejected exactly if it does not verify; otherwise header and payload are taken from their places |
| `TcpWire.SegmentRoundTrip` | lab/stanfordCS144/sponge/libsponge/tcp_helpers/tcp_segment.cc:12-45 | a serialized segment verifies and parses back to itself with its checksum filled in |
| `TcpWire.DatagramSized` | lab/stanfordCS144/sponge/libsponge/util/util.cc:89-98 | for every segment that fits a datagram the 32-bit sum does not overflow |
| `TcpCodec.ParseTcpHeader` | lab/stanfordCS144/sponge/libsponge/tcp_helpers/tcp_header.cc:17-48 | consumes the parser and checks the data offset; each field is the number at its place in the buffer |
| `TcpCodec.SerializeTcpHeader` | lab/stanfordCS144/sponge/libsponge/tcp_helpers/tcp_header.cc:51-78 | every field at its place, padded to the data offset; fails below five words |
| `TcpCodec.SerializeTcpSegment` | lab/stanfordCS144/sponge/libsponge/tcp_helpers/tcp_segment.cc:30-45 | header with computed checksum, then payload |
| `TcpCodec.ParseTcpSegment` | lab/stanfordCS144/sponge/libsponge/tcp_helpers/tcp_segment.cc:12-23 | rejects a bad checksum; otherwise header, payload and the parser's error |
| `Ipv4Wire.HeaderVerifies` | lab/stanfordCS144/sponge/libsponge/tcp_helpers/ipv4_datagram.cc:28-38 | a header with its checksum filled in sums to zero |
| `Ipv4Wire.DatagramRoundTrip` | lab/stanfordCS144/sponge/libsponge/tcp_helpers/ipv4_datagram.cc:11-41 | a serialized datagram parses back to itself with its checksum filled in, and the header passes every check |
| `Ipv4Layout.HeaderLayout` | lab/stanfordCS144/sponge/libsponge/tcp_helpers/ipv4_header.cc:78-110 | every field of a serialized header lies at its place, most significant byte first |
| `Ipv4Layout.ParsedLayout` | lab/stanfordCS144/sponge/libsponge/tcp_helpers/ipv4_header.cc:23-75 | from any packet of at least twenty bytes each field is the number at its place, and each check has its own result, in order |
| `Ipv4Layout.DatagramLayout` | lab/stanfordCS144/sponge/libsponge/tcp_helpers/ipv4_datagram.cc:23-41 | a serialized datagram is its header with a checksum that verifies, and its payload |
| `Ipv4Layout.ParsedDatagramLayout` | lab/stanfordCS144/sponge/libsponge/tcp_helpers/ipv4_datagram.cc:11-21 | parsing a whole packet gives header and payload; the header parser accepts exactly what verifies |
| `Ipv4Wire.PseudoChecksumIsSum` | lab/stanfordCS144/sponge/libsponge/tcp_helpers/ipv4_header.cc:114-131 | the shortcut is the word sum of the twelve-byte pseudo-header |
| `Ipv4Layout.PseudoHeaderLayout` | lab/stanfordCS144/sponge/libsponge/tcp_helpers/ipv4_header.cc:114-131 | the pseudo-header byte by byte, and that the shortcut is the sum of its words |
| `Ipv4Codec.ParseIpv4Header` | lab/stanfordCS144/sponge/libsponge/tcp_helpers/ipv4_header.cc:23-75 | each field is the number at its place in the packet; the checks are made in order, each with its own result |
| `Ipv4Codec.SerializeIpv4Header` | lab/stanfordCS144/sponge/libsponge/tcp_helpers/ipv4_header.cc:78-110 | every field at its place, padded to the header length; fails for another version or a short header |
| `Ipv4Codec.ParseIpv4Datagram` | lab/stanfordCS144/sponge/libsponge/tcp_helpers/ipv4_datagram.cc:11-21 | header, rest as payload, and the payload-length check |
| `Ipv4Codec.SerializeIpv4Datagram` | lab/stanfordCS144/sponge/libsponge/tcp_helpers/ipv4_datagram.cc:23-41 | fails on a wrong payload size; otherwise header with computed checksum, then payload |
| `TcpOverIpv4.WrapRoundTrip` | lab/stanfordCS144/sponge/libsponge/tcp_helpers/tcp_over_ip.cc:27-90 | a segment wrapped in a datagram, serialized and parsed arrives intact at both layers, and another adapter takes it out as it went in exactly when addresses and ports are its own, or when it listens and the segment opens a connection; a listening adapter thereby becomes the sender's peer |
| `TcpOverIpv4.TCPOverIPv4Adapter.UnwrapTcpInIp` | lab/stanfordCS144/sponge/libsponge/tcp_helpers/tcp_over_ip.cc:27-71 | the tests on addresses, protocol, checksum and ports in order, and the adoption of a peer while listening |
| `TcpOverIpv4.TakesExactly` | lab/stanfordCS144/sponge/libsponge/tcp_helpers/tcp_over_ip.cc:27-71 | exactly which datagrams give up their segment, by protocol, addresses, ports and the listening state, and how a listening adapter changes |
| `TcpOverIpv4.TCPOverIPv4Adapter.WrapTcpInIp` | lab/stanfordCS144/sponge/libsponge/tcp_helpers/tcp_over_ip.cc:75-90 | sets the ports and puts the serialized segment behind a new header |
| `TcpOverIpv4.HeaderIsFresh` | lab/stanfordCS144/sponge/libsponge/tcp_helpers/tcp_over_ip.cc:80-84 | the header of a wrapped segment, field by field |

## Left out

- `apps/`, the event loop, sockets, TUN/TAP and the file-descriptor adapters: system calls and threads; their place is taken by arbitrary steps of the application and the network.
- Eventual delivery: it needs a fair network. What is proved is that delivery always stays possible.
- Rejection of datagrams with bad headers: the datagram and segment parsers ignore the header parser's verdict, so there is no such promise to prove; an overflowing checksum sum (more than 32 bits) is likewise outside `TcpWire.SegmentRoundTrip`.
- The 64-bit wrap of clocks and byte counters, and the 32-bit wrap of the retransmission counter.
- ARP and Ethernet codecs, `Address`, DNS: same shape as the codecs here and easier; frames carry ready-made records.
- `BufferViewList`, reference counting, printing and debugging output: no behaviour beyond the byte sequence.
- TcpConnectionObjects.TCPConnection.Write: a write after the stream was ended, which the source does not refuse, is outside its contract; the whole protocol takes for granted that there is none.
- RouterObjects.Router.FindRoute: the undefined shift for a prefix longer than 32 bits is outside its contract (`PrefixesOk`); `AddRoute` accepts such a route.
- TcpConnectionObjects.TCPConnection.SendSegments: stamps the whole queue with one reading of the receiver, where the source reads it again for each segment; the receiver does not change in between.
- TcpCodec.ParseTcpHeader: reads its fields in a loop over their widths, where the source has one statement per field.
- Ipv4Codec.ParseIpv4Header: reads its fields in a loop over their widths, where the source has one statement per field.
