# Stream consumer of the push-to-talk app, modelled in Dafny

This project models the receiving side of one audio stream in the NDN push-to-talk
app: `StreamConsumer` and the two engines inside it.

- **StreamFetcher** sends one Interest per segment of the stream. The segment counter
  advances with the time since fetching began, one segment per segment duration.
  - At most 50 Interests are outstanding at once.
  - An expired Interest is retransmitted from a priority queue.
  - A segment whose playback deadline is closer than one round-trip time is skipped.
  - The fetcher closes once the final block id is known and nothing is queued or
    outstanding.
- **StreamPlayerBuffer** splits each segment's payload into ADTS frames and keeps them
  in a jitter buffer ordered by frame number. One frame is resolved per
  `doSomeWork`, once its deadline has passed:
  - the frame is written to the output sink if it is at the head;
  - a silence frame is written if the head is later or the buffer is empty;
  - nothing is written if an earlier frame is stuck at the head.

  Once the final frame's deadline has passed, the buffer writes a final silence
  frame and closes the whole consumer.
- **StreamConsumer** ties the two together:
  - it starts fetching and playback once each;
  - it runs the periodic `doSomeWork`;
  - its `Network` lets each response name through to the fetcher only once.

The model has two layers.

- **Specification functions on values:**
  - `Timing`: durations and deadlines.
  - `Adts`: splitting a payload into frames.
  - `Jitter`: the frame queue and the play decision.
  - `BufferSpec`: the player buffer as a state machine.
  - `FetchSpec`: the fetcher as a state machine.
  - `Transport`: names, packets and the duplicate filter.

  The properties are proved about these functions (`FetchProps` holds the fetcher's).
- **Classes that update their fields in place, as the Java objects do:**
  - `Playback.PlayerBuffer`
  - `Fetching.StreamFetcher`
  - `Transport.Network`
  - `Consumer.StreamConsumer`

  Each method's `ensures` says that its new state is the matching specification
  function applied to the old state. The loops keep their Java shape: the two
  loops of the fetcher's `doSomeWork`, the frame loop of `processAdtsFrames` and
  the index loop of `parseAdtsFrames`. Each loop is proved against the function it
  implements.

Numbers the source writes as `-1` for "unknown" are the constant `UNKNOWN`. Java's
truncating `/` is `JavaDiv`; it matters because frame number -1 reaches the deadline
formula after an empty segment 0.

## Model

All source cells refer to
`app/src/main/java/com/example/ndnpttv2/back_end/sc_module/stream_consumer/StreamConsumer.java`.

| member | source | states |
|---|---|---|
| Timing.JavaDiv | app/src/main/java/com/example/ndnpttv2/back_end/sc_module/stream_consumer/StreamConsumer.java:811 | Java's long division rounds toward zero: bounds on the quotient for both signs of the dividend |
| Timing.MsPerFrame | app/src/main/java/com/example/ndnpttv2/back_end/sc_module/stream_consumer/StreamConsumer.java:845-848 | calculateMsPerFrame: samples per frame times 1000 divided by the sampling rate, in whole milliseconds; never negative |
| Timing.MsPerSeg | app/src/main/java/com/example/ndnpttv2/back_end/sc_module/stream_consumer/StreamConsumer.java:854-857 | calculateMsPerSeg: frames per segment times samples per frame times 1000 divided by the sampling rate, with one division; never negative |
| Timing.DurationsRoundDown | app/src/main/java/com/example/ndnpttv2/back_end/sc_module/stream_consumer/StreamConsumer.java:845-857 | ms per frame and ms per segment are the exact durations rounded down to whole milliseconds; the segment duration is rounded once, not built from the rounded frame duration |
| Timing.PlaybackDeadline | app/src/main/java/com/example/ndnpttv2/back_end/sc_module/stream_consumer/StreamConsumer.java:807-820 | getPlaybackDeadline on values: unknown before the play start is known, otherwise play start + jitter delay + the frame's offset in one truncating division |
| Timing.DeadlineMonotone | app/src/main/java/com/example/ndnpttv2/back_end/sc_module/stream_consumer/StreamConsumer.java:807-820 | a later frame never has an earlier playback deadline |
| Timing.FrameZeroDeadline | app/src/main/java/com/example/ndnpttv2/back_end/sc_module/stream_consumer/StreamConsumer.java:694-696 | frame 0's deadline is the play start plus the jitter delay, both as getPlaybackDeadline computes it and as the cursor starts |
| Timing.CursorDeadlineLag | app/src/main/java/com/example/ndnpttv2/back_end/sc_module/stream_consumer/StreamConsumer.java:733 | the cursor's accumulated deadline for frame n is never later than getPlaybackDeadline(n); the gap is exactly the rounding accumulated by msPerFrame_ |
| Timing.NarrowbandExample | app/src/main/java/com/example/ndnpttv2/back_end/sc_module/stream_consumer/StreamConsumer.java:845-857 | at 8000 Hz a frame lasts 128 ms and a five-frame jitter buffer delays playback by 640 ms |
| Adts.FrameLengthAt | app/src/main/java/com/example/ndnpttv2/back_end/sc_module/stream_consumer/StreamConsumer.java:797-799 | the frame-length field read from a header is below 8192 |
| Adts.FrameLengthBitwise | app/src/main/java/com/example/ndnpttv2/back_end/sc_module/stream_consumer/StreamConsumer.java:797-799 | the source's mask-and-shift expression equals the arithmetic reading of the 13-bit field |
| Adts.CopyOfRange | app/src/main/java/com/example/ndnpttv2/back_end/sc_module/stream_consumer/StreamConsumer.java:800 | Arrays.copyOfRange returns exactly the requested length, zero-padded past the end of the array |
| Adts.ParseSuffix | app/src/main/java/com/example/ndnpttv2/back_end/sc_module/stream_consumer/StreamConsumer.java:794-805 | the frames of a payload suffix: empty gives none, a cut-off header fails, a zero length fails, an overlong last frame is zero-padded, otherwise one frame and the rest |
| Adts.Parse | app/src/main/java/com/example/ndnpttv2/back_end/sc_module/stream_consumer/StreamConsumer.java:794-805 | parseAdtsFrames on values: the split of the whole payload |
| Adts.ParseLoopStep | app/src/main/java/com/example/ndnpttv2/back_end/sc_module/stream_consumer/StreamConsumer.java:796-803 | after each turn of the loop, the frames cut so far followed by the parse of the rest equal the parse of the whole payload |
| Adts.ParseAdtsFrames | app/src/main/java/com/example/ndnpttv2/back_end/sc_module/stream_consumer/StreamConsumer.java:794-805 | the index loop returns exactly what Parse specifies, including the two failure cases |
| Adts.ParseSound | app/src/main/java/com/example/ndnpttv2/back_end/sc_module/stream_consumer/StreamConsumer.java:794-805 | a successful split concatenates back to the payload plus only zero padding; every slice is 1 to 8191 bytes and carries its own length |
| Adts.ParseFlatten | app/src/main/java/com/example/ndnpttv2/back_end/sc_module/stream_consumer/StreamConsumer.java:794-805 | round trip: concatenating well-formed ADTS frames and splitting the result gives back the same frames |
| Adts.TilingIff | app/src/main/java/com/example/ndnpttv2/back_end/sc_module/stream_consumer/StreamConsumer.java:794-805 | a payload is a concatenation of well-formed frames if and only if the split succeeds with no padding and no slice shorter than a header |
| Adts.SilentFrameWellFormed | app/src/main/java/com/example/ndnpttv2/back_end/sc_module/stream_consumer/StreamConsumer.java:822-838 | the silence frame is one well-formed 91-byte ADTS frame that splits back to itself |
| Jitter.SortedHeadMin | app/src/main/java/com/example/ndnpttv2/back_end/sc_module/stream_consumer/StreamConsumer.java:708 | the head of the frame queue is its minimum frame number |
| Jitter.Insert | app/src/main/java/com/example/ndnpttv2/back_end/sc_module/stream_consumer/StreamConsumer.java:765 | PriorityQueue.add keeps the queue ordered, adds exactly the one frame and makes the head the smaller of the old head and the new frame |
| Jitter.Numbered | app/src/main/java/com/example/ndnpttv2/back_end/sc_module/stream_consumer/StreamConsumer.java:763 | frame i of a segment gets number segNum * framesPerSegment + i |
| Jitter.InsertFrames | app/src/main/java/com/example/ndnpttv2/back_end/sc_module/stream_consumer/StreamConsumer.java:761-766 | queueing a segment's frames keeps the queue ordered and grows it by one entry per frame |
| Jitter.InsertFramesContents | app/src/main/java/com/example/ndnpttv2/back_end/sc_module/stream_consumer/StreamConsumer.java:761-766 | queueing a segment's frames adds exactly its numbered frames and removes nothing |
| Jitter.QueueSegment | app/src/main/java/com/example/ndnpttv2/back_end/sc_module/stream_consumer/StreamConsumer.java:761-766 | the frame loop of processAdtsFrames leaves the queue InsertFrames specifies |
| Jitter.Decide | app/src/main/java/com/example/ndnpttv2/back_end/sc_module/stream_consumer/StreamConsumer.java:708-730 | the branch on the jitter-buffer head: empty or a later head gives silence, the cursor frame plays, an earlier head stalls |
| Jitter.DecideByContents | app/src/main/java/com/example/ndnpttv2/back_end/sc_module/stream_consumer/StreamConsumer.java:708-730 | the three-way branch on the head, in terms of the whole queue: play iff the cursor frame is present and nothing is earlier; silence iff every frame is later; stall iff some frame is earlier |
| Jitter.StallPersists | app/src/main/java/com/example/ndnpttv2/back_end/sc_module/stream_consumer/StreamConsumer.java:708-730 | once a frame below the cursor is at the head, advancing the cursor or adding frames never leads to anything but another stall |
| Jitter.PollSorted | app/src/main/java/com/example/ndnpttv2/back_end/sc_module/stream_consumer/StreamConsumer.java:719 | PriorityQueue.poll removes exactly the head and keeps the queue ordered |
| BufferSpec.InitialBuffer | app/src/main/java/com/example/ndnpttv2/back_end/sc_module/stream_consumer/StreamConsumer.java:635-648 | a new buffer is empty and open, its cursor is at frame 0, and the play start and final deadline are unknown |
| BufferSpec.EmitCursorFrame | app/src/main/java/com/example/ndnpttv2/back_end/sc_module/stream_consumer/StreamConsumer.java:708-730 | what is written for the cursor frame: the head with the end-of-stream flag, a silence frame, or nothing, with the matching counter |
| BufferSpec.Resolve | app/src/main/java/com/example/ndnpttv2/back_end/sc_module/stream_consumer/StreamConsumer.java:702-734 | the cursor frame is emitted and the cursor moves on by one frame and one frame duration |
| BufferSpec.PlayDue | app/src/main/java/com/example/ndnpttv2/back_end/sc_module/stream_consumer/StreamConsumer.java:701-751 | a tick on an open, started buffer: resolve the cursor frame once its deadline has passed, then finish with a final silence frame once the final deadline has passed |
| BufferSpec.TickB | app/src/main/java/com/example/ndnpttv2/back_end/sc_module/stream_consumer/StreamConsumer.java:691-752 | StreamPlayerBuffer.doSomeWork on values: nothing before the play start, the frame-0 deadline fixed on the first tick, nothing after close, otherwise PlayDue |
| BufferSpec.SegmentB | app/src/main/java/com/example/ndnpttv2/back_end/sc_module/stream_consumer/StreamConsumer.java:754-779 | processAdtsFrames once the payload is split: frame i queued as segNum*F + i, and a segment of fewer than F frames sets the final frame and its deadline |
| BufferSpec.FinalSegB | app/src/main/java/com/example/ndnpttv2/back_end/sc_module/stream_consumer/StreamConsumer.java:781-792 | receiveFinalSegNum on values: ignored once the final frame or final segment is known, else the deadline of frame (s+1)*F |
| BufferSpec.CursorInv | app/src/main/java/com/example/ndnpttv2/back_end/sc_module/stream_consumer/StreamConsumer.java:694-734 | the cursor invariant: cursor at frame 0 before the first real tick, afterwards its deadline is the frame-0 deadline plus msPerFrame per frame, and played + skipped <= cursor |
| BufferSpec.TickKeepsCursor | app/src/main/java/com/example/ndnpttv2/back_end/sc_module/stream_consumer/StreamConsumer.java:691-734 | a tick keeps the cursor invariant (cursor deadline = frame-0 deadline + msPerFrame per frame, played + skipped <= cursor) and moves the cursor by one exactly when it resolves a frame |
| BufferSpec.TickOnlyAppends | app/src/main/java/com/example/ndnpttv2/back_end/sc_module/stream_consumer/StreamConsumer.java:691-752 | a tick only appends to the output (at most two writes), removes at most the head, and leaves the start time, closed flag and end-of-stream fields alone |
| BufferSpec.TickIdle | app/src/main/java/com/example/ndnpttv2/back_end/sc_module/stream_consumer/StreamConsumer.java:692-699 | before playback starts a tick changes nothing; after close it writes nothing and does not finish |
| BufferSpec.TickEmits | app/src/main/java/com/example/ndnpttv2/back_end/sc_module/stream_consumer/StreamConsumer.java:702-734 | a tick that resolves the cursor frame does what the three-way branch does, with at most the final silence appended |
| BufferSpec.TickPlays | app/src/main/java/com/example/ndnpttv2/back_end/sc_module/stream_consumer/StreamConsumer.java:714-721 | the cursor frame at the head is written with the end-of-stream flag iff the final deadline has passed, and is removed from the queue |
| BufferSpec.TickSkips | app/src/main/java/com/example/ndnpttv2/back_end/sc_module/stream_consumer/StreamConsumer.java:722-729 | a missing cursor frame becomes one silence frame and the skip count goes up; the queue is untouched |
| BufferSpec.TickStalls | app/src/main/java/com/example/ndnpttv2/back_end/sc_module/stream_consumer/StreamConsumer.java:708-734 | a frame below the cursor at the head: nothing is written or removed for the cursor frame and no count changes |
| BufferSpec.TickFinishes | app/src/main/java/com/example/ndnpttv2/back_end/sc_module/stream_consumer/StreamConsumer.java:736-751 | playback finishes iff the buffer is started and open and the final deadline is known and has passed; the last write is then a final silence frame |
| BufferSpec.TickStallIsForever | app/src/main/java/com/example/ndnpttv2/back_end/sc_module/stream_consumer/StreamConsumer.java:708-734 | a stalled player stays stalled on every later tick and plays nothing |
| BufferSpec.SegmentStallIsForever | app/src/main/java/com/example/ndnpttv2/back_end/sc_module/stream_consumer/StreamConsumer.java:754-766 | no segment that arrives later unblocks a stalled player |
| BufferSpec.SegmentNumbering | app/src/main/java/com/example/ndnpttv2/back_end/sc_module/stream_consumer/StreamConsumer.java:754-766 | processAdtsFrames adds exactly the segment's frames under the numbers segNum*F + i, keeps the queue ordered and changes neither the cursor nor the output |
| BufferSpec.SegmentEnd | app/src/main/java/com/example/ndnpttv2/back_end/sc_module/stream_consumer/StreamConsumer.java:770-778 | the end of the stream is recorded exactly when a segment has fewer than F frames, with that frame's deadline, whatever was known before |
| BufferSpec.FinalSegFirstWins | app/src/main/java/com/example/ndnpttv2/back_end/sc_module/stream_consumer/StreamConsumer.java:781-792 | once a final segment number is taken, a second one changes nothing |
| BufferSpec.FinalSegGuard | app/src/main/java/com/example/ndnpttv2/back_end/sc_module/stream_consumer/StreamConsumer.java:781-792 | receiveFinalSegNum takes the number iff neither the final frame nor the final segment is known, with the deadline of frame (s+1)*F; otherwise nothing changes |
| BufferSpec.FinalSegDeadlineCovers | app/src/main/java/com/example/ndnpttv2/back_end/sc_module/stream_consumer/StreamConsumer.java:787-791 | the deadline derived from a final segment number is never earlier than that of the segment's last frame |
| BufferSpec.EndBeforePlayStartIsLost | app/src/main/java/com/example/ndnpttv2/back_end/sc_module/stream_consumer/StreamConsumer.java:770-792 | a short segment received before playback starts leaves the final deadline unknown, and a later final segment number is then ignored, so the buffer never finishes |
| BufferSpec.EmptyFirstSegment | app/src/main/java/com/example/ndnpttv2/back_end/sc_module/stream_consumer/StreamConsumer.java:770-784 | an empty segment 0 records final frame -1, which reads as unknown, so a later final segment number is still accepted |
| Playback.PlayerBuffer.constructor | app/src/main/java/com/example/ndnpttv2/back_end/sc_module/stream_consumer/StreamConsumer.java:667-676 | the new buffer is in InitialBuffer's state |
| Playback.PlayerBuffer.GetPlaybackDeadline | app/src/main/java/com/example/ndnpttv2/back_end/sc_module/stream_consumer/StreamConsumer.java:807-820 | unknown before playback starts; otherwise at least play start + jitter delay + frameNum * msPerFrame |
| Playback.PlayerBuffer.SetStreamPlayStartTime | app/src/main/java/com/example/ndnpttv2/back_end/sc_module/stream_consumer/StreamConsumer.java:678-680 | only the play start changes |
| Playback.PlayerBuffer.Close | app/src/main/java/com/example/ndnpttv2/back_end/sc_module/stream_consumer/StreamConsumer.java:686-689 | only the closed flag changes, and closing twice changes nothing |
| Playback.PlayerBuffer.DoSomeWork | app/src/main/java/com/example/ndnpttv2/back_end/sc_module/stream_consumer/StreamConsumer.java:691-752 | the new state and the finished flag are TickB of the old state |
| Playback.PlayerBuffer.PlayDueFrames | app/src/main/java/com/example/ndnpttv2/back_end/sc_module/stream_consumer/StreamConsumer.java:701-751 | on a started, open buffer the state is PlayDue of the old one |
| Playback.PlayerBuffer.ResolveCursorFrame | app/src/main/java/com/example/ndnpttv2/back_end/sc_module/stream_consumer/StreamConsumer.java:702-734 | the cursor frame is emitted and the cursor moves on by one frame and one frame duration |
| Playback.PlayerBuffer.EmitCursorFrame | app/src/main/java/com/example/ndnpttv2/back_end/sc_module/stream_consumer/StreamConsumer.java:708-730 | play, silence or stall, as the head of the queue decides |
| Playback.PlayerBuffer.ProcessAdtsFrames | app/src/main/java/com/example/ndnpttv2/back_end/sc_module/stream_consumer/StreamConsumer.java:754-779 | ok iff the payload splits; then the state is SegmentB of the frames, and otherwise nothing changes |
| Playback.PlayerBuffer.ReceiveFinalSegNum | app/src/main/java/com/example/ndnpttv2/back_end/sc_module/stream_consumer/StreamConsumer.java:781-792 | the state is FinalSegB of the old one |
| Transport.Admit | app/src/main/java/com/example/ndnpttv2/back_end/sc_module/stream_consumer/StreamConsumer.java:241-246 | a response name passes iff it has not been seen, and it is recorded either way |
| Transport.DuplicateNeverAdmitted | app/src/main/java/com/example/ndnpttv2/back_end/sc_module/stream_consumer/StreamConsumer.java:241-246 | a second response with the same name never passes, whatever arrived in between |
| Transport.AdmitAllGrows | app/src/main/java/com/example/ndnpttv2/back_end/sc_module/stream_consumer/StreamConsumer.java:241-243 | the set of seen names only grows |
| Transport.Network.constructor | app/src/main/java/com/example/ndnpttv2/back_end/sc_module/stream_consumer/StreamConsumer.java:188-200 | no names seen, open, nothing expressed |
| Transport.Network.Close | app/src/main/java/com/example/ndnpttv2/back_end/sc_module/stream_consumer/StreamConsumer.java:202-205 | closed afterwards, nothing else changes |
| Transport.Network.SendInterest | app/src/main/java/com/example/ndnpttv2/back_end/sc_module/stream_consumer/StreamConsumer.java:218-266 | the Interest is appended to what was expressed, even on a closed network |
| Transport.Network.AcceptData | app/src/main/java/com/example/ndnpttv2/back_end/sc_module/stream_consumer/StreamConsumer.java:241-246 | the callback's filter: the outcome and the new seen set are Admit's |
| FetchSpec.RecordCounts | app/src/main/java/com/example/ndnpttv2/back_end/sc_module/stream_consumer/StreamConsumer.java:567-601 | recordPacketEvent: for every event, exactly that event's counter goes up by one and every other counter stays, so the total goes up by one |
| FetchSpec.InitialFetch | app/src/main/java/com/example/ndnpttv2/back_end/sc_module/stream_consumer/StreamConsumer.java:295-321 | nothing queued, outstanding or timed; window cursor and final block unknown |
| FetchSpec.InitialInv | app/src/main/java/com/example/ndnpttv2/back_end/sc_module/stream_consumer/StreamConsumer.java:346-359 | the constructed fetcher satisfies the fetcher invariant |
| FetchSpec.EnqueueContents | app/src/main/java/com/example/ndnpttv2/back_end/sc_module/stream_consumer/StreamConsumer.java:453 | adding to the retransmission queue adds exactly the segment, and the head becomes the smaller of it and the old head |
| FetchSpec.EnqueueAscending | app/src/main/java/com/example/ndnpttv2/back_end/sc_module/stream_consumer/StreamConsumer.java:453 | adding keeps the queue in ascending order |
| FetchSpec.EnqueueIncreasing | app/src/main/java/com/example/ndnpttv2/back_end/sc_module/stream_consumer/StreamConsumer.java:453 | adding a segment that is not queued keeps the queue free of repetitions |
| FetchSpec.RemoveContents | app/src/main/java/com/example/ndnpttv2/back_end/sc_module/stream_consumer/StreamConsumer.java:541 | PriorityQueue.remove takes out one occurrence of the segment and nothing else |
| FetchSpec.RemoveIncreasing | app/src/main/java/com/example/ndnpttv2/back_end/sc_module/stream_consumer/StreamConsumer.java:541 | on a queue without repetitions the removed segment is gone entirely |
| FetchSpec.TransmitF | app/src/main/java/com/example/ndnpttv2/back_end/sc_module/stream_consumer/StreamConsumer.java:417-475 | transmitInterest never touches the queue, the window cursor, the final block or the closed flag |
| FetchSpec.DrainF | app/src/main/java/com/example/ndnpttv2/back_end/sc_module/stream_consumer/StreamConsumer.java:381-386 | the retransmission loop on values: while the queue is not empty and the window has room, take the queue's minimum and retransmit it |
| FetchSpec.GrowF | app/src/main/java/com/example/ndnpttv2/back_end/sc_module/stream_consumer/StreamConsumer.java:390-398 | the window loop on values: while the next segment is due and the window has room, move the cursor on and send that segment as new |
| FetchSpec.TickF | app/src/main/java/com/example/ndnpttv2/back_end/sc_module/stream_consumer/StreamConsumer.java:377-406 | StreamFetcher.doSomeWork on values: nothing when closed; the retransmission loop; the window loop only if the final block is unknown or not reached; close when complete |
| FetchSpec.RtoFireF | app/src/main/java/com/example/ndnpttv2/back_end/sc_module/stream_consumer/StreamConsumer.java:449-457 | the RTO runnable: the segment goes back in the queue, loses its token and its pending timer, and a timeout is counted |
| FetchSpec.AckF | app/src/main/java/com/example/ndnpttv2/back_end/sc_module/stream_consumer/StreamConsumer.java:486-500 | the start of processData: a premature timeout is counted if the segment is queued; an RTT sample is taken and the send time dropped if it is known |
| FetchSpec.SettleF | app/src/main/java/com/example/ndnpttv2/back_end/sc_module/stream_consumer/StreamConsumer.java:533-543 | the end of processData: count the packet, remove the segment from the queue and its token, and cancel its timer; with no token the null token cancels every pending timer |
| FetchSpec.ResponseF | app/src/main/java/com/example/ndnpttv2/back_end/sc_module/stream_consumer/StreamConsumer.java:477-545 | processData on the fetcher: non-segment names ignored; a NACK sets the final block; audio that cannot be split stops after the RTT step; else a segment FinalBlockId sets the final block; then settle |
| FetchSpec.ResponseBufferF | app/src/main/java/com/example/ndnpttv2/back_end/sc_module/stream_consumer/StreamConsumer.java:503-520 | processData on the player buffer: a NACK forwards the final segment number, audio has its frames queued when the payload splits |
| FetchSpec.Inv | app/src/main/java/com/example/ndnpttv2/back_end/sc_module/stream_consumer/StreamConsumer.java:295-321 | the fetcher invariant: the queue ascending without repetitions and disjoint from the tokens, pending timers only for segments with a token, at most 50 tokens, every segment held at most the window cursor |
| FetchProps.TransmitRule | app/src/main/java/com/example/ndnpttv2/back_end/sc_module/stream_consumer/StreamConsumer.java:417-475 | a segment whose deadline is closer than one RTT is only counted as skipped; otherwise exactly one Interest for it, with lifetime 4000 ms or the time left to the deadline (then at least one RTT), a timer armed, the send time recorded on a first send and forgotten on a retransmission |
| FetchProps.TransmitAppends | app/src/main/java/com/example/ndnpttv2/back_end/sc_module/stream_consumer/StreamConsumer.java:417-475 | at most one Interest is sent, none iff the segment is skipped, and one attempt is counted either way |
| FetchProps.DrainFrame | app/src/main/java/com/example/ndnpttv2/back_end/sc_module/stream_consumer/StreamConsumer.java:381-386 | the retransmission loop only appends Interests and consumes a prefix of the queue; the window cursor, final block and closed flag stay |
| FetchProps.DrainStops | app/src/main/java/com/example/ndnpttv2/back_end/sc_module/stream_consumer/StreamConsumer.java:381 | the retransmission loop stops only on an empty queue or a full window |
| FetchProps.DrainInOrder | app/src/main/java/com/example/ndnpttv2/back_end/sc_module/stream_consumer/StreamConsumer.java:381-386 | retransmissions go out in ascending order, none below the old queue head and none above what stays queued |
| FetchProps.DrainFromQueue | app/src/main/java/com/example/ndnpttv2/back_end/sc_module/stream_consumer/StreamConsumer.java:381-386 | every retransmitted segment was in the queue |
| FetchProps.GrowFrame | app/src/main/java/com/example/ndnpttv2/back_end/sc_module/stream_consumer/StreamConsumer.java:390-398 | the window loop only appends Interests, never moves the cursor back or past the due segment, and leaves the queue, final block and closed flag alone |
| FetchProps.GrowCounts | app/src/main/java/com/example/ndnpttv2/back_end/sc_module/stream_consumer/StreamConsumer.java:392-397 | the window cursor moves by exactly the number of new segments attempted, sent or skipped; the loop stops only when the next segment is not due or the window is full |
| FetchProps.GrowInOrder | app/src/main/java/com/example/ndnpttv2/back_end/sc_module/stream_consumer/StreamConsumer.java:392-397 | new segments go out strictly increasing, all after the old cursor and none after the new one |
| FetchProps.TickClosedIsNoop | app/src/main/java/com/example/ndnpttv2/back_end/sc_module/stream_consumer/StreamConsumer.java:379 | a closed fetcher's tick changes nothing |
| FetchProps.TickClosesIff | app/src/main/java/com/example/ndnpttv2/back_end/sc_module/stream_consumer/StreamConsumer.java:400-404 | an open fetcher closes in a tick iff at its end nothing is queued or outstanding and the final block is known; a closed one stays closed |
| FetchProps.DrainClosed | app/src/main/java/com/example/ndnpttv2/back_end/sc_module/stream_consumer/StreamConsumer.java:381-386 | the retransmission loop does not change the closed flag |
| FetchProps.GrowClosed | app/src/main/java/com/example/ndnpttv2/back_end/sc_module/stream_consumer/StreamConsumer.java:390-398 | the window loop does not change the closed flag |
| FetchProps.TickRespectsFinalBlock | app/src/main/java/com/example/ndnpttv2/back_end/sc_module/stream_consumer/StreamConsumer.java:390-391 | a tick that starts at or past a known final block sends no new segment; every Interest it sends is a queued retransmission |
| FetchProps.GrowOvershootsFinalBlock | app/src/main/java/com/example/ndnpttv2/back_end/sc_module/stream_consumer/StreamConsumer.java:390-398 | the window loop does not check the final block again once it runs: with final block 0 it can send segments 0 to 3 in one tick |
| FetchProps.TransmitKeepsInv | app/src/main/java/com/example/ndnpttv2/back_end/sc_module/stream_consumer/StreamConsumer.java:417-475 | sending a segment already counted, not queued, with room in the window keeps the fetcher invariant |
| FetchProps.DrainKeepsInv | app/src/main/java/com/example/ndnpttv2/back_end/sc_module/stream_consumer/StreamConsumer.java:381-386 | the retransmission loop keeps the fetcher invariant |
| FetchProps.GrowKeepsInv | app/src/main/java/com/example/ndnpttv2/back_end/sc_module/stream_consumer/StreamConsumer.java:390-398 | the window loop keeps the fetcher invariant |
| FetchProps.TickKeepsInv | app/src/main/java/com/example/ndnpttv2/back_end/sc_module/stream_consumer/StreamConsumer.java:377-406 | a tick keeps the invariant: the queue strictly ascending and disjoint from the armed timers, at most 50 Interests outstanding, every segment held has been counted |
| FetchProps.RtoMovesToQueue | app/src/main/java/com/example/ndnpttv2/back_end/sc_module/stream_consumer/StreamConsumer.java:449-457 | the pending timer of an outstanding segment moves exactly that segment from the tokens to the queue, removes that one timer and counts a timeout, keeping the invariant |
| FetchProps.AckFacts | app/src/main/java/com/example/ndnpttv2/back_end/sc_module/stream_consumer/StreamConsumer.java:486-500 | a premature timeout is counted iff the segment is queued; an RTT sample is taken iff a send time is known, and the send time is then forgotten |
| FetchProps.SettleFacts | app/src/main/java/com/example/ndnpttv2/back_end/sc_module/stream_consumer/StreamConsumer.java:533-543 | the segment leaves the queue (one occurrence) and loses its token; its timer is cancelled, and if it had no token every pending timer is cancelled; nothing else but its counter changes |
| FetchProps.ResponseMeasures | app/src/main/java/com/example/ndnpttv2/back_end/sc_module/stream_consumer/StreamConsumer.java:486-500 | for a whole processData: premature-timeout count and RTT sample exactly as above, and the segment's send time is gone |
| FetchProps.ResponseSettles | app/src/main/java/com/example/ndnpttv2/back_end/sc_module/stream_consumer/StreamConsumer.java:502-543 | a NACK sets the final block to its payload; audio sets it from a segment FinalBlockId and leaves it otherwise; afterwards the segment is neither queued nor outstanding, unless the payload could not be split, which leaves queue, timers and final block as they were |
| FetchProps.ResponseIgnoresOtherNames | app/src/main/java/com/example/ndnpttv2/back_end/sc_module/stream_consumer/StreamConsumer.java:478-484 | a response whose last name component is not a segment changes nothing |
| FetchProps.ResponseKeepsInv | app/src/main/java/com/example/ndnpttv2/back_end/sc_module/stream_consumer/StreamConsumer.java:477-545 | processData keeps the fetcher invariant |
| FetchProps.SettleKeepsInv | app/src/main/java/com/example/ndnpttv2/back_end/sc_module/stream_consumer/StreamConsumer.java:541-543 | the end of processData keeps the fetcher invariant |
| FetchProps.ResponseCancelsTimers | app/src/main/java/com/example/ndnpttv2/back_end/sc_module/stream_consumer/StreamConsumer.java:533-543 | a response that settles its segment removes its token and cancels its timer, or every timer when it had no token (always the case for a queued segment); one that does not settle leaves tokens and timers alone |
| FetchProps.DrainKeepsStranded | app/src/main/java/com/example/ndnpttv2/back_end/sc_module/stream_consumer/StreamConsumer.java:381-386 | a segment with a token but no pending timer keeps both through the retransmission loop |
| FetchProps.GrowKeepsStranded | app/src/main/java/com/example/ndnpttv2/back_end/sc_module/stream_consumer/StreamConsumer.java:390-398 | the same through the window loop |
| FetchProps.TickKeepsStranded | app/src/main/java/com/example/ndnpttv2/back_end/sc_module/stream_consumer/StreamConsumer.java:377-406 | a stranded segment stays stranded through every tick, and the tick never closes an open fetcher (tokens stay non-empty) |
| FetchProps.OthersKeepStranded | app/src/main/java/com/example/ndnpttv2/back_end/sc_module/stream_consumer/StreamConsumer.java:477-545 | a response or an RTO timer for another segment keeps a segment stranded, as long as the response is not for it |
| FetchProps.PrematureRtoStrandsSegment | app/src/main/java/com/example/ndnpttv2/back_end/sc_module/stream_consumer/StreamConsumer.java:541-543 | a premature timeout of segment 7 with segment 8 outstanding, then the late response for 7: the null-token cancel removes 8's timer, so 8 keeps its token with no timer left to retransmit it |
| Fetching.StreamFetcher.constructor | app/src/main/java/com/example/ndnpttv2/back_end/sc_module/stream_consumer/StreamConsumer.java:346-359 | the new fetcher is in InitialFetch's state |
| Fetching.StreamFetcher.SetStreamFetchStartTime | app/src/main/java/com/example/ndnpttv2/back_end/sc_module/stream_consumer/StreamConsumer.java:361-363 | only the fetch start changes |
| Fetching.StreamFetcher.Close | app/src/main/java/com/example/ndnpttv2/back_end/sc_module/stream_consumer/StreamConsumer.java:369-375 | only the closed flag changes, and closing twice changes nothing |
| Fetching.StreamFetcher.TransmitInterest | app/src/main/java/com/example/ndnpttv2/back_end/sc_module/stream_consumer/StreamConsumer.java:417-475 | the new state, including what the network expressed and the timer posted, is TransmitF of the old one |
| Fetching.StreamFetcher.DrainRetransmissions | app/src/main/java/com/example/ndnpttv2/back_end/sc_module/stream_consumer/StreamConsumer.java:381-386 | the retransmission loop leaves DrainF of the old state |
| Fetching.StreamFetcher.GrowWindow | app/src/main/java/com/example/ndnpttv2/back_end/sc_module/stream_consumer/StreamConsumer.java:390-398 | the window loop leaves GrowF of the old state |
| Fetching.StreamFetcher.AdvanceWindow | app/src/main/java/com/example/ndnpttv2/back_end/sc_module/stream_consumer/StreamConsumer.java:393-396 | one turn of the window loop: the cursor moves on by one and that segment is transmitted as new |
| Fetching.StreamFetcher.DoSomeWork | app/src/main/java/com/example/ndnpttv2/back_end/sc_module/stream_consumer/StreamConsumer.java:377-406 | the new state is TickF of the old one; the network stays open or closed as it was |
| Fetching.StreamFetcher.RtoTimer | app/src/main/java/com/example/ndnpttv2/back_end/sc_module/stream_consumer/StreamConsumer.java:449-457 | the new state is RtoFireF of the old one: the fired timer is no longer pending |
| Fetching.StreamFetcher.ProcessData | app/src/main/java/com/example/ndnpttv2/back_end/sc_module/stream_consumer/StreamConsumer.java:477-545 | the fetcher's new state is ResponseF and the buffer's is ResponseBufferF of the old ones, including the timers cancelled at the end (all of them when the segment had no token) |
| Fetching.StreamFetcher.Acknowledge | app/src/main/java/com/example/ndnpttv2/back_end/sc_module/stream_consumer/StreamConsumer.java:486-500 | the new state is AckF of the old one |
| Fetching.StreamFetcher.ReceiveNack | app/src/main/java/com/example/ndnpttv2/back_end/sc_module/stream_consumer/StreamConsumer.java:503-509 | the final block is the NACK's payload, the buffer gets the final segment number, and the segment is settled as SettleF says, cancel-all of timers included |
| Fetching.StreamFetcher.ReceiveAudio | app/src/main/java/com/example/ndnpttv2/back_end/sc_module/stream_consumer/StreamConsumer.java:510-520 | an unsplittable payload changes nothing; otherwise the frames are queued, the final block is taken from a segment FinalBlockId, and the segment is settled as SettleF says, cancel-all of timers included |
| Fetching.StreamFetcher.Settle | app/src/main/java/com/example/ndnpttv2/back_end/sc_module/stream_consumer/StreamConsumer.java:533-543 | the new state is SettleF of the old one: with a token only the segment's timer is cancelled, without one every pending timer is |
| Consumer.WorkF | app/src/main/java/com/example/ndnpttv2/back_end/sc_module/stream_consumer/StreamConsumer.java:116-122 | the consumer's doSomeWork on values: the fetcher's tick with the buffer's deadlines, then the buffer's tick; a finished playback closes fetcher and buffer |
| Consumer.WorkKeepsInvariants | app/src/main/java/com/example/ndnpttv2/back_end/sc_module/stream_consumer/StreamConsumer.java:116-122 | the consumer's doSomeWork keeps the fetcher invariant and the cursor invariant, never has more than 50 Interests outstanding and does not move the play start |
| Consumer.WorkFinishes | app/src/main/java/com/example/ndnpttv2/back_end/sc_module/stream_consumer/StreamConsumer.java:736-751 | the consumer finishes iff playback started, the buffer is open and the final deadline has passed; then fetcher and buffer are closed and the last write is a final silence frame |
| Consumer.WorkAfterCloseIsQuiet | app/src/main/java/com/example/ndnpttv2/back_end/sc_module/stream_consumer/StreamConsumer.java:105-122 | after close, doSomeWork sends nothing, writes nothing and does not finish again |
| Consumer.ResponseKeepsCursor | app/src/main/java/com/example/ndnpttv2/back_end/sc_module/stream_consumer/StreamConsumer.java:754-792 | a response keeps the frame queue ordered and the cursor invariant, and does not touch the play start, the cursor or the output |
| Consumer.StreamConsumer.constructor | app/src/main/java/com/example/ndnpttv2/back_end/sc_module/stream_consumer/StreamConsumer.java:149-172 | the three parts are created in their initial states and nothing has started |
| Consumer.StreamConsumer.Close | app/src/main/java/com/example/ndnpttv2/back_end/sc_module/stream_consumer/StreamConsumer.java:105-114 | fetcher, network and buffer are closed and no work is scheduled any more |
| Consumer.StreamConsumer.DoSomeWork | app/src/main/java/com/example/ndnpttv2/back_end/sc_module/stream_consumer/StreamConsumer.java:116-128 | the fetcher and buffer states are WorkF's; the consumer closes iff playback finished; the next doSomeWork is scheduled iff the consumer is still open |
| Consumer.StreamConsumer.StreamFetchStart | app/src/main/java/com/example/ndnpttv2/back_end/sc_module/stream_consumer/StreamConsumer.java:130-137 | the first call sets the fetch start and runs doSomeWork; later calls change nothing |
| Consumer.StreamConsumer.StreamPlayStart | app/src/main/java/com/example/ndnpttv2/back_end/sc_module/stream_consumer/StreamConsumer.java:139-145 | the first call sets the play start; later calls change nothing; the fetcher, the fetch-start flag and the work schedule are never touched |
| Consumer.StreamConsumer.OnData | app/src/main/java/com/example/ndnpttv2/back_end/sc_module/stream_consumer/StreamConsumer.java:238-261 | a response reaches the fetcher iff the network is open and its name has not been seen; if it does, fetcher and buffer change as processData specifies, and otherwise they do not change |
| Consumer.StreamConsumer.OnRtoTimer | app/src/main/java/com/example/ndnpttv2/back_end/sc_module/stream_consumer/StreamConsumer.java:449-457 | only a pending timer can fire; it queues its segment, which then has neither a token nor a pending timer |

## Left out

- The RTT estimator (`RttEstimator`) is not part of this model. Each operation that
  needs the average RTT takes it as the parameter `avgRtt`. The RTO value and the time
  a retransmission timer fires are not modelled: a timer is an event that may fire
  at any time while it is pending (`OnRtoTimer`), also after close. A timer is pending
  from the transmission that posts it until it fires or a response cancels it.
- `CwndCalculator` is not part of this model. Its window is the constant 50 (`MAX_CWND`).
- The Android handler and looper are left out: message queues, `postAtTime` and thread
  start-up. `removeCallbacksAndMessages` is kept only as its effect on the set of
  pending timers. Scheduling the next `doSomeWork` is the flag `workScheduled`.
- Timer expiries, response callbacks, `doSomeWork` and the start messages are
  separate, atomic method calls in some interleaving. The source does not serialise
  them. The fetcher's handler is built on the main looper (line 169), so the RTO
  runnable (lines 449-457) runs on the main thread. `processData` and `doSomeWork`
  run on the consumer's thread. Both threads change the unsynchronised
  `PriorityQueue` and `HashMap`. Data races between them are not modelled.
- `Jitter.Insert`: frames with equal frame numbers are kept in arrival order. Java's
  `PriorityQueue` does not specify the order of equal elements. The model fixes one
  of the orders the source allows, so it promises more than the source.
- Clocks are parameters. Each `doSomeWork` and each `transmitInterest` reads one time
  `now`; the source re-reads the wall clock inside a tick.
- Logging, UI events (`notifyUiEvent`) and `printState` are left out, and so is the
  `retransmits` set of `Network.sendInterest`, which only feeds a log line.
- The key chain, the face and `Network.doSomeWork` (`processEvents`) are left out.
  Received responses arrive through `OnData`.
- Interests are reduced to segment number and lifetime; the stream name, `canBePrefix`
  and `mustBeFresh` are not modelled.
- Responses are reduced to their last name component and payload.
  - The NACK payload is already decoded: `Helpers.bytesToLong` is not part of this model.
  - A FinalBlockId that is not a segment is ignored, as the source's empty catch does.
- Java `long` and `int` overflow is not modelled; integers are unbounded.
- `Constants.SAMPLES_PER_ADTS_FRAME` (1024) is the option `samplesPerFrame`.
  `ValidOptions` requires a positive segment duration, which the source divides by.
- Payload splitting has two failure cases.
  - A header cut off by the end of the payload throws an array-index exception in
    the source. It becomes `Err(HeaderOutOfBounds)`.
  - A frame-length field of 0 makes the source's loop run forever. It becomes
    `Err(NoProgress)`.

  In both cases processData ends at that point: the RTT and premature-timeout
  steps have already run. Where the exception goes after that is not modelled.
- The checks of `closed_` inside the fetcher's two loops are left out. No step inside
  a loop can close the fetcher, so they never fire.
- The counters of `recordPacketEvent` are one `Counters` value.
- The output sink (`InputStreamDataSource`) is the sequence of writes `output`.
- Behaviour the model keeps as written, with a lemma stating it:
  - the RTO timer does not clear the segment's send time;
  - a response for a segment with no token cancels every pending retransmission
    timer, which can leave an outstanding segment with no timer, so the fetcher
    never closes itself; only the consumer's close, once playback finishes, closes
    it (`PrematureRtoStrandsSegment`, `TickKeepsStranded`, `WorkFinishes`);
  - the window loop can go past a final block learned earlier (`GrowOvershootsFinalBlock`);
  - `processAdtsFrames` overwrites the final frame number however it was known;
  - an end of stream seen before playback starts is lost (`EndBeforePlayStartIsLost`);
  - a final segment number gives the deadline of frame (s+1)*F, one frame after the
    segment's last frame;
  - at most one frame is resolved per tick;
  - a frame below the cursor at the head blocks playback for good (`TickStallIsForever`).
