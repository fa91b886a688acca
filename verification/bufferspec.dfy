/** The player buffer (StreamPlayerBuffer) as a state machine on values: its state, one
    tick of doSomeWork, the arrival of a segment's frames and of the final segment
    number, and what is proved about them. The class Playback.PlayerBuffer performs the
    same steps in place and is proved equal to these functions. */
module BufferSpec {
  import opened Timing
  import opened Adts
  import opened Jitter

  /** One call of InputStreamDataSource.write: the bytes and the end-of-stream flag. */
  datatype SinkWrite = SinkWrite(data: seq<byte>, isFinal: bool)

  /** The fields of StreamPlayerBuffer, plus the writes made so far to the sink. */
  datatype BufferState = BufferState(
    jitter: seq<Frame>,
    closed: bool,
    cursor: int,                  // highestFrameNumPlayed_
    cursorDeadline: int,          // highestFrameNumPlayedDeadline_
    finalSegNum: int,
    finalFrameNum: int,
    finalFrameNumDeadline: int,
    playStart: int,               // streamPlayStartTime_
    firstReal: bool,              // firstRealDoSomeWork_
    framesSkipped: nat,
    framesPlayed: nat,
    output: seq<SinkWrite>)

  /** The state the constructor leaves: everything unknown, cursor at frame 0; the cursor
      deadline field has Java's default value 0 until the first real tick sets it. */
  function InitialBuffer(): (st: BufferState)
    ensures st.jitter == [] && st.cursor == 0 && st.firstReal && !st.closed
    ensures st.playStart == UNKNOWN && st.finalFrameNumDeadline == UNKNOWN
  {
    BufferState([], false, 0, 0, UNKNOWN, UNKNOWN, UNKNOWN, UNKNOWN, true, 0, 0, [])
  }

  /** The result of one tick: the new state and whether playback has finished, in which
      case the buffer has asked the whole consumer to close. */
  datatype TickOutcome = TickOutcome(state: BufferState, finished: bool)

  /** Whether a write at time `now` carries the end-of-stream flag. */
  predicate PastFinalDeadline(st: BufferState, now: int) {
    st.finalFrameNumDeadline != UNKNOWN && now > st.finalFrameNumDeadline
  }

  /** The cursor frame's deadline has passed: play it, write silence for it, or (a frame
      below the cursor at the head) write nothing. */
  function EmitCursorFrame(st: BufferState, now: int): BufferState {
    var isFinal := PastFinalDeadline(st, now);
    match Decide(st.jitter, st.cursor)
    case Play =>
      st.(framesPlayed := st.framesPlayed + 1,
          output := st.output + [SinkWrite(st.jitter[0].data, isFinal)],
          jitter := st.jitter[1..])
    case Silence =>
      st.(framesSkipped := st.framesSkipped + 1,
          output := st.output + [SinkWrite(SilentFrame(), isFinal)])
    case Stall => st
  }

  /** ... and then move the cursor to the next frame, one frame duration later. */
  function Resolve(o: Options, st: BufferState, now: int): BufferState
    requires o.producerSamplingRate > 0 && o.samplesPerFrame > 0
  {
    EmitCursorFrame(st, now).(cursor := st.cursor + 1, cursorDeadline := st.cursorDeadline + MsPerFrame(o))
  }

  /** The first tick after playback has started fixes the frame-0 deadline. */
  function StartCursor(o: Options, st: BufferState): BufferState
    requires o.producerSamplingRate > 0 && o.samplesPerFrame > 0
  {
    if st.firstReal then st.(cursorDeadline := st.playStart + JitterDelay(o), firstReal := false)
    else st
  }

  /** The part of a tick on an open, started buffer: resolve the cursor frame if its
      deadline has passed, then finish if the final deadline has passed. */
  function PlayDue(o: Options, st: BufferState, now: int): TickOutcome
    requires o.producerSamplingRate > 0 && o.samplesPerFrame > 0
  {
    var st2 := if now > st.cursorDeadline then Resolve(o, st, now) else st;
    if PastFinalDeadline(st2, now) then
      TickOutcome(st2.(output := st2.output + [SinkWrite(SilentFrame(), true)]), true)
    else TickOutcome(st2, false)
  }

  /** StreamPlayerBuffer.doSomeWork at time `now`. */
  function TickB(o: Options, st: BufferState, now: int): TickOutcome
    requires o.producerSamplingRate > 0 && o.samplesPerFrame > 0
  {
    if st.playStart == UNKNOWN then TickOutcome(st, false)
    else
      var st1 := StartCursor(o, st);
      if st1.closed then TickOutcome(st1, false)
      else PlayDue(o, st1, now)
  }

  /** processAdtsFrames once the payload has been split into `fs`: frame i of segment
      `segNum` is queued as frame segNum*F + i, and a segment with fewer than F frames
      marks the end of the stream, without looking at what was known before. */
  function SegmentB(o: Options, st: BufferState, fs: seq<seq<byte>>, segNum: int): BufferState
    requires o.producerSamplingRate > 0 && o.samplesPerFrame > 0
    requires Sorted(st.jitter)
  {
    var base := segNum * o.framesPerSegment;
    var st1 := st.(jitter := InsertFrames(st.jitter, fs, |fs|, base));
    if |fs| < o.framesPerSegment then
      var last := base + |fs| - 1;
      st1.(finalFrameNum := last, finalFrameNumDeadline := PlaybackDeadline(o, st.playStart, last))
    else st1
  }

  /** receiveFinalSegNum: ignored once the final frame or the final segment is known;
      otherwise the deadline assumes the final segment was full. */
  function FinalSegB(o: Options, st: BufferState, finalSeg: int): BufferState
    requires o.producerSamplingRate > 0 && o.samplesPerFrame > 0
  {
    if st.finalFrameNum != UNKNOWN || st.finalSegNum != UNKNOWN then st
    else
      st.(finalSegNum := finalSeg,
          finalFrameNumDeadline :=
            PlaybackDeadline(o, st.playStart, finalSeg * o.framesPerSegment + o.framesPerSegment))
  }

  /** The cursor invariant: before the first real tick the cursor is at frame 0; after
      it, playback has started and the cursor's deadline is the frame-0 deadline plus
      one frame duration per frame resolved. */
  predicate CursorInv(o: Options, st: BufferState)
    requires o.producerSamplingRate > 0 && o.samplesPerFrame > 0
  {
    && (st.firstReal ==> st.cursor == 0)
    && (!st.firstReal ==> st.playStart != UNKNOWN && st.cursorDeadline == CursorDeadline(o, st.playStart, st.cursor))
    && st.framesPlayed + st.framesSkipped <= st.cursor
  }

  /** The cursor deadline a tick compares `now` against. */
  function EffectiveDeadline(o: Options, st: BufferState): int
    requires o.producerSamplingRate > 0 && o.samplesPerFrame > 0
  {
    if st.firstReal then st.playStart + JitterDelay(o) else st.cursorDeadline
  }

  /** Whether a tick resolves the cursor frame: playback has started, the buffer is open
      and the cursor deadline has passed. */
  predicate Resolves(o: Options, st: BufferState, now: int)
    requires o.producerSamplingRate > 0 && o.samplesPerFrame > 0
  {
    st.playStart != UNKNOWN && !st.closed && now > EffectiveDeadline(o, st)
  }

  /** A tick keeps the cursor invariant, and moves the cursor by exactly one frame when
      it resolves the cursor frame and not at all otherwise. */
  lemma TickKeepsCursor(o: Options, st: BufferState, now: int)
    requires o.producerSamplingRate > 0 && o.samplesPerFrame > 0
    requires CursorInv(o, st)
    ensures CursorInv(o, TickB(o, st, now).state)
    ensures TickB(o, st, now).state.cursor == if Resolves(o, st, now) then st.cursor + 1 else st.cursor
  {
    if Resolves(o, st, now) {
      assert CursorDeadline(o, st.playStart, st.cursor + 1) == CursorDeadline(o, st.playStart, st.cursor) + MsPerFrame(o);
    }
  }

  /** A tick never rewrites what was written, never learns anything about the end of the
      stream or the start time, and writes at most two frames: the cursor frame's and the
      final silence. */
  lemma TickOnlyAppends(o: Options, st: BufferState, now: int)
    requires o.producerSamplingRate > 0 && o.samplesPerFrame > 0
    ensures var r := TickB(o, st, now).state;
      && |st.output| <= |r.output| <= |st.output| + 2
      && r.output[..|st.output|] == st.output
      && r.playStart == st.playStart && r.closed == st.closed
      && r.finalSegNum == st.finalSegNum && r.finalFrameNum == st.finalFrameNum
      && r.finalFrameNumDeadline == st.finalFrameNumDeadline
      && (r.jitter == st.jitter || (st.jitter != [] && r.jitter == st.jitter[1..]))
  {
    if Resolves(o, st, now) {
      TickEmits(o, st, now);
    }
  }

  /** Nothing happens before playback has started; after close a tick only performs the
      one-time cursor initialisation. */
  lemma TickIdle(o: Options, st: BufferState, now: int)
    requires o.producerSamplingRate > 0 && o.samplesPerFrame > 0
    requires st.playStart == UNKNOWN || st.closed
    ensures var r := TickB(o, st, now);
      && !r.finished
      && r.state.jitter == st.jitter && r.state.output == st.output && r.state.cursor == st.cursor
      && (st.playStart == UNKNOWN ==> r.state == st)
  {
  }

  /** A tick that resolves the cursor frame leaves what EmitCursorFrame leaves, with the
      cursor moved on and possibly the final silence appended. */
  lemma TickEmits(o: Options, st: BufferState, now: int)
    requires o.producerSamplingRate > 0 && o.samplesPerFrame > 0
    requires Resolves(o, st, now)
    ensures var r := TickB(o, st, now).state;
      var e := EmitCursorFrame(st, now);
      && r.jitter == e.jitter && r.framesPlayed == e.framesPlayed && r.framesSkipped == e.framesSkipped
      && (r.output == e.output || r.output == e.output + [SinkWrite(SilentFrame(), true)])
  {
  }

  /** The cursor frame is at the head: it is written, with the end-of-stream flag when the
      final deadline has passed, and removed from the queue. */
  lemma TickPlays(o: Options, st: BufferState, now: int)
    requires o.producerSamplingRate > 0 && o.samplesPerFrame > 0
    requires Sorted(st.jitter) && Resolves(o, st, now) && Decide(st.jitter, st.cursor) == Play
    ensures var r := TickB(o, st, now).state;
      && st.jitter[0].frameNum == st.cursor
      && multiset(r.jitter) + multiset{st.jitter[0]} == multiset(st.jitter)
      && r.output[|st.output|] == SinkWrite(st.jitter[0].data, PastFinalDeadline(st, now))
      && r.framesPlayed == st.framesPlayed + 1 && r.framesSkipped == st.framesSkipped
  {
    TickEmits(o, st, now);
    PollSorted(st.jitter);
  }

  /** The queue is empty or its head is later than the cursor: a silence frame is written
      in the cursor frame's place and the queue is left alone. */
  lemma TickSkips(o: Options, st: BufferState, now: int)
    requires o.producerSamplingRate > 0 && o.samplesPerFrame > 0
    requires Resolves(o, st, now) && Decide(st.jitter, st.cursor) == Silence
    ensures var r := TickB(o, st, now).state;
      && r.jitter == st.jitter
      && r.output[|st.output|] == SinkWrite(SilentFrame(), PastFinalDeadline(st, now))
      && r.framesPlayed == st.framesPlayed && r.framesSkipped == st.framesSkipped + 1
  {
    TickEmits(o, st, now);
  }

  /** A frame below the cursor is at the head: nothing is written for the cursor frame,
      nothing is removed, and the cursor still moves on. */
  lemma TickStalls(o: Options, st: BufferState, now: int)
    requires o.producerSamplingRate > 0 && o.samplesPerFrame > 0
    requires Resolves(o, st, now) && Decide(st.jitter, st.cursor) == Stall
    ensures var r := TickB(o, st, now).state;
      && r.jitter == st.jitter
      && (r.output == st.output || r.output == st.output + [SinkWrite(SilentFrame(), true)])
      && r.framesPlayed == st.framesPlayed && r.framesSkipped == st.framesSkipped
  {
    TickEmits(o, st, now);
  }

  /** Playback finishes exactly when the buffer is started and open and the final
      deadline is known and has passed; the last write is then a final silence frame. */
  lemma TickFinishes(o: Options, st: BufferState, now: int)
    requires o.producerSamplingRate > 0 && o.samplesPerFrame > 0
    ensures var r := TickB(o, st, now);
      && (r.finished <==> st.playStart != UNKNOWN && !st.closed && PastFinalDeadline(st, now))
      && (r.finished ==> r.state.output[|r.state.output| - 1] == SinkWrite(SilentFrame(), true))
  {
  }

  /** Once a frame below the cursor sits at the head, the player is stuck: every later
      tick leaves it stalled and plays nothing. */
  lemma TickStallIsForever(o: Options, st: BufferState, now: int)
    requires o.producerSamplingRate > 0 && o.samplesPerFrame > 0
    requires Sorted(st.jitter) && Decide(st.jitter, st.cursor) == Stall
    ensures var r := TickB(o, st, now).state;
      Sorted(r.jitter) && Decide(r.jitter, r.cursor) == Stall && r.framesPlayed == st.framesPlayed
  {
    var r := TickB(o, st, now).state;
    assert r.jitter == st.jitter && st.cursor <= r.cursor && r.framesPlayed == st.framesPlayed;
    StallPersists(st.jitter, st.cursor, Frame(0, []), r.cursor);
  }

  /** ... and no segment that arrives later unblocks it. */
  lemma SegmentStallIsForever(o: Options, st: BufferState, fs: seq<seq<byte>>, segNum: int)
    requires o.producerSamplingRate > 0 && o.samplesPerFrame > 0
    requires Sorted(st.jitter) && Decide(st.jitter, st.cursor) == Stall
    ensures var r := SegmentB(o, st, fs, segNum); Decide(r.jitter, r.cursor) == Stall
  {
    var base := segNum * o.framesPerSegment;
    var r := SegmentB(o, st, fs, segNum);
    assert r.jitter == InsertFrames(st.jitter, fs, |fs|, base) && r.cursor == st.cursor;
    StallInsertFrames(st.jitter, st.cursor, fs, |fs|, base);
  }

  lemma {:induction false} StallInsertFrames(h: seq<Frame>, cursor: int, fs: seq<seq<byte>>, n: nat, base: int)
    requires Sorted(h) && Decide(h, cursor) == Stall && n <= |fs|
    ensures Decide(InsertFrames(h, fs, n, base), cursor) == Stall
    decreases n
  {
    if n > 0 {
      StallInsertFrames(h, cursor, fs, n - 1, base);
      StallPersists(InsertFrames(h, fs, n - 1, base), cursor, Frame(base + n - 1, fs[n - 1]), cursor);
    }
  }

  /** A segment's frames are queued under the numbers segNum*F + i and nothing is
      removed or otherwise changed. */
  lemma SegmentNumbering(o: Options, st: BufferState, fs: seq<seq<byte>>, segNum: int)
    requires o.producerSamplingRate > 0 && o.samplesPerFrame > 0
    requires Sorted(st.jitter)
    ensures var r := SegmentB(o, st, fs, segNum);
      && Sorted(r.jitter)
      && multiset(r.jitter) == multiset(st.jitter) + multiset(Numbered(fs, segNum * o.framesPerSegment))
      && r.cursor == st.cursor && r.output == st.output && r.finalSegNum == st.finalSegNum
  {
    var base := segNum * o.framesPerSegment;
    var r := SegmentB(o, st, fs, segNum);
    assert r.jitter == InsertFrames(st.jitter, fs, |fs|, base);
    InsertFramesContents(st.jitter, fs, |fs|, base);
    assert Numbered(fs, base)[..|fs|] == Numbered(fs, base);
  }

  /** The end of the stream is recorded exactly when the segment is short, whatever was
      known before. */
  lemma SegmentEnd(o: Options, st: BufferState, fs: seq<seq<byte>>, segNum: int)
    requires o.producerSamplingRate > 0 && o.samplesPerFrame > 0
    requires Sorted(st.jitter)
    ensures var r := SegmentB(o, st, fs, segNum);
      var last := segNum * o.framesPerSegment + |fs| - 1;
      if |fs| < o.framesPerSegment
      then r.finalFrameNum == last && r.finalFrameNumDeadline == PlaybackDeadline(o, st.playStart, last)
      else r.finalFrameNum == st.finalFrameNum && r.finalFrameNumDeadline == st.finalFrameNumDeadline
  {
  }

  /** First writer wins: a second final segment number changes nothing. */
  lemma FinalSegFirstWins(o: Options, st: BufferState, a: int, b: int)
    requires o.producerSamplingRate > 0 && o.samplesPerFrame > 0
    requires a != UNKNOWN
    ensures FinalSegB(o, FinalSegB(o, st, a), b) == FinalSegB(o, st, a)
  {
  }

  /** The final segment number is taken exactly when neither the final frame nor the
      final segment is known, and nothing but those two fields changes. */
  lemma FinalSegGuard(o: Options, st: BufferState, s: int)
    requires o.producerSamplingRate > 0 && o.samplesPerFrame > 0
    ensures var r := FinalSegB(o, st, s);
      && r.jitter == st.jitter && r.cursor == st.cursor && r.finalFrameNum == st.finalFrameNum
      && (r.finalSegNum == s && r.finalFrameNumDeadline ==
            PlaybackDeadline(o, st.playStart, (s + 1) * o.framesPerSegment)
          <== st.finalFrameNum == UNKNOWN && st.finalSegNum == UNKNOWN)
      && (r == st <== st.finalFrameNum != UNKNOWN || st.finalSegNum != UNKNOWN)
  {
    assert s * o.framesPerSegment + o.framesPerSegment == (s + 1) * o.framesPerSegment;
  }

  /** The deadline derived from a final segment number is never earlier than that of the
      segment's last frame had the segment been full (it is one frame later). */
  lemma FinalSegDeadlineCovers(o: Options, st: BufferState, s: int)
    requires o.producerSamplingRate > 0 && o.samplesPerFrame > 0 && o.framesPerSegment > 0
    requires st.finalFrameNum == UNKNOWN && st.finalSegNum == UNKNOWN
    ensures var last := s * o.framesPerSegment + o.framesPerSegment - 1;
      FinalSegB(o, st, s).finalFrameNumDeadline >= PlaybackDeadline(o, st.playStart, last)
  {
    var last := s * o.framesPerSegment + o.framesPerSegment - 1;
    DeadlineMonotone(o, st.playStart, last, last + 1);
  }

  /** A short segment that arrives before playback has started records the final frame
      but an unknown deadline; the final segment number is then ignored, so as long as no
      further short segment arrives the stream never finishes, however late the clock. */
  lemma EndBeforePlayStartIsLost(o: Options, st: BufferState, fs: seq<seq<byte>>, segNum: int,
                                 s: int, start: int, now: int)
    requires o.producerSamplingRate > 0 && o.samplesPerFrame > 0
    requires Sorted(st.jitter) && st.playStart == UNKNOWN
    requires |fs| < o.framesPerSegment && segNum * o.framesPerSegment + |fs| - 1 != UNKNOWN
    ensures var r := FinalSegB(o, SegmentB(o, st, fs, segNum), s);
      && r.finalFrameNumDeadline == UNKNOWN
      && !TickB(o, r.(playStart := start), now).finished
  {
  }

  /** An empty segment 0 records final frame -1, which reads as "unknown": a later final
      segment number is still accepted although the end was already seen. */
  lemma EmptyFirstSegment(o: Options, st: BufferState, s: int)
    requires o.producerSamplingRate > 0 && o.samplesPerFrame > 0 && o.framesPerSegment > 0
    requires Sorted(st.jitter) && st.finalSegNum == UNKNOWN && s != UNKNOWN
    ensures SegmentB(o, st, [], 0).finalFrameNum == UNKNOWN
    ensures FinalSegB(o, SegmentB(o, st, [], 0), s).finalSegNum == s
  {
  }
}
