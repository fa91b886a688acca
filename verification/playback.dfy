/** StreamPlayerBuffer as an object whose methods update its fields in place. Each
    method is proved to leave the state that the corresponding BufferSpec function
    computes from the state before it. */
module Playback {
  import opened Timing
  import opened Adts
  import opened Jitter
  import opened BufferSpec

  class PlayerBuffer {
    const options: Options
    const jitterBufferDelay: int
    const msPerFrame: int

    var jitterBuffer: seq<Frame>
    var closed: bool
    var highestFrameNumPlayed: int
    var highestFrameNumPlayedDeadline: int
    var finalSegNum: int
    var finalFrameNum: int
    var finalFrameNumDeadline: int
    var streamPlayStartTime: int
    var firstRealDoSomeWork: bool
    var framesSkipped: nat
    var framesPlayed: nat
    /** The writes made to the consumer's output sink, oldest first. */
    var output: seq<SinkWrite>

    predicate Valid()
      reads this
    {
      && ValidOptions(options)
      && jitterBufferDelay == JitterDelay(options)
      && msPerFrame == MsPerFrame(options)
      && Sorted(jitterBuffer)
    }

    function State(): BufferState
      reads this
    {
      BufferState(jitterBuffer, closed, highestFrameNumPlayed, highestFrameNumPlayedDeadline,
        finalSegNum, finalFrameNum, finalFrameNumDeadline, streamPlayStartTime,
        firstRealDoSomeWork, framesSkipped, framesPlayed, output)
    }

    constructor (o: Options)
      requires ValidOptions(o)
      ensures Valid() && options == o
      ensures State() == InitialBuffer()
    {
      options := o;
      jitterBufferDelay := o.jitterBufferSize * MsPerFrame(o);
      msPerFrame := MsPerFrame(o);
      jitterBuffer := [];
      closed := false;
      highestFrameNumPlayed := 0;
      highestFrameNumPlayedDeadline := 0;
      finalSegNum := UNKNOWN;
      finalFrameNum := UNKNOWN;
      finalFrameNumDeadline := UNKNOWN;
      streamPlayStartTime := UNKNOWN;
      firstRealDoSomeWork := true;
      framesSkipped := 0;
      framesPlayed := 0;
      output := [];
    }

    /** getPlaybackDeadline, read from the buffer's own fields. */
    function GetPlaybackDeadline(frameNum: int): (d: int)
      requires Valid()
      reads this
      ensures d == PlaybackDeadline(options, streamPlayStartTime, frameNum)
      ensures streamPlayStartTime != UNKNOWN && frameNum >= 0 ==>
        d >= streamPlayStartTime + jitterBufferDelay + frameNum * msPerFrame
    {
      var d := PlaybackDeadline(options, streamPlayStartTime, frameNum);
      if streamPlayStartTime != UNKNOWN && frameNum >= 0 then
        CursorDeadlineLag(options, streamPlayStartTime, frameNum); d
      else d
    }

    method SetStreamPlayStartTime(t: int)
      requires Valid()
      modifies this
      ensures Valid()
      ensures State() == old(State()).(playStart := t)
    {
      streamPlayStartTime := t;
    }

    /** Idempotent: closing a closed buffer changes nothing. */
    method Close()
      requires Valid()
      modifies this
      ensures Valid()
      ensures State() == old(State()).(closed := true)
      ensures old(closed) ==> State() == old(State())
    {
      if closed {
        return;
      }
      closed := true;
    }

    /** doSomeWork at time `now`; `finished` reports the call the source makes to close
        the whole consumer once playback is done. */
    method DoSomeWork(now: int) returns (finished: bool)
      requires Valid()
      modifies this
      ensures Valid()
      ensures State() == TickB(options, old(State()), now).state
      ensures finished == TickB(options, old(State()), now).finished
    {
      if streamPlayStartTime == UNKNOWN {
        return false;
      }
      if firstRealDoSomeWork {
        highestFrameNumPlayedDeadline := streamPlayStartTime + jitterBufferDelay;
        firstRealDoSomeWork := false;
      }
      if closed {
        return false;
      }
      finished := PlayDueFrames(now);
    }

    /** The part of doSomeWork after its start-up checks, on a started and open buffer. */
    method PlayDueFrames(now: int) returns (finished: bool)
      requires Valid()
      modifies this
      ensures Valid()
      ensures State() == PlayDue(options, old(State()), now).state
      ensures finished == PlayDue(options, old(State()), now).finished
    {
      if now > highestFrameNumPlayedDeadline {
        ResolveCursorFrame(now);
      }
      if finalFrameNumDeadline == UNKNOWN {
        return false;
      }
      finished := false;
      if now > finalFrameNumDeadline {
        output := output + [SinkWrite(SilentFrame(), true)];
        finished := true;
      }
    }

    /** The body of doSomeWork's `if` once the cursor deadline has passed. */
    method ResolveCursorFrame(now: int)
      requires Valid()
      modifies this
      ensures Valid()
      ensures State() == Resolve(options, old(State()), now)
    {
      EmitCursorFrame(now);
      highestFrameNumPlayed := highestFrameNumPlayed + 1;
      highestFrameNumPlayedDeadline := highestFrameNumPlayedDeadline + msPerFrame;
    }

    /** The three-way branch on the head of the queue. */
    method EmitCursorFrame(now: int)
      requires Valid()
      modifies this
      ensures Valid()
      ensures State() == BufferSpec.EmitCursorFrame(old(State()), now)
    {
      var isFinal := finalFrameNumDeadline != UNKNOWN && now > finalFrameNumDeadline;
      var gotExpectedFrame := jitterBuffer != [] && jitterBuffer[0].frameNum == highestFrameNumPlayed;
      if gotExpectedFrame {
        framesPlayed := framesPlayed + 1;
        output := output + [SinkWrite(jitterBuffer[0].data, isFinal)];
        PollSorted(jitterBuffer);
        jitterBuffer := jitterBuffer[1..];
      } else if jitterBuffer == [] || jitterBuffer[0].frameNum > highestFrameNumPlayed {
        framesSkipped := framesSkipped + 1;
        output := output + [SinkWrite(SilentFrame(), isFinal)];
      }
    }

    /** processAdtsFrames. A payload the splitter cannot read throws out of the source
        before any frame is queued; here `ok` is false and nothing changes. */
    method ProcessAdtsFrames(frames: seq<byte>, segNum: int) returns (ok: bool)
      requires Valid()
      modifies this
      ensures Valid()
      ensures ok == Parse(frames).Ok?
      ensures ok ==> State() == SegmentB(options, old(State()), Parse(frames).value, segNum)
      ensures !ok ==> State() == old(State())
    {
      var parsed := ParseAdtsFrames(frames);
      if parsed.Err? {
        return false;
      }
      var parsedFrames := parsed.value;
      var base := segNum * options.framesPerSegment;
      jitterBuffer := QueueSegment(jitterBuffer, parsedFrames, base);
      if |parsedFrames| < options.framesPerSegment {
        finalFrameNum := base + |parsedFrames| - 1;
        finalFrameNumDeadline := GetPlaybackDeadline(finalFrameNum);
      }
      ok := true;
    }

    method ReceiveFinalSegNum(s: int)
      requires Valid()
      modifies this
      ensures Valid()
      ensures State() == FinalSegB(options, old(State()), s)
    {
      if finalFrameNum != UNKNOWN {
        return;
      }
      if finalSegNum != UNKNOWN {
        return;
      }
      finalSegNum := s;
      finalFrameNumDeadline := GetPlaybackDeadline(s * options.framesPerSegment + options.framesPerSegment);
    }
  }
}
