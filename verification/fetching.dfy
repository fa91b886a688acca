/** StreamFetcher as an object whose methods update its fields in place. It sends its
    Interests through the consumer's Network and asks the player buffer for playback
    deadlines; each method is proved to leave the state that the corresponding FetchSpec
    function computes from the state before it. */
module Fetching {
  import opened Timing
  import opened Adts
  import opened Jitter
  import opened BufferSpec
  import opened Transport
  import opened FetchSpec
  import opened FetchProps
  import opened Playback

  class StreamFetcher {
    const options: Options
    const net: Network
    const buffer: PlayerBuffer

    var queue: seq<int>
    var tokens: set<int>
    var timers: set<int>
    var sendTimes: map<int, int>
    var highest: int
    var finalBlock: int
    var counters: Counters
    var closed: bool
    var fetchStart: int
    var rttSamples: seq<int>

    predicate Valid()
      reads this, buffer
    {
      ValidOptions(options) && buffer.Valid() && buffer.options == options
    }

    /** The fetcher's fields, with the Interests the network has expressed. */
    function State(): FetchState
      reads this, net
    {
      FetchState(queue, tokens, timers, sendTimes, highest, finalBlock, counters, closed, fetchStart,
        rttSamples, net.expressed)
    }

    constructor (o: Options, n: Network, b: PlayerBuffer)
      requires ValidOptions(o) && b.Valid() && b.options == o && n.expressed == []
      ensures Valid() && options == o && net == n && buffer == b
      ensures State() == InitialFetch()
    {
      options := o;
      net := n;
      buffer := b;
      queue := [];
      tokens := {};
      timers := {};
      sendTimes := map[];
      highest := UNKNOWN;
      finalBlock := UNKNOWN;
      counters := Counters(0, 0, 0, 0, 0, 0);
      closed := false;
      fetchStart := 0;
      rttSamples := [];
    }

    method SetStreamFetchStartTime(t: int)
      modifies this
      ensures State() == old(State()).(fetchStart := t)
    {
      fetchStart := t;
    }

    /** Idempotent: closing a closed fetcher changes nothing. */
    method Close()
      modifies this
      ensures State() == old(State()).(closed := true)
      ensures old(closed) ==> State() == old(State())
    {
      if closed {
        return;
      }
      closed := true;
    }

    /** transmitInterest at time `now`, with the estimator's current average RTT. */
    method TransmitInterest(seg: int, isRetx: bool, now: int, avgRtt: int)
      requires Valid()
      modifies this, net
      ensures Valid()
      ensures net.closed == old(net.closed) && net.recvDatas == old(net.recvDatas)
      ensures State() == TransmitF(options, old(State()), seg, isRetx, now, avgRtt, buffer.streamPlayStartTime)
    {
      var deadline := buffer.GetPlaybackDeadline(options.framesPerSegment * seg);
      if deadline != UNKNOWN && now + avgRtt > deadline {
        counters := Record(counters, InterestSkip);
        return;
      }
      var lifetime := if deadline == UNKNOWN then DEFAULT_INTEREST_LIFETIME_MS else deadline - now;
      tokens := tokens + {seg};
      timers := timers + {seg};
      if isRetx {
        sendTimes := sendTimes - {seg};
      } else {
        sendTimes := sendTimes[seg := now];
      }
      net.SendInterest(Interest(seg, lifetime));
      counters := Record(counters, InterestTransmit);
    }

    /** The first loop of doSomeWork: retransmit the queue's minimum while there is one
        and the window has room. */
    method DrainRetransmissions(now: int, avgRtt: int)
      requires Valid()
      modifies this, net
      ensures Valid()
      ensures net.closed == old(net.closed) && net.recvDatas == old(net.recvDatas)
      ensures State() == DrainF(options, old(State()), now, avgRtt, buffer.streamPlayStartTime)
    {
      while queue != [] && |tokens| < MAX_CWND
        invariant Valid()
        invariant net.closed == old(net.closed) && net.recvDatas == old(net.recvDatas)
        invariant DrainF(options, State(), now, avgRtt, buffer.streamPlayStartTime)
               == DrainF(options, old(State()), now, avgRtt, buffer.streamPlayStartTime)
        decreases |queue|
      {
        var seg := queue[0];
        queue := queue[1..];
        TransmitInterest(seg, true, now, avgRtt);
      }
    }

    /** The second loop of doSomeWork: while the next segment is due and the window has
        room, move the window cursor on and send the segment it names. */
    method GrowWindow(now: int, avgRtt: int)
      requires Valid()
      modifies this, net
      ensures Valid()
      ensures net.closed == old(net.closed) && net.recvDatas == old(net.recvDatas)
      ensures State() == GrowF(options, old(State()), now, avgRtt, buffer.streamPlayStartTime)
    {
      var due := JavaDiv(now - fetchStart, MsPerSeg(options));
      while due > highest && |tokens| < MAX_CWND
        invariant Valid()
        invariant fetchStart == old(fetchStart) && due == DueSegment(options, State(), now)
        invariant net.closed == old(net.closed) && net.recvDatas == old(net.recvDatas)
        invariant GrowF(options, State(), now, avgRtt, buffer.streamPlayStartTime)
               == GrowF(options, old(State()), now, avgRtt, buffer.streamPlayStartTime)
        decreases due - highest
      {
        AdvanceWindow(now, avgRtt);
      }
    }

    /** One turn of the second loop: the window cursor moves on to a new segment, which
        is then transmitted. */
    method AdvanceWindow(now: int, avgRtt: int)
      requires Valid() && NextSegDue(options, State(), now) && WithinCwnd(State())
      modifies this, net
      ensures Valid()
      ensures net.closed == old(net.closed) && net.recvDatas == old(net.recvDatas)
      ensures State() == TransmitF(options, old(State()).(highest := old(highest) + 1), old(highest) + 1,
                                   false, now, avgRtt, buffer.streamPlayStartTime)
      ensures GrowF(options, State(), now, avgRtt, buffer.streamPlayStartTime)
           == GrowF(options, old(State()), now, avgRtt, buffer.streamPlayStartTime)
      ensures highest == old(highest) + 1
      ensures fetchStart == old(fetchStart)
    {
      ghost var st := State();
      highest := highest + 1;
      TransmitInterest(highest, false, now, avgRtt);
      GrowUnfold(options, st, now, avgRtt, buffer.streamPlayStartTime);
    }

    /** doSomeWork at time `now`. */
    method DoSomeWork(now: int, avgRtt: int)
      requires Valid()
      modifies this, net
      ensures Valid()
      ensures net.closed == old(net.closed) && net.recvDatas == old(net.recvDatas)
      ensures State() == TickF(options, old(State()), now, avgRtt, buffer.streamPlayStartTime)
    {
      if closed {
        return;
      }
      DrainRetransmissions(now, avgRtt);
      if finalBlock == UNKNOWN || highest < finalBlock {
        GrowWindow(now, avgRtt);
      }
      if queue == [] && tokens == {} && finalBlock != UNKNOWN {
        Close();
      }
    }

    /** The retransmission timer armed for `seg` fires. */
    method RtoTimer(seg: int)
      modifies this
      ensures State() == RtoFireF(old(State()), seg)
    {
      queue := Enqueue(queue, seg);
      tokens := tokens - {seg};
      timers := timers - {seg};
      counters := Record(counters, InterestTimeout);
    }

    /** processData for a response received at `receiveTime`. */
    method ProcessData(d: Data, receiveTime: int)
      requires Valid()
      modifies this, buffer
      ensures Valid()
      ensures State() == ResponseF(old(State()), d, receiveTime)
      ensures buffer.State() == ResponseBufferF(options, old(buffer.State()), d)
    {
      if d.name.OtherComponent? {
        return;
      }
      var seg := d.name.segNum;
      Acknowledge(seg, receiveTime);
      match d.payload
      case AppNack(f) =>
        ReceiveNack(seg, f);
      case AudioData(content, fb) =>
        ReceiveAudio(seg, content, fb);
    }

    /** The start of processData: count a premature timeout, take the RTT sample. */
    method Acknowledge(seg: int, receiveTime: int)
      modifies this
      ensures State() == AckF(old(State()), seg, receiveTime)
    {
      if seg in queue {
        counters := Record(counters, PrematureRto);
      }
      if seg in sendTimes {
        rttSamples := rttSamples + [receiveTime - sendTimes[seg]];
        sendTimes := sendTimes - {seg};
      }
    }

    /** The rest of processData for an application NACK carrying final segment `f`. */
    method ReceiveNack(seg: int, f: int)
      requires Valid()
      modifies this, buffer
      ensures Valid()
      ensures State() == SettleF(old(State()).(finalBlock := f), seg, NackReceive)
      ensures buffer.State() == FinalSegB(options, old(buffer.State()), f)
    {
      finalBlock := f;
      buffer.ReceiveFinalSegNum(f);
      Settle(seg, NackReceive);
    }

    /** The rest of processData for audio: the frames go to the player buffer; a
        payload the splitter cannot read ends processData there. */
    method ReceiveAudio(seg: nat, content: seq<byte>, fb: Option<Component>)
      requires Valid()
      modifies this, buffer
      ensures Valid()
      ensures Parse(content).Err? ==> State() == old(State()) && buffer.State() == old(buffer.State())
      ensures Parse(content).Ok? ==>
        && State() == SettleF(if fb.Some? && fb.value.SegmentComponent? then old(State()).(finalBlock := fb.value.segNum) else old(State()),
                              seg, AudioPacketReceive)
        && buffer.State() == SegmentB(options, old(buffer.State()), Parse(content).value, seg)
    {
      var ok := buffer.ProcessAdtsFrames(content, seg);
      if !ok {
        return;
      }
      if fb.Some? && fb.value.SegmentComponent? {
        finalBlock := fb.value.segNum;
      }
      Settle(seg, AudioPacketReceive);
    }

    /** The end of processData: count the response, take the segment out of the queue
        and cancel the callbacks posted with its token (all of them when it has none). */
    method Settle(seg: int, e: PacketEvent)
      modifies this
      ensures State() == SettleF(old(State()), seg, e)
    {
      var c := Record(counters, e);
      var q := Remove(queue, seg);
      var t := if seg in tokens then timers - {seg} else {};
      counters, queue, tokens, timers := c, q, tokens - {seg}, t;
    }
  }
}
