/** StreamConsumer: the object that owns the network, the fetcher and the player buffer,
    starts fetching and playback once each, runs the periodic doSomeWork, hands the
    responses the network lets through to the fetcher, and closes everything once
    playback has finished. */
module Consumer {
  import opened Timing
  import opened Adts
  import opened Jitter
  import opened BufferSpec
  import opened Transport
  import opened FetchSpec
  import opened FetchProps
  import opened Playback
  import opened Fetching

  /** What one doSomeWork of the consumer leaves: the fetcher's and the buffer's states,
      and whether playback finished, which closes the consumer. */
  datatype WorkOutcome = WorkOutcome(fetch: FetchState, buffer: BufferState, finished: bool)

  /** doSomeWork on values: the fetcher's tick, then the buffer's tick (the network's
      share only polls the face); a finished playback closes fetcher and buffer. The
      fetcher reads playback deadlines from the buffer as it was before the buffer's
      tick, which does not move the play start. */
  function WorkF(o: Options, fst: FetchState, bst: BufferState, now: int, avgRtt: int): WorkOutcome
    requires ValidOptions(o)
  {
    var f := TickF(o, fst, now, avgRtt, bst.playStart);
    var t := TickB(o, bst, now);
    if t.finished then WorkOutcome(f.(closed := true), t.state.(closed := true), true)
    else WorkOutcome(f, t.state, false)
  }

  /** doSomeWork keeps the fetcher's invariant and the buffer's cursor invariant, never
      lets more than 50 Interests be outstanding, and does not move the play start. */
  lemma WorkKeepsInvariants(o: Options, fst: FetchState, bst: BufferState, now: int, avgRtt: int)
    requires ValidOptions(o) && Inv(fst) && CursorInv(o, bst)
    ensures var w := WorkF(o, fst, bst, now, avgRtt);
      && Inv(w.fetch) && |w.fetch.tokens| <= MAX_CWND
      && CursorInv(o, w.buffer) && w.buffer.playStart == bst.playStart
  {
    TickKeepsInv(o, fst, now, avgRtt, bst.playStart);
    TickKeepsCursor(o, bst, now);
    TickOnlyAppends(o, bst, now);
  }

  /** Playback finishes exactly when it has started, the buffer is open and the final
      deadline has passed; the consumer is then closed, with a final silence frame as
      the last write. */
  lemma WorkFinishes(o: Options, fst: FetchState, bst: BufferState, now: int, avgRtt: int)
    requires ValidOptions(o)
    ensures var w := WorkF(o, fst, bst, now, avgRtt);
      && (w.finished <==> bst.playStart != UNKNOWN && !bst.closed && PastFinalDeadline(bst, now))
      && (w.finished ==> w.fetch.closed && w.buffer.closed
                         && w.buffer.output[|w.buffer.output| - 1] == SinkWrite(SilentFrame(), true))
  {
    TickFinishes(o, bst, now);
  }

  /** Once fetcher and buffer are closed, doSomeWork sends nothing, writes nothing and
      does not finish again. */
  lemma WorkAfterCloseIsQuiet(o: Options, fst: FetchState, bst: BufferState, now: int, avgRtt: int)
    requires ValidOptions(o) && fst.closed && bst.closed
    ensures var w := WorkF(o, fst, bst, now, avgRtt);
      w.fetch == fst && w.buffer.output == bst.output && w.buffer.jitter == bst.jitter && !w.finished
  {
    TickClosedIsNoop(o, fst, now, avgRtt, bst.playStart);
    TickIdle(o, bst, now);
  }

  /** A response the fetcher processes keeps the buffer's cursor invariant and changes
      neither the play start nor the cursor nor what was written. */
  lemma ResponseKeepsCursor(o: Options, bst: BufferState, d: Data)
    requires ValidOptions(o) && Sorted(bst.jitter) && CursorInv(o, bst)
    ensures var r := ResponseBufferF(o, bst, d);
      && CursorInv(o, r) && Sorted(r.jitter)
      && r.playStart == bst.playStart && r.cursor == bst.cursor && r.output == bst.output
  {
    if d.name.SegmentComponent? && d.payload.AudioData? && Parse(d.payload.content).Ok? {
      SegmentNumbering(o, bst, Parse(d.payload.content).value, d.name.segNum);
    }
  }

  class StreamConsumer {
    const options: Options
    const net: Network
    const fetcher: StreamFetcher
    const buffer: PlayerBuffer

    var fetchStartCalled: bool
    var playStartCalled: bool
    var closed: bool
    /** Whether a MSG_DO_SOME_WORK message is pending on the consumer's handler. */
    var workScheduled: bool

    predicate Valid()
      reads this, net, fetcher, buffer
    {
      && fetcher.net == net && fetcher.buffer == buffer && fetcher.options == options
      && fetcher.Valid()
      && Inv(fetcher.State())
      && CursorInv(options, buffer.State())
      && (playStartCalled <==> buffer.streamPlayStartTime != UNKNOWN)
      && (closed ==> !workScheduled && fetcher.closed && net.closed && buffer.closed)
    }

    /** The constructor together with onLooperPrepared: the three parts are created and
        nothing has started. */
    constructor (o: Options)
      requires ValidOptions(o)
      ensures Valid() && options == o
      ensures fetcher.State() == InitialFetch() && buffer.State() == InitialBuffer()
      ensures net.recvDatas == {} && !net.closed
      ensures !fetchStartCalled && !playStartCalled && !closed && !workScheduled
    {
      options := o;
      var n := new Network();
      var b := new PlayerBuffer(o);
      var f := new StreamFetcher(o, n, b);
      net, buffer, fetcher := n, b, f;
      fetchStartCalled, playStartCalled, closed, workScheduled := false, false, false, false;
      new;
      InitialInv();
    }

    /** close: closes fetcher, network and buffer and drops every pending message. */
    method Close()
      requires Valid()
      modifies this, fetcher, net, buffer
      ensures Valid() && closed && !workScheduled
      ensures fetcher.State() == old(fetcher.State()).(closed := true)
      ensures buffer.State() == old(buffer.State()).(closed := true)
      ensures net.closed && net.recvDatas == old(net.recvDatas)
      ensures fetchStartCalled == old(fetchStartCalled) && playStartCalled == old(playStartCalled)
    {
      fetcher.Close();
      net.Close();
      buffer.Close();
      workScheduled := false;
      closed := true;
    }

    /** doSomeWork at time `now`: the fetcher's tick, the buffer's tick, the close that a
        finished playback triggers, and the next doSomeWork scheduled unless closed. */
    method DoSomeWork(now: int, avgRtt: int)
      requires Valid()
      modifies this, fetcher, net, buffer
      ensures Valid()
      ensures var w := WorkF(options, old(fetcher.State()), old(buffer.State()), now, avgRtt);
        && fetcher.State() == w.fetch && buffer.State() == w.buffer
        && closed == (old(closed) || w.finished)
        && net.closed == (old(net.closed) || w.finished)
      ensures net.recvDatas == old(net.recvDatas)
      ensures workScheduled == !closed
      ensures fetchStartCalled == old(fetchStartCalled) && playStartCalled == old(playStartCalled)
    {
      ghost var w := WorkF(options, fetcher.State(), buffer.State(), now, avgRtt);
      WorkKeepsInvariants(options, fetcher.State(), buffer.State(), now, avgRtt);
      fetcher.DoSomeWork(now, avgRtt);
      var finished := buffer.DoSomeWork(now);
      if finished {
        Close();
      }
      if !closed {
        workScheduled := true;
      }
    }

    /** streamFetchStart: the first call fixes the fetch start time and runs doSomeWork;
        later calls do nothing. */
    method StreamFetchStart(now: int, avgRtt: int)
      requires Valid()
      modifies this, fetcher, net, buffer
      ensures Valid() && fetchStartCalled
      ensures old(fetchStartCalled) ==>
        && fetcher.State() == old(fetcher.State()) && buffer.State() == old(buffer.State())
        && closed == old(closed) && workScheduled == old(workScheduled)
        && net.closed == old(net.closed)
      ensures !old(fetchStartCalled) ==>
        var w := WorkF(options, old(fetcher.State()).(fetchStart := now), old(buffer.State()), now, avgRtt);
        && fetcher.State() == w.fetch && buffer.State() == w.buffer
        && closed == (old(closed) || w.finished)
        && net.closed == (old(net.closed) || w.finished)
        && workScheduled == !closed
      ensures net.recvDatas == old(net.recvDatas) && playStartCalled == old(playStartCalled)
    {
      if fetchStartCalled {
        return;
      }
      fetcher.SetStreamFetchStartTime(now);
      fetchStartCalled := true;
      DoSomeWork(now, avgRtt);
    }

    /** streamPlayStart: the first call fixes the play start time; later calls do
        nothing. */
    method StreamPlayStart(now: nat)
      requires Valid()
      modifies this, buffer
      ensures Valid() && playStartCalled
      ensures old(playStartCalled) ==> buffer.State() == old(buffer.State())
      ensures !old(playStartCalled) ==> buffer.State() == old(buffer.State()).(playStart := now)
      ensures fetcher.State() == old(fetcher.State())
      ensures closed == old(closed) && workScheduled == old(workScheduled)
      ensures fetchStartCalled == old(fetchStartCalled)
    {
      if playStartCalled {
        return;
      }
      buffer.SetStreamPlayStartTime(now);
      playStartCalled := true;
    }

    /** A response arrives while the network polls its face: `delivered` tells whether
        it reached the fetcher, which happens exactly when the network is open and the
        name has not been seen before. */
    method OnData(d: Data, receiveTime: int) returns (delivered: bool)
      requires Valid()
      modifies net, fetcher, buffer
      ensures Valid() && net.closed == old(net.closed)
      ensures old(net.closed) ==> !delivered && net.recvDatas == old(net.recvDatas)
      ensures !old(net.closed) ==> delivered == Admit(old(net.recvDatas), d.name).admitted
                                   && net.recvDatas == Admit(old(net.recvDatas), d.name).seen
      ensures delivered ==> fetcher.State() == ResponseF(old(fetcher.State()), d, receiveTime)
                            && buffer.State() == ResponseBufferF(options, old(buffer.State()), d)
      ensures !delivered ==> fetcher.State() == old(fetcher.State()) && buffer.State() == old(buffer.State())
    {
      if net.closed {
        return false;
      }
      delivered := net.AcceptData(d.name);
      if !delivered {
        return;
      }
      ResponseKeepsInv(fetcher.State(), d, receiveTime);
      ResponseKeepsCursor(options, buffer.State(), d);
      fetcher.ProcessData(d, receiveTime);
    }

    /** The retransmission timer of a segment fires; only a timer that is still pending
        (not cancelled by a response) can. */
    method OnRtoTimer(seg: int)
      requires Valid() && seg in fetcher.timers
      modifies fetcher
      ensures Valid()
      ensures fetcher.State() == RtoFireF(old(fetcher.State()), seg)
      ensures seg in fetcher.queue && seg !in fetcher.tokens && seg !in fetcher.timers
    {
      RtoMovesToQueue(fetcher.State(), seg);
      fetcher.RtoTimer(seg);
    }
  }
}
