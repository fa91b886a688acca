/** What is proved about the fetcher's state machine: the transmit rule, the order and
    bound of the two loops of a tick, completion, the invariant every step keeps, and
    the handling of responses and timer expiries. */
module FetchProps {
  import opened Timing
  import opened Adts
  import opened Transport
  import opened FetchSpec

  predicate AtMost(q: seq<int>, b: int) {
    forall i :: 0 <= i < |q| ==> q[i] <= b
  }

  // ---------------------------------------------------------------- transmitInterest

  /** The transmit rule. A segment whose first frame's deadline is known and closer than
      one average RTT is skipped: only the skip is counted. Otherwise exactly one
      Interest is sent, for that segment, with a lifetime of 4000 ms or of the time left
      to the deadline, which is then at least one average RTT; a timer is armed for the
      segment; a first send records the send time and a retransmission forgets it. */
  lemma TransmitRule(o: Options, st: FetchState, seg: int, isRetx: bool, now: int, avgRtt: int, playStart: int)
    requires o.producerSamplingRate > 0 && o.samplesPerFrame > 0
    ensures var r := TransmitF(o, st, seg, isRetx, now, avgRtt, playStart);
      var deadline := SegmentDeadline(o, playStart, seg);
      if deadline != UNKNOWN && now + avgRtt > deadline then
        && r == st.(counters := st.counters.(interestSkips := st.counters.interestSkips + 1))
      else
        && r.tokens == st.tokens + {seg} && r.timers == st.timers + {seg}
        && |r.sent| == |st.sent| + 1 && r.sent[..|st.sent|] == st.sent
        && r.sent[|st.sent|].segNum == seg
        && (deadline == UNKNOWN ==> r.sent[|st.sent|].lifetimeMs == DEFAULT_INTEREST_LIFETIME_MS)
        && (deadline != UNKNOWN ==> r.sent[|st.sent|].lifetimeMs == deadline - now >= avgRtt)
        && (isRetx ==> seg !in r.sendTimes && r.sendTimes == st.sendTimes - {seg})
        && (!isRetx ==> seg in r.sendTimes && r.sendTimes[seg] == now)
        && r.counters == st.counters.(interestsTransmitted := st.counters.interestsTransmitted + 1)
        && r.rttSamples == st.rttSamples
  {
    var r := TransmitF(o, st, seg, isRetx, now, avgRtt, playStart);
    if !SkipsSegment(o, playStart, seg, now, avgRtt) {
      assert r.sent == st.sent + [r.sent[|st.sent|]];
    }
  }

  /** A transmission sends at most one Interest, for its segment, and never touches
      earlier ones; either way it counts one attempt. */
  lemma TransmitAppends(o: Options, st: FetchState, seg: int, isRetx: bool, now: int, avgRtt: int, playStart: int)
    requires o.producerSamplingRate > 0 && o.samplesPerFrame > 0
    ensures var r := TransmitF(o, st, seg, isRetx, now, avgRtt, playStart);
      && |st.sent| <= |r.sent| <= |st.sent| + 1 && r.sent[..|st.sent|] == st.sent
      && (|r.sent| == |st.sent| <==> SkipsSegment(o, playStart, seg, now, avgRtt))
      && (|r.sent| > |st.sent| ==> r.sent[|st.sent|].segNum == seg)
      && r.counters.interestsTransmitted + r.counters.interestSkips
         == st.counters.interestsTransmitted + st.counters.interestSkips + 1
  {
  }

  /** One step of a loop that may send an Interest for `seg`: `mid` extends `prev` by at
      most that one Interest, and `fin` extends `mid`. */
  predicate OneStep(prev: seq<Interest>, mid: seq<Interest>, fin: seq<Interest>, seg: int) {
    && |prev| <= |mid| <= |prev| + 1 && |mid| <= |fin|
    && mid[..|prev|] == prev && fin[..|mid|] == mid
    && (|mid| > |prev| ==> mid[|prev|].segNum == seg)
  }

  lemma OneStepSegs(prev: seq<Interest>, mid: seq<Interest>, fin: seq<Interest>, seg: int)
    requires OneStep(prev, mid, fin, seg)
    ensures fin[..|prev|] == prev
    ensures Segs(fin[|prev|..]) == (if |mid| > |prev| then [seg] else []) + Segs(fin[|mid|..])
  {
    assert fin[..|prev|] == fin[..|mid|][..|prev|];
    assert fin[|prev|..] == mid[|prev|..] + fin[|mid|..];
  }

  /** The ordering step of the first loop: sending `seg` ahead of an ascending run that
      is no smaller keeps the run ascending. */
  lemma DrainStep(prev: seq<Interest>, mid: seq<Interest>, fin: seq<Interest>, seg: int, bounded: bool, top: int)
    requires OneStep(prev, mid, fin, seg) && (bounded ==> seg <= top)
    requires var t := Segs(fin[|mid|..]); Ascending(t) && AtLeast(t, seg) && (bounded ==> AtMost(t, top))
    ensures var t := Segs(fin[|prev|..]); Ascending(t) && AtLeast(t, seg) && (bounded ==> AtMost(t, top))
  {
    OneStepSegs(prev, mid, fin, seg);
    var tail := Segs(fin[|mid|..]);
    AscendingCons(seg, tail);
    if |mid| > |prev| {
      assert Segs(fin[|prev|..]) == [seg] + tail;
    } else {
      assert Segs(fin[|prev|..]) == tail;
    }
  }

  /** The ordering step of the second loop: sending `seg` ahead of a strictly increasing
      run of later segments keeps it strictly increasing. */
  lemma GrowStep(prev: seq<Interest>, mid: seq<Interest>, fin: seq<Interest>, seg: int, top: int)
    requires OneStep(prev, mid, fin, seg) && seg <= top
    requires var t := Segs(fin[|mid|..]); Increasing(t) && AtLeast(t, seg + 1) && AtMost(t, top)
    ensures var t := Segs(fin[|prev|..]); Increasing(t) && AtLeast(t, seg) && AtMost(t, top)
  {
    OneStepSegs(prev, mid, fin, seg);
    var tail := Segs(fin[|mid|..]);
    IncreasingCons(seg, tail);
    if |mid| > |prev| {
      assert Segs(fin[|prev|..]) == [seg] + tail;
    } else {
      assert Segs(fin[|prev|..]) == tail;
    }
  }

  // ---------------------------------------------------------------- the retransmission loop

  /** The first loop only retransmits: it appends Interests, consumes a prefix of the
      queue, and leaves the window
      cursor, the final block and the closed flag alone. */
  lemma {:induction false} DrainFrame(o: Options, st: FetchState, now: int, avgRtt: int, playStart: int)
    requires o.producerSamplingRate > 0 && o.samplesPerFrame > 0
    ensures var r := DrainF(o, st, now, avgRtt, playStart);
      && |st.sent| <= |r.sent| && r.sent[..|st.sent|] == st.sent
      && |r.queue| <= |st.queue| && r.queue == st.queue[|st.queue| - |r.queue|..]
      && r.highest == st.highest && r.finalBlock == st.finalBlock && r.closed == st.closed
      && r.fetchStart == st.fetchStart
    decreases |st.queue|
  {
    if st.queue != [] && WithinCwnd(st) {
      var q := st.queue;
      var st1 := TransmitF(o, st.(queue := q[1..]), q[0], true, now, avgRtt, playStart);
      var r := DrainF(o, st1, now, avgRtt, playStart);
      DrainFrame(o, st1, now, avgRtt, playStart);
      TransmitAppends(o, st.(queue := q[1..]), q[0], true, now, avgRtt, playStart);
      assert r.sent[..|st.sent|] == r.sent[..|st1.sent|][..|st.sent|];
      assert q[1..][|q[1..]| - |r.queue|..] == q[|q| - |r.queue|..];
    }
  }

  /** The first loop stops only on an empty queue or a full window. */
  lemma {:induction false} DrainStops(o: Options, st: FetchState, now: int, avgRtt: int, playStart: int)
    requires o.producerSamplingRate > 0 && o.samplesPerFrame > 0
    ensures var r := DrainF(o, st, now, avgRtt, playStart);
      r.queue == [] || !WithinCwnd(r)
    decreases |st.queue|
  {
    if st.queue != [] && WithinCwnd(st) {
      DrainStops(o, TransmitF(o, st.(queue := st.queue[1..]), st.queue[0], true, now, avgRtt, playStart),
        now, avgRtt, playStart);
    }
  }

  /** Retransmissions leave the queue in ascending order: the segments the first loop
      sends are ascending, none is below the queue's old minimum and none is above what
      stays queued. */
  lemma {:induction false} DrainInOrder(o: Options, st: FetchState, now: int, avgRtt: int, playStart: int)
    requires o.producerSamplingRate > 0 && o.samplesPerFrame > 0
    requires Ascending(st.queue)
    ensures var r := DrainF(o, st, now, avgRtt, playStart);
      |st.sent| <= |r.sent|
      && Ascending(Segs(SentSince(st, r)))
      && (st.queue != [] ==> AtLeast(Segs(SentSince(st, r)), st.queue[0]))
      && (r.queue != [] ==> AtMost(Segs(SentSince(st, r)), r.queue[0]))
    decreases |st.queue|
  {
    var r := DrainF(o, st, now, avgRtt, playStart);
    if st.queue != [] && WithinCwnd(st) {
      var q := st.queue;
      var st1 := TransmitF(o, st.(queue := q[1..]), q[0], true, now, avgRtt, playStart);
      assert r == DrainF(o, st1, now, avgRtt, playStart);
      DrainInOrder(o, st1, now, avgRtt, playStart);
      DrainFrame(o, st1, now, avgRtt, playStart);
      TransmitAppends(o, st.(queue := q[1..]), q[0], true, now, avgRtt, playStart);
      AscendingAbove(q);
      if r.queue != [] {
        assert r.queue[0] == q[|q| - |r.queue|];
      }
      if q[1..] == [] {
        assert SentSince(st1, r) == [];
      }
      DrainStep(st.sent, st1.sent, r.sent, q[0], r.queue != [], if r.queue != [] then r.queue[0] else 0);
    } else {
      assert SentSince(st, r) == [];
    }
  }

  /** Every segment the first loop sends was in the queue. */
  lemma {:induction false} DrainFromQueue(o: Options, st: FetchState, now: int, avgRtt: int, playStart: int)
    requires o.producerSamplingRate > 0 && o.samplesPerFrame > 0
    ensures var r := DrainF(o, st, now, avgRtt, playStart);
      |st.sent| <= |r.sent| && forall x :: x in Segs(SentSince(st, r)) ==> x in st.queue
    decreases |st.queue|
  {
    DrainFrame(o, st, now, avgRtt, playStart);
    var r := DrainF(o, st, now, avgRtt, playStart);
    if st.queue != [] && WithinCwnd(st) {
      var q := st.queue;
      var st1 := TransmitF(o, st.(queue := q[1..]), q[0], true, now, avgRtt, playStart);
      DrainFromQueue(o, st1, now, avgRtt, playStart);
      DrainFrame(o, st1, now, avgRtt, playStart);
      TransmitAppends(o, st.(queue := q[1..]), q[0], true, now, avgRtt, playStart);
      OneStepSegs(st.sent, st1.sent, r.sent, q[0]);
      forall x | x in Segs(SentSince(st, r)) ensures x in q {
        if x != q[0] {
          assert x in Segs(SentSince(st1, r));
          assert x in q[1..];
        }
      }
    } else {
      assert Segs(SentSince(st, r)) == [];
    }
  }

  // ---------------------------------------------------------------- the window-growth loop

  /** One turn of the second loop: the cursor moves on by one, the due segment stays the
      same, and the loop goes on from the state after the transmission. */
  lemma GrowUnfold(o: Options, st: FetchState, now: int, avgRtt: int, playStart: int)
    requires ValidOptions(o) && NextSegDue(o, st, now) && WithinCwnd(st)
    ensures var s1 := TransmitF(o, st.(highest := st.highest + 1), st.highest + 1, false, now, avgRtt, playStart);
      && s1.highest == st.highest + 1 && DueSegment(o, s1, now) == DueSegment(o, st, now)
      && GrowF(o, st, now, avgRtt, playStart) == GrowF(o, s1, now, avgRtt, playStart)
  {
  }

  /** The state after one turn of the second loop, described without unfolding the
      transmission: what the induction over the loop needs to know about it. */
  lemma GrowNext(o: Options, st: FetchState, now: int, avgRtt: int, playStart: int) returns (s1: FetchState)
    requires ValidOptions(o) && NextSegDue(o, st, now) && WithinCwnd(st)
    ensures s1.highest == st.highest + 1 && DueSegment(o, s1, now) == DueSegment(o, st, now)
    ensures GrowF(o, st, now, avgRtt, playStart) == GrowF(o, s1, now, avgRtt, playStart)
    ensures OneStep(st.sent, s1.sent, s1.sent, s1.highest)
    ensures s1.counters.interestsTransmitted + s1.counters.interestSkips
            == st.counters.interestsTransmitted + st.counters.interestSkips + 1
    ensures s1.queue == st.queue && s1.finalBlock == st.finalBlock && s1.closed == st.closed
    ensures s1.fetchStart == st.fetchStart
    ensures Inv(st) ==> Inv(s1)
    ensures st.tokens <= s1.tokens <= st.tokens + {s1.highest} && s1.timers <= st.timers + {s1.highest}
  {
    var s0 := st.(highest := st.highest + 1);
    s1 := TransmitF(o, s0, s0.highest, false, now, avgRtt, playStart);
    GrowUnfold(o, st, now, avgRtt, playStart);
    TransmitAppends(o, s0, s0.highest, false, now, avgRtt, playStart);
    TransmitRule(o, s0, s0.highest, false, now, avgRtt, playStart);
    if Inv(st) {
      AdvanceKeepsInv(st);
      TransmitKeepsInv(o, s0, s0.highest, false, now, avgRtt, playStart);
    }
  }

  /** New segments are sent as consecutive numbers: the window cursor moves by the number
      of transmissions attempted (sent or skipped), which are all for new segments; the
      loop stops exactly when the next segment is not yet due or the window is full, and
      never moves the cursor past the due segment. */
  lemma {:induction false} GrowFrame(o: Options, st: FetchState, now: int, avgRtt: int, playStart: int)
    requires ValidOptions(o)
    ensures var r := GrowF(o, st, now, avgRtt, playStart);
      && st.highest <= r.highest
      && |st.sent| <= |r.sent| && r.sent[..|st.sent|] == st.sent
      && (r.highest > st.highest ==> r.highest <= DueSegment(o, st, now))
      && r.queue == st.queue && r.finalBlock == st.finalBlock && r.closed == st.closed
      && r.fetchStart == st.fetchStart
    decreases DueSegment(o, st, now) - st.highest
  {
    if NextSegDue(o, st, now) && WithinCwnd(st) {
      var st1 := GrowNext(o, st, now, avgRtt, playStart);
      var r := GrowF(o, st1, now, avgRtt, playStart);
      GrowFrame(o, st1, now, avgRtt, playStart);
      assert r.sent[..|st.sent|] == r.sent[..|st1.sent|][..|st.sent|];
    }
  }

  /** The window cursor moves by exactly the number of transmissions attempted, and the
      loop stops exactly when the next segment is not due or the window is full. */
  lemma {:induction false} GrowCounts(o: Options, st: FetchState, now: int, avgRtt: int, playStart: int)
    requires ValidOptions(o)
    ensures var r := GrowF(o, st, now, avgRtt, playStart);
      && r.highest - st.highest
         == (r.counters.interestsTransmitted + r.counters.interestSkips)
            - (st.counters.interestsTransmitted + st.counters.interestSkips)
      && !(NextSegDue(o, r, now) && WithinCwnd(r))
    decreases DueSegment(o, st, now) - st.highest
  {
    if NextSegDue(o, st, now) && WithinCwnd(st) {
      var s1 := GrowNext(o, st, now, avgRtt, playStart);
      GrowCounts(o, s1, now, avgRtt, playStart);
    }
  }

  /** ... and the segments it sends are strictly increasing, each after the old window
      cursor and none after the new one. */
  lemma {:induction false} GrowInOrder(o: Options, st: FetchState, now: int, avgRtt: int, playStart: int)
    requires ValidOptions(o)
    ensures var r := GrowF(o, st, now, avgRtt, playStart);
      && |st.sent| <= |r.sent|
      && Increasing(Segs(SentSince(st, r)))
      && AtLeast(Segs(SentSince(st, r)), st.highest + 1)
      && AtMost(Segs(SentSince(st, r)), r.highest)
    decreases DueSegment(o, st, now) - st.highest
  {
    GrowFrame(o, st, now, avgRtt, playStart);
    var r := GrowF(o, st, now, avgRtt, playStart);
    if NextSegDue(o, st, now) && WithinCwnd(st) {
      var st1 := GrowNext(o, st, now, avgRtt, playStart);
      GrowInOrder(o, st1, now, avgRtt, playStart);
      GrowFrame(o, st1, now, avgRtt, playStart);
      GrowStep(st.sent, st1.sent, r.sent, st1.highest, r.highest);
    } else {
      assert Segs(SentSince(st, r)) == [];
    }
  }

  // ---------------------------------------------------------------- a whole tick

  /** A closed fetcher's tick does nothing. */
  lemma TickClosedIsNoop(o: Options, st: FetchState, now: int, avgRtt: int, playStart: int)
    requires ValidOptions(o) && st.closed
    ensures TickF(o, st, now, avgRtt, playStart) == st
  {
  }

  /** An open fetcher closes in a tick exactly when, at the end of the tick, nothing is
      queued, nothing is outstanding and the final block is known; nothing else ever
      closes it, and it never reopens. */
  lemma TickClosesIff(o: Options, st: FetchState, now: int, avgRtt: int, playStart: int)
    requires ValidOptions(o)
    ensures var r := TickF(o, st, now, avgRtt, playStart);
      && (st.closed ==> r.closed)
      && (!st.closed ==> (r.closed <==> Complete(r)))
  {
    if !st.closed {
      var st1 := DrainF(o, st, now, avgRtt, playStart);
      DrainClosed(o, st, now, avgRtt, playStart);
      if st1.finalBlock == UNKNOWN || st1.highest < st1.finalBlock {
        GrowClosed(o, st1, now, avgRtt, playStart);
      }
    }
  }

  lemma {:induction false} DrainClosed(o: Options, st: FetchState, now: int, avgRtt: int, playStart: int)
    requires o.producerSamplingRate > 0 && o.samplesPerFrame > 0
    ensures DrainF(o, st, now, avgRtt, playStart).closed == st.closed
    decreases |st.queue|
  {
    if st.queue != [] && WithinCwnd(st) {
      DrainClosed(o, TransmitF(o, st.(queue := st.queue[1..]), st.queue[0], true, now, avgRtt, playStart),
        now, avgRtt, playStart);
    }
  }

  lemma {:induction false} GrowClosed(o: Options, st: FetchState, now: int, avgRtt: int, playStart: int)
    requires ValidOptions(o)
    ensures GrowF(o, st, now, avgRtt, playStart).closed == st.closed
    decreases DueSegment(o, st, now) - st.highest
  {
    if NextSegDue(o, st, now) && WithinCwnd(st) {
      var s1 := GrowNext(o, st, now, avgRtt, playStart);
      GrowClosed(o, s1, now, avgRtt, playStart);
    }
  }

  /** A tick that starts with the final block known and reached sends no new segment:
      the window cursor stays where it was and every Interest of the tick is a
      retransmission of a queued segment. */
  lemma TickRespectsFinalBlock(o: Options, st: FetchState, now: int, avgRtt: int, playStart: int)
    requires ValidOptions(o)
    requires st.finalBlock != UNKNOWN && st.highest >= st.finalBlock
    ensures var r := TickF(o, st, now, avgRtt, playStart);
      && r.highest == st.highest
      && |st.sent| <= |r.sent|
      && forall x :: x in Segs(SentSince(st, r)) ==> x in st.queue
  {
    if !st.closed {
      DrainFrame(o, st, now, avgRtt, playStart);
      DrainFromQueue(o, st, now, avgRtt, playStart);
    }
  }

  /** The second loop does not look at the final block again once it runs: with the
      final block at segment 0 and nothing sent yet, a tick 384 ms into an 8000 Hz,
      one-frame-per-segment stream sends segments 0 to 3. */
  lemma GrowOvershootsFinalBlock()
    ensures var o := Options(1, 5, 8000, 1024);
      var st := InitialFetch().(finalBlock := 0);
      ValidOptions(o) && TickF(o, st, 384, 0, UNKNOWN).highest == 3
  {
    var o := Options(1, 5, 8000, 1024);
    NarrowbandExample();
    var st := InitialFetch().(finalBlock := 0);
    assert DueSegment(o, st, 384) == 3;
    var s := st;
    var i := 0;
    while i < 4
      invariant 0 <= i <= 4
      invariant s.highest == i - 1 && s.fetchStart == 0 && |s.tokens| <= i
      invariant GrowF(o, s, 384, 0, UNKNOWN) == GrowF(o, st, 384, 0, UNKNOWN)
      decreases 4 - i
    {
      var s0 := s.(highest := s.highest + 1);
      s := TransmitF(o, s0, s0.highest, false, 384, 0, UNKNOWN);
      i := i + 1;
    }
    assert GrowF(o, s, 384, 0, UNKNOWN) == s;
  }

  // ---------------------------------------------------------------- the invariant

  /** Transmitting a segment that has been sent before and is not queued, while the
      window has room, keeps the invariant. */
  lemma TransmitKeepsInv(o: Options, st: FetchState, seg: int, isRetx: bool, now: int, avgRtt: int, playStart: int)
    requires o.producerSamplingRate > 0 && o.samplesPerFrame > 0
    requires Inv(st) && seg !in st.queue && 0 <= seg <= st.highest && WithinCwnd(st)
    ensures Inv(TransmitF(o, st, seg, isRetx, now, avgRtt, playStart))
  {
  }

  lemma {:induction false} DrainKeepsInv(o: Options, st: FetchState, now: int, avgRtt: int, playStart: int)
    requires o.producerSamplingRate > 0 && o.samplesPerFrame > 0
    requires Inv(st)
    ensures Inv(DrainF(o, st, now, avgRtt, playStart))
    decreases |st.queue|
  {
    if st.queue != [] && WithinCwnd(st) {
      var q := st.queue;
      IncreasingAbove(q);
      var s0 := st.(queue := q[1..]);
      assert q[0] in q;
      assert forall s :: s in q[1..] ==> s in q;
      TransmitKeepsInv(o, s0, q[0], true, now, avgRtt, playStart);
      DrainKeepsInv(o, TransmitF(o, s0, q[0], true, now, avgRtt, playStart), now, avgRtt, playStart);
    }
  }

  /** Moving the window cursor on keeps the invariant, and the segment it then names is
      not queued. */
  lemma AdvanceKeepsInv(st: FetchState)
    requires Inv(st)
    ensures Inv(st.(highest := st.highest + 1)) && st.highest + 1 !in st.queue
  {
  }

  lemma {:induction false} GrowKeepsInv(o: Options, st: FetchState, now: int, avgRtt: int, playStart: int)
    requires ValidOptions(o)
    requires Inv(st)
    ensures Inv(GrowF(o, st, now, avgRtt, playStart))
    decreases DueSegment(o, st, now) - st.highest
  {
    if NextSegDue(o, st, now) && WithinCwnd(st) {
      var s1 := GrowNext(o, st, now, avgRtt, playStart);
      GrowKeepsInv(o, s1, now, avgRtt, playStart);
    }
  }

  /** A tick keeps the invariant; in particular at most 50 Interests are ever
      outstanding. */
  lemma TickKeepsInv(o: Options, st: FetchState, now: int, avgRtt: int, playStart: int)
    requires ValidOptions(o) && Inv(st)
    ensures Inv(TickF(o, st, now, avgRtt, playStart))
    ensures |TickF(o, st, now, avgRtt, playStart).tokens| <= MAX_CWND
  {
    if !st.closed {
      var st1 := DrainF(o, st, now, avgRtt, playStart);
      DrainKeepsInv(o, st, now, avgRtt, playStart);
      if st1.finalBlock == UNKNOWN || st1.highest < st1.finalBlock {
        GrowKeepsInv(o, st1, now, avgRtt, playStart);
      }
    }
  }

  // ---------------------------------------------------------------- timers and responses

  /** The timer of an outstanding segment moves it from the armed timers to the queue;
      the invariant is kept. */
  lemma RtoMovesToQueue(st: FetchState, seg: int)
    requires Inv(st) && seg in st.tokens
    ensures var r := RtoFireF(st, seg);
      && Inv(r)
      && seg in r.queue && seg !in r.tokens
      && multiset(r.queue) == multiset(st.queue) + multiset{seg}
      && r.tokens == st.tokens - {seg} && r.timers == st.timers - {seg}
      && r.counters.interestTimeouts == st.counters.interestTimeouts + 1
  {
    var r := RtoFireF(st, seg);
    EnqueueIncreasing(st.queue, seg);
    EnqueueContents(st.queue, seg);
    assert seg in multiset(r.queue);
    forall s | s in r.queue ensures s == seg || s in st.queue {
      assert s in multiset(r.queue);
    }
  }

  /** The start of processData on its own: the premature-timeout count and the RTT
      sample, and nothing else. */
  lemma AckFacts(st: FetchState, seg: int, receiveTime: int)
    ensures var r := AckF(st, seg, receiveTime);
      && r.counters.prematureRtos == st.counters.prematureRtos + (if seg in st.queue then 1 else 0)
      && r.rttSamples == st.rttSamples + (if seg in st.sendTimes then [receiveTime - st.sendTimes[seg]] else [])
      && r.sendTimes == st.sendTimes - {seg}
      && r.queue == st.queue && r.tokens == st.tokens && r.timers == st.timers
      && r.finalBlock == st.finalBlock && r.highest == st.highest
  {
  }

  /** The end of processData on its own: the segment leaves the queue and the armed
      timers, and on a queue without repetitions it is gone from it entirely. Its pending
      timer is cancelled; when it had no token, every pending timer is. */
  lemma SettleFacts(st: FetchState, seg: int, e: PacketEvent)
    requires e != PrematureRto
    ensures var r := SettleF(st, seg, e);
      && r.counters.prematureRtos == st.counters.prematureRtos
      && r.rttSamples == st.rttSamples && r.sendTimes == st.sendTimes
      && r.finalBlock == st.finalBlock && r.highest == st.highest
      && r.tokens == st.tokens - {seg}
      && r.timers == (if seg in st.tokens then st.timers - {seg} else {})
      && multiset(r.queue) == multiset(st.queue) - multiset{seg}
      && (Increasing(st.queue) ==> Increasing(r.queue) && seg !in r.queue)
  {
    RemoveContents(st.queue, seg);
    if Increasing(st.queue) {
      RemoveIncreasing(st.queue, seg);
    }
  }

  /** The first half of processData: a premature timeout is counted exactly when the
      segment is queued, and an RTT sample (receive time minus send time) is taken exactly
      when a send time is recorded, which is then forgotten. */
  lemma ResponseMeasures(st: FetchState, d: Data, receiveTime: int)
    requires d.name.SegmentComponent?
    ensures var seg, r := d.name.segNum, ResponseF(st, d, receiveTime);
      && r.counters.prematureRtos == st.counters.prematureRtos + (if seg in st.queue then 1 else 0)
      && r.rttSamples == st.rttSamples + (if seg in st.sendTimes then [receiveTime - st.sendTimes[seg]] else [])
      && seg !in r.sendTimes
      && r.sendTimes == st.sendTimes - {seg}
  {
    var seg := d.name.segNum;
    var st1 := AckF(st, seg, receiveTime);
    AckFacts(st, seg, receiveTime);
    match d.payload
    case AppNack(f) =>
      SettleFacts(st1.(finalBlock := f), seg, NackReceive);
    case AudioData(content, fb) =>
      if Parse(content).Ok? {
        var st2 := if fb.Some? && fb.value.SegmentComponent? then st1.(finalBlock := fb.value.segNum) else st1;
        SettleFacts(st2, seg, AudioPacketReceive);
      }
  }

  /** The second half: a NACK sets the final block id to its payload; audio sets it from
      a FinalBlockId that is a segment and leaves it otherwise; and unless the payload
      could not be split, the segment is afterwards neither queued nor outstanding. A
      payload that cannot be split leaves queue, timers and final block as they were. */
  lemma ResponseSettles(st: FetchState, d: Data, receiveTime: int)
    requires Increasing(st.queue) && d.name.SegmentComponent?
    ensures var seg, r := d.name.segNum, ResponseF(st, d, receiveTime);
      && (d.payload.AppNack? ==> r.finalBlock == d.payload.finalSegNum && seg !in r.queue && seg !in r.tokens)
      && (d.payload.AudioData? && Parse(d.payload.content).Ok? ==>
            && r.finalBlock == (match d.payload.finalBlockId
                                case Some(SegmentComponent(n)) => n
                                case _ => st.finalBlock)
            && seg !in r.queue && seg !in r.tokens)
      && (d.payload.AudioData? && Parse(d.payload.content).Err? ==>
            r.queue == st.queue && r.tokens == st.tokens && r.finalBlock == st.finalBlock)
  {
    var seg := d.name.segNum;
    var st1 := AckF(st, seg, receiveTime);
    AckFacts(st, seg, receiveTime);
    match d.payload
    case AppNack(f) =>
      SettleFacts(st1.(finalBlock := f), seg, NackReceive);
    case AudioData(content, fb) =>
      if Parse(content).Ok? {
        var st2 := if fb.Some? && fb.value.SegmentComponent? then st1.(finalBlock := fb.value.segNum) else st1;
        SettleFacts(st2, seg, AudioPacketReceive);
      }
  }

  /** A response whose name is not a segment changes nothing. */
  lemma ResponseIgnoresOtherNames(st: FetchState, d: Data, receiveTime: int)
    requires d.name.OtherComponent?
    ensures ResponseF(st, d, receiveTime) == st
  {
  }

  /** Responses keep the invariant. */
  lemma ResponseKeepsInv(st: FetchState, d: Data, receiveTime: int)
    requires Inv(st)
    ensures Inv(ResponseF(st, d, receiveTime))
  {
    if d.name.SegmentComponent? {
      var seg := d.name.segNum;
      var st1 := AckF(st, seg, receiveTime);
      AckFacts(st, seg, receiveTime);
      assert Inv(st1);
      match d.payload
      case AppNack(f) =>
        SettleKeepsInv(st1.(finalBlock := f), seg, NackReceive);
      case AudioData(content, fb) =>
        if Parse(content).Ok? {
          var st2 := if fb.Some? && fb.value.SegmentComponent? then st1.(finalBlock := fb.value.segNum) else st1;
          SettleKeepsInv(st2, seg, AudioPacketReceive);
        }
    }
  }

  lemma SettleKeepsInv(st: FetchState, seg: int, e: PacketEvent)
    requires Inv(st) && e != PrematureRto
    ensures Inv(SettleF(st, seg, e))
  {
    var r := SettleF(st, seg, e);
    SettleFacts(st, seg, e);
    forall s | s in r.queue ensures s in st.queue {
      assert s in multiset(r.queue);
    }
  }

  // ---------------------------------------------------------------- cancelled timers

  /** Which timers a response leaves pending. A response that is settled cancels the
      segment's own timer when the segment holds a token, and every pending timer when
      it does not, which is always the case for a segment waiting in the retransmission
      queue. A payload that cannot be split cancels nothing. */
  lemma ResponseCancelsTimers(st: FetchState, d: Data, receiveTime: int)
    requires d.name.SegmentComponent?
    ensures var seg, r := d.name.segNum, ResponseF(st, d, receiveTime);
      var settled := d.payload.AppNack? || Parse(d.payload.content).Ok?;
      && (settled ==> r.tokens == st.tokens - {seg}
                      && r.timers == (if seg in st.tokens then st.timers - {seg} else {}))
      && (settled && Inv(st) && seg in st.queue ==> r.timers == {})
      && (!settled ==> r.tokens == st.tokens && r.timers == st.timers)
  {
    var seg := d.name.segNum;
    var st1 := AckF(st, seg, receiveTime);
    AckFacts(st, seg, receiveTime);
    match d.payload
    case AppNack(f) =>
      SettleFacts(st1.(finalBlock := f), seg, NackReceive);
    case AudioData(content, fb) =>
      if Parse(content).Ok? {
        var st2 := if fb.Some? && fb.value.SegmentComponent? then st1.(finalBlock := fb.value.segNum) else st1;
        SettleFacts(st2, seg, AudioPacketReceive);
      }
  }

  /** Segment `s` is outstanding but its timer has been cancelled: nothing will put it
      back in the retransmission queue. */
  predicate Stranded(st: FetchState, s: int) {
    s in st.tokens && s !in st.timers
  }

  lemma {:induction false} DrainKeepsStranded(o: Options, st: FetchState, s: int, now: int, avgRtt: int, playStart: int)
    requires o.producerSamplingRate > 0 && o.samplesPerFrame > 0
    requires Inv(st) && Stranded(st, s)
    ensures Stranded(DrainF(o, st, now, avgRtt, playStart), s)
    decreases |st.queue|
  {
    if st.queue != [] && WithinCwnd(st) {
      var q := st.queue;
      IncreasingAbove(q);
      var s0 := st.(queue := q[1..]);
      assert q[0] in q;
      assert forall x :: x in q[1..] ==> x in q;
      TransmitKeepsInv(o, s0, q[0], true, now, avgRtt, playStart);
      TransmitRule(o, s0, q[0], true, now, avgRtt, playStart);
      DrainKeepsStranded(o, TransmitF(o, s0, q[0], true, now, avgRtt, playStart), s, now, avgRtt, playStart);
    }
  }

  lemma {:induction false} GrowKeepsStranded(o: Options, st: FetchState, s: int, now: int, avgRtt: int, playStart: int)
    requires ValidOptions(o)
    requires Inv(st) && Stranded(st, s)
    ensures Stranded(GrowF(o, st, now, avgRtt, playStart), s)
    decreases DueSegment(o, st, now) - st.highest
  {
    if NextSegDue(o, st, now) && WithinCwnd(st) {
      var s1 := GrowNext(o, st, now, avgRtt, playStart);
      GrowKeepsStranded(o, s1, s, now, avgRtt, playStart);
    }
  }

  /** A stranded segment stays stranded through every tick, and keeps an open fetcher
      from ever closing. */
  lemma TickKeepsStranded(o: Options, st: FetchState, s: int, now: int, avgRtt: int, playStart: int)
    requires ValidOptions(o) && Inv(st) && Stranded(st, s)
    ensures var r := TickF(o, st, now, avgRtt, playStart);
      Stranded(r, s) && r.closed == st.closed
  {
    if !st.closed {
      var st1 := DrainF(o, st, now, avgRtt, playStart);
      DrainKeepsStranded(o, st, s, now, avgRtt, playStart);
      DrainKeepsInv(o, st, now, avgRtt, playStart);
      DrainClosed(o, st, now, avgRtt, playStart);
      if st1.finalBlock == UNKNOWN || st1.highest < st1.finalBlock {
        GrowKeepsStranded(o, st1, s, now, avgRtt, playStart);
        GrowClosed(o, st1, now, avgRtt, playStart);
      }
    }
  }

  /** ... and through every response but its own and every other segment's timer. */
  lemma OthersKeepStranded(st: FetchState, s: int, d: Data, receiveTime: int, t: int)
    requires Stranded(st, s) && t != s
    requires !(d.name.SegmentComponent? && d.name.segNum == s)
    ensures Stranded(ResponseF(st, d, receiveTime), s)
    ensures Stranded(RtoFireF(st, t), s)
  {
    if d.name.SegmentComponent? {
      ResponseCancelsTimers(st, d, receiveTime);
    }
  }

  /** Segments 7 and 8 are outstanding; 7's timer fires, then the original answer for 7
      arrives. That answer cancels 8's timer too, so 8 is stranded: unless its own answer
      arrives it is never retransmitted, and the fetcher never closes. */
  lemma PrematureRtoStrandsSegment()
    ensures var st := InitialFetch().(tokens := {7, 8}, timers := {7, 8}, highest := 8);
      var r := ResponseF(RtoFireF(st, 7), Data(SegmentComponent(7), AudioData(SilentFrame(), None)), 0);
      && Inv(st) && Inv(r)
      && r.tokens == {8} && r.timers == {} && Stranded(r, 8)
  {
    var st := InitialFetch().(tokens := {7, 8}, timers := {7, 8}, highest := 8);
    SilentFrameWellFormed();
    RtoMovesToQueue(st, 7);
    var r1 := RtoFireF(st, 7);
    assert r1.queue == [7] by { EnqueueContents([], 7); }
    ResponseCancelsTimers(r1, Data(SegmentComponent(7), AudioData(SilentFrame(), None)), 0);
    ResponseKeepsInv(r1, Data(SegmentComponent(7), AudioData(SilentFrame(), None)), 0);
  }
}
