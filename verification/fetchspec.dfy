/** The stream fetcher (StreamFetcher) as a state machine on values: the retransmission
    queue, the armed retransmission timers, the send times, the window cursor and the
    final block id; one tick of doSomeWork with its two loops, transmitInterest, the
    retransmission timer and processData, and what is proved about them. The class
    Fetching.StreamFetcher performs the same steps in place and is proved equal to
    these functions. */
module FetchSpec {
  import opened Timing
  import opened Adts
  import opened Jitter
  import opened BufferSpec
  import opened Transport

  /** CwndCalculator.MAX_CWND: the window is fixed at 50 outstanding Interests. */
  const MAX_CWND: int := 50
  const DEFAULT_INTEREST_LIFETIME_MS: int := 4000

  /** The events recordPacketEvent counts. */
  datatype PacketEvent =
    | AudioPacketReceive
    | InterestTimeout
    | InterestTransmit
    | PrematureRto
    | InterestSkip
    | NackReceive

  datatype Counters = Counters(
    dataReceives: nat,
    interestTimeouts: nat,
    interestsTransmitted: nat,
    prematureRtos: nat,
    interestSkips: nat,
    nacks: nat)

  /** The counter that counts event `e`. */
  function Count(c: Counters, e: PacketEvent): nat {
    match e
    case AudioPacketReceive => c.dataReceives
    case InterestTimeout => c.interestTimeouts
    case InterestTransmit => c.interestsTransmitted
    case PrematureRto => c.prematureRtos
    case InterestSkip => c.interestSkips
    case NackReceive => c.nacks
  }

  /** All events counted so far. */
  function Total(c: Counters): nat {
    c.dataReceives + c.interestTimeouts + c.interestsTransmitted + c.prematureRtos + c.interestSkips + c.nacks
  }

  /** recordPacketEvent. */
  function Record(c: Counters, e: PacketEvent): Counters
  {
    match e
    case AudioPacketReceive => c.(dataReceives := c.dataReceives + 1)
    case InterestTimeout => c.(interestTimeouts := c.interestTimeouts + 1)
    case InterestTransmit => c.(interestsTransmitted := c.interestsTransmitted + 1)
    case PrematureRto => c.(prematureRtos := c.prematureRtos + 1)
    case InterestSkip => c.(interestSkips := c.interestSkips + 1)
    case NackReceive => c.(nacks := c.nacks + 1)
  }

  /** Recording an event raises that event's own counter by one and leaves every other
      counter alone, so one more event is counted in all. */
  lemma RecordCounts(c: Counters, e: PacketEvent)
    ensures forall x :: Count(Record(c, e), x) == Count(c, x) + (if x == e then 1 else 0)
    ensures Total(Record(c, e)) == Total(c) + 1
  {
  }

  /** The fields of StreamFetcher, plus the Interests it has handed to the network. */
  datatype FetchState = FetchState(
    queue: seq<int>,            // retransmissionQueue_, in ascending order
    tokens: set<int>,           // the keys of rtoTokens_: segments with a timer armed
    timers: set<int>,           // segments whose timer runnable is still pending
    sendTimes: map<int, int>,   // segSendTimes_
    highest: int,               // highestSegSent_
    finalBlock: int,            // streamFinalBlockId_
    counters: Counters,
    closed: bool,
    fetchStart: int,            // streamFetchStartTime_
    rttSamples: seq<int>,       // the measurements given to the RTT estimator
    sent: seq<Interest>)

  /** The state the constructor leaves; the fetch start time is Java's default 0 until
      it is set. */
  function InitialFetch(): (st: FetchState)
    ensures st.queue == [] && st.tokens == {} && st.timers == {} && st.sendTimes == map[] && !st.closed
    ensures st.highest == UNKNOWN && st.finalBlock == UNKNOWN
  {
    FetchState([], {}, {}, map[], UNKNOWN, UNKNOWN, Counters(0, 0, 0, 0, 0, 0), false, 0, [], [])
  }

  /** The segment numbers of a run of Interests. */
  function Segs(ins: seq<Interest>): (r: seq<int>)
    ensures |r| == |ins| && forall i :: 0 <= i < |ins| ==> r[i] == ins[i].segNum
  {
    seq(|ins|, i requires 0 <= i < |ins| => ins[i].segNum)
  }

  /** The Interests sent since state `st`. */
  function SentSince(st: FetchState, r: FetchState): seq<Interest>
    requires |st.sent| <= |r.sent|
  {
    r.sent[|st.sent|..]
  }

  // ---------------------------------------------------------------- the queue

  /** Non-decreasing, stated on neighbours. */
  predicate Ascending(q: seq<int>) {
    |q| <= 1 || (q[0] <= q[1] && Ascending(q[1..]))
  }

  /** Strictly increasing: ascending without repetitions. */
  predicate Increasing(q: seq<int>) {
    |q| <= 1 || (q[0] < q[1] && Increasing(q[1..]))
  }

  predicate AtLeast(q: seq<int>, b: int) {
    forall i :: 0 <= i < |q| ==> b <= q[i]
  }

  lemma {:induction false} IncreasingAbove(q: seq<int>)
    requires Increasing(q) && q != []
    ensures forall x :: x in q[1..] ==> q[0] < x
    decreases |q|
  {
    if |q| > 1 {
      IncreasingAbove(q[1..]);
      assert q[1..][1..] == q[2..];
      forall x | x in q[1..] ensures q[0] < x {
        if x != q[1] {
          assert x in q[1..][1..];
        }
      }
    }
  }

  lemma {:induction false} AscendingAbove(q: seq<int>)
    requires Ascending(q) && q != []
    ensures AtLeast(q, q[0])
    decreases |q|
  {
    if |q| > 1 {
      AscendingAbove(q[1..]);
    }
  }

  lemma AscendingCons(x: int, t: seq<int>)
    requires Ascending(t) && (t != [] ==> x <= t[0])
    ensures Ascending([x] + t)
  {
    assert ([x] + t)[1..] == t;
  }

  lemma IncreasingCons(x: int, t: seq<int>)
    requires Increasing(t) && (t != [] ==> x < t[0])
    ensures Increasing([x] + t)
  {
    assert ([x] + t)[1..] == t;
  }

  /** PriorityQueue.add on the retransmission queue. */
  function Enqueue(q: seq<int>, s: int): seq<int>
  {
    if q == [] then [s]
    else if s < q[0] then [s] + q
    else [q[0]] + Enqueue(q[1..], s)
  }

  /** The queue gains exactly `s`, and its head is the smaller of `s` and the old head. */
  lemma {:induction false} EnqueueContents(q: seq<int>, s: int)
    ensures multiset(Enqueue(q, s)) == multiset(q) + multiset{s}
    ensures Enqueue(q, s)[0] == if q != [] && q[0] <= s then q[0] else s
    decreases |q|
  {
    if q != [] && s >= q[0] {
      assert q == [q[0]] + q[1..];
      EnqueueContents(q[1..], s);
    }
  }

  lemma {:induction false} EnqueueAscending(q: seq<int>, s: int)
    requires Ascending(q)
    ensures Ascending(Enqueue(q, s))
    decreases |q|
  {
    if q == [] {
    } else if s < q[0] {
      AscendingCons(s, q);
    } else {
      EnqueueAscending(q[1..], s);
      EnqueueContents(q[1..], s);
      AscendingCons(q[0], Enqueue(q[1..], s));
    }
  }

  /** Adding a segment that is not queued keeps the queue free of repetitions. */
  lemma {:induction false} EnqueueIncreasing(q: seq<int>, s: int)
    requires Increasing(q) && s !in q
    ensures Increasing(Enqueue(q, s))
    decreases |q|
  {
    if q == [] {
    } else if s < q[0] {
      IncreasingCons(s, q);
    } else {
      assert s != q[0] && s !in q[1..];
      EnqueueIncreasing(q[1..], s);
      EnqueueContents(q[1..], s);
      IncreasingCons(q[0], Enqueue(q[1..], s));
    }
  }

  /** PriorityQueue.remove: take out one occurrence of `s`, if there is one. */
  function Remove(q: seq<int>, s: int): seq<int>
  {
    if q == [] then []
    else if q[0] == s then q[1..] else [q[0]] + Remove(q[1..], s)
  }

  /** The queue loses one occurrence of `s`, if it had one, and nothing else. */
  lemma {:induction false} RemoveContents(q: seq<int>, s: int)
    ensures multiset(Remove(q, s)) == multiset(q) - multiset{s}
    decreases |q|
  {
    if q != [] {
      assert q == [q[0]] + q[1..];
      if q[0] != s {
        RemoveContents(q[1..], s);
      }
    }
  }

  /** On a queue without repetitions, the removed segment is gone entirely. */
  lemma {:induction false} RemoveIncreasing(q: seq<int>, s: int)
    requires Increasing(q)
    ensures Increasing(Remove(q, s)) && s !in Remove(q, s)
    decreases |q|
  {
    if q != [] {
      IncreasingAbove(q);
      if q[0] != s {
        var rest := Remove(q[1..], s);
        RemoveIncreasing(q[1..], s);
        RemoveContents(q[1..], s);
        if rest != [] {
          assert rest[0] in multiset(rest);
        }
        IncreasingCons(q[0], rest);
      }
    }
  }

  // ---------------------------------------------------------------- one tick

  /** withinCwnd. */
  predicate WithinCwnd(st: FetchState) {
    |st.tokens| < MAX_CWND
  }

  /** The playback deadline of the first frame of segment `seg`. */
  function SegmentDeadline(o: Options, playStart: int, seg: int): int
    requires o.producerSamplingRate > 0 && o.samplesPerFrame > 0
  {
    PlaybackDeadline(o, playStart, o.framesPerSegment * seg)
  }

  /** Whether transmitInterest gives up on the segment: its first frame's deadline is
      known and would pass before an answer could arrive. */
  predicate SkipsSegment(o: Options, playStart: int, seg: int, now: int, avgRtt: int)
    requires o.producerSamplingRate > 0 && o.samplesPerFrame > 0
  {
    var deadline := SegmentDeadline(o, playStart, seg);
    deadline != UNKNOWN && now + avgRtt > deadline
  }

  /** transmitInterest at time `now`, with the RTT estimator's current average. A skip
      only counts the skip. A send arms a timer for the segment, forgets its send time
      when it is a retransmission (so its answer yields no RTT sample) or records it when
      it is a first send, and expresses an Interest whose lifetime runs to the deadline,
      or 4 seconds when there is none. */
  function TransmitF(o: Options, st: FetchState, seg: int, isRetx: bool, now: int, avgRtt: int,
                     playStart: int): (r: FetchState)
    requires o.producerSamplingRate > 0 && o.samplesPerFrame > 0
    ensures r.queue == st.queue && r.highest == st.highest && r.fetchStart == st.fetchStart
    ensures r.finalBlock == st.finalBlock && r.closed == st.closed
  {
    if SkipsSegment(o, playStart, seg, now, avgRtt) then
      st.(counters := Record(st.counters, InterestSkip))
    else
      var deadline := SegmentDeadline(o, playStart, seg);
      var lifetime := if deadline == UNKNOWN then DEFAULT_INTEREST_LIFETIME_MS else deadline - now;
      st.(tokens := st.tokens + {seg},
          timers := st.timers + {seg},
          sendTimes := if isRetx then st.sendTimes - {seg} else st.sendTimes[seg := now],
          sent := st.sent + [Interest(seg, lifetime)],
          counters := Record(st.counters, InterestTransmit))
  }

  /** The first loop of doSomeWork: retransmit the queue's minimum while the queue is not
      empty and the window has room. */
  function DrainF(o: Options, st: FetchState, now: int, avgRtt: int, playStart: int): FetchState
    requires o.producerSamplingRate > 0 && o.samplesPerFrame > 0
    decreases |st.queue|
  {
    if st.queue != [] && WithinCwnd(st) then
      var seg := st.queue[0];
      DrainF(o, TransmitF(o, st.(queue := st.queue[1..]), seg, true, now, avgRtt, playStart),
        now, avgRtt, playStart)
    else st
  }

  /** The segment number the elapsed fetch time has reached. */
  function DueSegment(o: Options, st: FetchState, now: int): int
    requires ValidOptions(o)
  {
    JavaDiv(now - st.fetchStart, MsPerSeg(o))
  }

  /** nextSegShouldBeSent. */
  predicate NextSegDue(o: Options, st: FetchState, now: int)
    requires ValidOptions(o)
  {
    DueSegment(o, st, now) > st.highest
  }

  /** The second loop of doSomeWork: while the next segment is due and the window has
      room, move the window cursor on and send the segment it now names. */
  function GrowF(o: Options, st: FetchState, now: int, avgRtt: int, playStart: int): FetchState
    requires ValidOptions(o)
    decreases DueSegment(o, st, now) - st.highest
  {
    if NextSegDue(o, st, now) && WithinCwnd(st) then
      var st1 := st.(highest := st.highest + 1);
      GrowF(o, TransmitF(o, st1, st1.highest, false, now, avgRtt, playStart), now, avgRtt, playStart)
    else st
  }

  /** Whether the fetcher has nothing left to do: nothing queued, nothing outstanding and
      the final block known. */
  predicate Complete(st: FetchState) {
    st.queue == [] && st.tokens == {} && st.finalBlock != UNKNOWN
  }

  /** StreamFetcher.doSomeWork at time `now`. The second loop runs only when the final
      block is unknown or not yet reached at the moment it starts, and does not look at
      the final block again while it runs. */
  function TickF(o: Options, st: FetchState, now: int, avgRtt: int, playStart: int): FetchState
    requires ValidOptions(o)
  {
    if st.closed then st
    else
      var st1 := DrainF(o, st, now, avgRtt, playStart);
      var st2 :=
        if st1.finalBlock == UNKNOWN || st1.highest < st1.finalBlock
        then GrowF(o, st1, now, avgRtt, playStart) else st1;
      if Complete(st2) then st2.(closed := true) else st2
  }

  /** The retransmission timer of segment `seg` fires: the segment goes back in the
      queue and is no longer outstanding. */
  function RtoFireF(st: FetchState, seg: int): FetchState {
    st.(queue := Enqueue(st.queue, seg),
        tokens := st.tokens - {seg},
        timers := st.timers - {seg},
        counters := Record(st.counters, InterestTimeout))
  }

  /** The start of processData for segment `seg`: count a premature retransmission
      timeout if the segment is queued for retransmission, and take an RTT sample if the
      segment's send time is known, forgetting it. */
  function AckF(st: FetchState, seg: int, receiveTime: int): FetchState {
    var st1 := if seg in st.queue then st.(counters := Record(st.counters, PrematureRto)) else st;
    if seg in st1.sendTimes then
      st1.(rttSamples := st1.rttSamples + [receiveTime - st1.sendTimes[seg]],
           sendTimes := st1.sendTimes - {seg})
    else st1
  }

  /** The end of processData: count the packet, drop the segment from the queue and
      from the armed timers, and cancel the callbacks posted with the segment's token.
      A segment with no token has a null token, and cancelling by a null token removes
      every pending callback of the fetcher's handler: all retransmission timers. */
  function SettleF(st: FetchState, seg: int, e: PacketEvent): FetchState {
    st.(counters := Record(st.counters, e),
        queue := Remove(st.queue, seg),
        tokens := st.tokens - {seg},
        timers := if seg in st.tokens then st.timers - {seg} else {})
  }

  /** processData. A name that is not a segment is ignored. A NACK carries the final
      block id. Audio goes to the player buffer; when its payload cannot be split the
      exception leaves processData at that point; otherwise a FinalBlockId meta-info
      field that decodes as a segment sets the final block id. */
  function ResponseF(st: FetchState, d: Data, receiveTime: int): FetchState {
    match d.name
    case OtherComponent => st
    case SegmentComponent(seg) =>
      var st1 := AckF(st, seg, receiveTime);
      match d.payload
      case AppNack(f) => SettleF(st1.(finalBlock := f), seg, NackReceive)
      case AudioData(content, fb) =>
        if Parse(content).Err? then st1
        else
          var st2 := if fb.Some? && fb.value.SegmentComponent? then st1.(finalBlock := fb.value.segNum) else st1;
          SettleF(st2, seg, AudioPacketReceive)
  }

  /** What processData does to the player buffer: a NACK forwards the final segment
      number, audio has its frames queued. */
  function ResponseBufferF(o: Options, bst: BufferState, d: Data): BufferState
    requires o.producerSamplingRate > 0 && o.samplesPerFrame > 0
    requires Sorted(bst.jitter)
  {
    match d.name
    case OtherComponent => bst
    case SegmentComponent(seg) =>
      match d.payload
      case AppNack(f) => FinalSegB(o, bst, f)
      case AudioData(content, _) =>
        if Parse(content).Err? then bst else SegmentB(o, bst, Parse(content).value, seg)
  }

  // ---------------------------------------------------------------- the invariant

  /** What holds of every reachable fetcher state: the queue is strictly ascending and
      disjoint from the armed timers, at most 50 timers are armed, and every segment the
      fetcher holds anything about has been sent; a pending timer belongs to an armed
      segment. */
  predicate Inv(st: FetchState) {
    && Increasing(st.queue)
    && (forall s :: s in st.queue ==> s !in st.tokens)
    && st.timers <= st.tokens
    && |st.tokens| <= MAX_CWND
    && st.highest >= UNKNOWN
    && (forall s :: s in st.queue ==> 0 <= s <= st.highest)
    && (forall s :: s in st.tokens ==> 0 <= s <= st.highest)
    && (forall s :: s in st.sendTimes ==> 0 <= s <= st.highest)
  }

  lemma InitialInv()
    ensures Inv(InitialFetch())
  {
  }
}
