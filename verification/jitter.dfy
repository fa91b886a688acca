/** The jitter buffer's priority queue of frames (StreamPlayerBuffer.jitterBuffer_), the
    numbering of a segment's frames and the play/skip decision taken at the cursor.
    The queue is a java.util.PriorityQueue ordered by frame number only; it is modelled
    as a sequence sorted by frame number whose head is the queue's minimum. Two frames
    with the same number may both be present; a new one is placed after those already
    there. */
module Jitter {
  import opened Adts

  datatype Frame = Frame(frameNum: int, data: seq<byte>)

  /** Ordered by frame number, stated pairwise on neighbours so that it unfolds one
      frame at a time. */
  predicate Sorted(h: seq<Frame>) {
    |h| <= 1 || (h[0].frameNum <= h[1].frameNum && Sorted(h[1..]))
  }

  /** The head of an ordered queue is its minimum. */
  lemma {:induction false} SortedHeadMin(h: seq<Frame>, i: int)
    requires Sorted(h) && 0 <= i < |h|
    ensures h[0].frameNum <= h[i].frameNum
    decreases i
  {
    if i > 0 {
      SortedHeadMin(h[1..], i - 1);
    }
  }

  /** PriorityQueue.add. */
  function Insert(h: seq<Frame>, f: Frame): (r: seq<Frame>)
    requires Sorted(h)
    ensures Sorted(r)
    ensures multiset(r) == multiset(h) + multiset{f}
    ensures |r| == |h| + 1
    ensures r[0] == if h != [] && h[0].frameNum <= f.frameNum then h[0] else f
  {
    if h == [] then [f]
    else if f.frameNum < h[0].frameNum then
      SortedCons(f, h);
      [f] + h
    else
      PollSorted(h);
      var rest := Insert(h[1..], f);
      SortedCons(h[0], rest);
      [h[0]] + rest
  }

  /** A frame no later than the head of an ordered queue can be put in front of it. */
  lemma SortedCons(x: Frame, t: seq<Frame>)
    requires Sorted(t) && (t != [] ==> x.frameNum <= t[0].frameNum)
    ensures Sorted([x] + t)
    ensures multiset([x] + t) == multiset{x} + multiset(t)
  {
    assert ([x] + t)[1..] == t;
  }

  /** The i-th parsed frame of a segment whose first frame number is `base` is frame
      `base + i` (processAdtsFrames, frameNum = segNum * framesPerSegment + i). */
  function Numbered(fs: seq<seq<byte>>, base: int): (r: seq<Frame>)
    ensures |r| == |fs|
    ensures forall k :: 0 <= k < |fs| ==> r[k] == Frame(base + k, fs[k])
  {
    seq(|fs|, k requires 0 <= k < |fs| => Frame(base + k, fs[k]))
  }

  /** Adding the first `n` frames of one segment in order, as the first `n` iterations
      of processAdtsFrames' loop do. */
  function InsertFrames(h: seq<Frame>, fs: seq<seq<byte>>, n: nat, base: int): (r: seq<Frame>)
    requires Sorted(h) && n <= |fs|
    ensures Sorted(r)
    ensures |r| == |h| + n
    decreases n
  {
    if n == 0 then h
    else Insert(InsertFrames(h, fs, n - 1, base), Frame(base + n - 1, fs[n - 1]))
  }

  /** Inserting a segment's frames adds exactly its numbered frames and removes nothing. */
  lemma {:induction false} InsertFramesContents(h: seq<Frame>, fs: seq<seq<byte>>, n: nat, base: int)
    requires Sorted(h) && n <= |fs|
    ensures multiset(InsertFrames(h, fs, n, base)) == multiset(h) + multiset(Numbered(fs, base)[..n])
    decreases n
  {
    if n > 0 {
      InsertFramesContents(h, fs, n - 1, base);
      NumberedPrefix(fs, base, n);
    }
  }

  lemma NumberedPrefix(fs: seq<seq<byte>>, base: int, n: nat)
    requires 0 < n <= |fs|
    ensures multiset(Numbered(fs, base)[..n])
         == multiset(Numbered(fs, base)[..n - 1]) + multiset{Frame(base + n - 1, fs[n - 1])}
  {
    var nf := Numbered(fs, base);
    assert nf[..n] == nf[..n - 1] + [nf[n - 1]];
  }

  /** processAdtsFrames' loop: queue every parsed frame of a segment, in order. */
  method QueueSegment(h: seq<Frame>, parsedFrames: seq<seq<byte>>, base: int) returns (queue: seq<Frame>)
    requires Sorted(h)
    ensures queue == InsertFrames(h, parsedFrames, |parsedFrames|, base)
  {
    queue := h;
    for i := 0 to |parsedFrames|
      invariant queue == InsertFrames(h, parsedFrames, i, base)
    {
      queue := Insert(queue, Frame(base + i, parsedFrames[i]));
    }
  }

  /** What the player does with the cursor frame once its deadline has passed. */
  datatype Decision =
    | Play     // the head of the queue is the cursor frame: write it and remove it
    | Silence  // the queue is empty or its head is later: write a silence frame
    | Stall    // the head is earlier than the cursor: write nothing, remove nothing

  /** StreamPlayerBuffer.doSomeWork's branch on the head of the queue. */
  function Decide(h: seq<Frame>, cursor: int): Decision {
    if h == [] then Silence
    else if h[0].frameNum == cursor then Play
    else if h[0].frameNum > cursor then Silence
    else Stall
  }

  /** The decision described by the queue's contents rather than by its head: play when
      the cursor frame is present and nothing earlier is; silence when every frame is
      later than the cursor; stall when some frame is earlier. */
  lemma DecideByContents(h: seq<Frame>, cursor: int)
    requires Sorted(h)
    ensures Decide(h, cursor) == Play <==>
      (exists i :: 0 <= i < |h| && h[i].frameNum == cursor) && (forall i :: 0 <= i < |h| ==> h[i].frameNum >= cursor)
    ensures Decide(h, cursor) == Silence <==> forall i :: 0 <= i < |h| ==> h[i].frameNum > cursor
    ensures Decide(h, cursor) == Stall <==> exists i :: 0 <= i < |h| && h[i].frameNum < cursor
  {
    if h != [] {
      forall i | 0 <= i < |h| ensures h[0].frameNum <= h[i].frameNum {
        SortedHeadMin(h, i);
      }
    }
  }

  /** A stall is permanent: with an earlier frame at the head, adding frames and moving
      the cursor forward never lead to anything but another stall. */
  lemma StallPersists(h: seq<Frame>, cursor: int, f: Frame, later: int)
    requires Sorted(h) && Decide(h, cursor) == Stall && cursor <= later
    ensures Decide(h, later) == Stall
    ensures Decide(Insert(h, f), later) == Stall
  {
  }

  /** PriorityQueue.poll on a non-empty queue keeps it ordered. */
  lemma PollSorted(h: seq<Frame>)
    requires Sorted(h) && h != []
    ensures Sorted(h[1..])
    ensures multiset(h) == multiset{h[0]} + multiset(h[1..])
  {
    assert h == [h[0]] + h[1..];
  }
}
