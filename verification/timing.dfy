/** Integer timing arithmetic shared by the fetcher and the player buffer:
    milliseconds per frame and per segment, and the playback deadline of a frame.
    All of it is Java `long` arithmetic on non-negative operands, except that a
    frame number of -1 can reach the deadline formula (an empty segment 0), where
    Java's division truncates toward zero. */
module Timing {

  /** The "-1 means unknown" sentinel the source uses for every optional number. */
  const UNKNOWN: int := -1
  const MILLISECONDS_PER_SECOND: int := 1000

  /** StreamConsumer.Options, plus the samples per ADTS frame (1024 in practice). */
  datatype Options = Options(
    framesPerSegment: int,
    jitterBufferSize: int,
    producerSamplingRate: int,
    samplesPerFrame: int)

  /** Configurations the source can run with: the sampling rate is a divisor, and so is
      the per-segment duration in `nextSegShouldBeSent`. */
  predicate ValidOptions(o: Options) {
    && o.producerSamplingRate > 0
    && o.framesPerSegment > 0
    && o.jitterBufferSize >= 0
    && o.samplesPerFrame > 0
    && MsPerSeg(o) > 0
  }

  /** Java's `/` on `long`: truncation toward zero (for a positive divisor). */
  function JavaDiv(a: int, d: int): (q: int)
    requires d > 0
    ensures a >= 0 ==> q >= 0 && q * d <= a < q * d + d
    ensures a < 0 ==> q <= 0 && a <= q * d < a + d
  {
    if a >= 0 then a / d else -((-a) / d)
  }

  /** Samples per frame times 1000 — the numerator of every duration below. */
  function FrameMillisNumerator(o: Options): int {
    o.samplesPerFrame * MILLISECONDS_PER_SECOND
  }

  /** calculateMsPerFrame: the frame duration in whole milliseconds, rounded down. */
  function MsPerFrame(o: Options): (ms: int)
    requires o.producerSamplingRate > 0 && o.samplesPerFrame > 0
    ensures ms >= 0
  {
    FrameMillisNumerator(o) / o.producerSamplingRate
  }

  /** calculateMsPerSeg: the segment duration in whole milliseconds, rounded down once
      (not framesPerSegment * MsPerFrame). */
  function MsPerSeg(o: Options): (ms: int)
    requires o.producerSamplingRate > 0 && o.samplesPerFrame > 0 && o.framesPerSegment > 0
    ensures ms >= 0
  {
    (o.framesPerSegment * FrameMillisNumerator(o)) / o.producerSamplingRate
  }

  /** Both durations are the exact ones rounded down to whole milliseconds. */
  lemma DurationsRoundDown(o: Options)
    requires o.producerSamplingRate > 0 && o.samplesPerFrame > 0 && o.framesPerSegment > 0
    ensures var ms, d := MsPerFrame(o), o.producerSamplingRate;
      ms * d <= FrameMillisNumerator(o) < (ms + 1) * d
    ensures var ms, d := MsPerSeg(o), o.producerSamplingRate;
      ms * d <= o.framesPerSegment * FrameMillisNumerator(o) < (ms + 1) * d
  {
    DivMod(FrameMillisNumerator(o), o.producerSamplingRate);
    DivMod(o.framesPerSegment * FrameMillisNumerator(o), o.producerSamplingRate);
  }

  /** The jitter-buffer delay: jitterBufferSize frames of MsPerFrame each. */
  function JitterDelay(o: Options): int
    requires o.producerSamplingRate > 0 && o.samplesPerFrame > 0
  {
    o.jitterBufferSize * MsPerFrame(o)
  }

  /** getPlaybackDeadline: UNKNOWN before playback has started, otherwise the play start
      plus the jitter delay plus frame `n`'s offset, computed with a single division. */
  function PlaybackDeadline(o: Options, playStart: int, n: int): int
    requires o.producerSamplingRate > 0 && o.samplesPerFrame > 0
  {
    if playStart == UNKNOWN then UNKNOWN
    else playStart + JitterDelay(o) + JavaDiv(FrameMillisNumerator(o) * n, o.producerSamplingRate)
  }

  /** The deadline the player buffer's cursor carries for frame `n`: the frame-0 deadline
      advanced by MsPerFrame once per frame. */
  function CursorDeadline(o: Options, playStart: int, n: int): int
    requires o.producerSamplingRate > 0 && o.samplesPerFrame > 0
  {
    playStart + JitterDelay(o) + n * MsPerFrame(o)
  }

  lemma MulMonotone(d: int, x: int, y: int)
    requires d >= 0 && x <= y
    ensures d * x <= d * y
  {
    assert d * y - d * x == d * (y - x);
  }

  lemma DivMod(a: int, d: int)
    requires d > 0
    ensures a == d * (a / d) + a % d && 0 <= a % d < d
  {
  }

  lemma MulAtMostMinus(d: int, x: int)
    requires d > 0
    ensures x <= -1 ==> d * x <= -d
  {
    if x <= -1 {
      MulMonotone(d, x, -1);
    }
  }

  /** Euclidean division is determined by its quotient/remainder equation. */
  lemma DivUnique(a: int, d: int, q: int, r: int)
    requires d > 0 && 0 <= r < d && a == q * d + r
    ensures a / d == q
  {
    var q' := a / d;
    DivMod(a, d);
    MulAtMostMinus(d, q - q');
    MulAtMostMinus(d, q' - q);
    assert d * (q - q') == q * d - d * q';
    assert d * (q' - q) == d * q' - q * d;
  }

  lemma DivMonotone(a: int, b: int, d: int)
    requires 0 <= a <= b && d > 0
    ensures a / d <= b / d
  {
    var qa, qb := a / d, b / d;
    DivMod(a, d);
    DivMod(b, d);
    MulAtMostMinus(d, qb - qa);
    assert d * (qb - qa) == d * qb - d * qa;
  }

  /** Truncating division is monotone in the dividend, on both sides of zero. */
  lemma JavaDivMonotone(a: int, b: int, d: int)
    requires a <= b && d > 0
    ensures JavaDiv(a, d) <= JavaDiv(b, d)
  {
    if a >= 0 {
      DivMonotone(a, b, d);
    } else if b < 0 {
      DivMonotone(-b, -a, d);
    }
  }

  /** Once playback has started, later frames never have earlier deadlines. */
  lemma DeadlineMonotone(o: Options, playStart: int, n: int, m: int)
    requires o.producerSamplingRate > 0 && o.samplesPerFrame > 0
    requires n <= m
    ensures PlaybackDeadline(o, playStart, n) <= PlaybackDeadline(o, playStart, m)
  {
    var a := FrameMillisNumerator(o);
    assert a * n <= a * m by {
      assert a * m - a * n == a * (m - n);
    }
    JavaDivMonotone(a * n, a * m, o.producerSamplingRate);
  }

  lemma DivAddMultiple(x: int, y: int, d: int)
    requires x >= 0 && y >= 0 && d > 0
    ensures (x * d + y) / d == x + y / d
  {
    var q, r := y / d, y % d;
    DivMod(y, d);
    assert x * d + y == (x + q) * d + r by {
      assert (x + q) * d == x * d + q * d;
    }
    DivUnique(x * d + y, d, x + q, r);
  }

  lemma MulNonneg(x: int, y: int)
    requires x >= 0 && y >= 0
    ensures x * y >= 0
  {
  }

  lemma MulSplit(a: int, d: int, q: int, r: int, n: int)
    requires a == d * q + r
    ensures a * n == (n * q) * d + n * r
  {
    assert a * n == (d * q) * n + r * n;
  }

  /** Dividing a multiple of `a` at once versus multiplying the quotient of `a`: the
      difference is the quotient of the accumulated remainders. */
  lemma ScaledQuotient(a: int, d: int, n: int)
    requires a >= 0 && d > 0 && n >= 0
    ensures a * n >= 0
    ensures (a * n) / d == n * (a / d) + (n * (a % d)) / d
    ensures (n * (a % d)) / d >= 0
  {
    var q, r := a / d, a % d;
    DivMod(a, d);
    MulNonneg(n, q);
    MulNonneg(n, r);
    MulSplit(a, d, q, r, n);
    DivAddMultiple(n * q, n * r, d);
    MulNonneg(a, n);
  }

  /** The cursor deadline of a played frame is never later than the deadline the
      fetcher is told for it, and the gap is exactly the accumulated rounding of
      MsPerFrame: floor(n * (S*1000 mod rate) / rate). It is zero when the rate
      divides S*1000 (8000 Hz) and grows with n otherwise (44100 Hz). */
  lemma CursorDeadlineLag(o: Options, playStart: int, n: int)
    requires o.producerSamplingRate > 0 && o.samplesPerFrame > 0
    requires playStart != UNKNOWN && n >= 0
    ensures PlaybackDeadline(o, playStart, n) - CursorDeadline(o, playStart, n)
            == (n * (FrameMillisNumerator(o) % o.producerSamplingRate)) / o.producerSamplingRate
    ensures CursorDeadline(o, playStart, n) <= PlaybackDeadline(o, playStart, n)
  {
    ScaledQuotient(FrameMillisNumerator(o), o.producerSamplingRate, n);
  }

  /** The frame-0 deadline is play start plus the jitter delay. */
  lemma FrameZeroDeadline(o: Options, playStart: int)
    requires o.producerSamplingRate > 0 && o.samplesPerFrame > 0 && playStart != UNKNOWN
    ensures PlaybackDeadline(o, playStart, 0) == playStart + JitterDelay(o)
    ensures CursorDeadline(o, playStart, 0) == playStart + JitterDelay(o)
  {
  }

  /** The 8000 Hz configuration: 128 ms per frame and a 640 ms head start for a
      five-frame jitter buffer. */
  lemma NarrowbandExample()
    ensures var o := Options(1, 5, 8000, 1024);
      ValidOptions(o) && MsPerFrame(o) == 128 && JitterDelay(o) == 640 && MsPerSeg(o) == 128
  {
  }
}
