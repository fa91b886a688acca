/** Splitting a segment payload into ADTS frames (parseAdtsFrames). Each frame starts
    with an ADTS header whose 13-bit aac_frame_length field (section 6.2 of
    ISO/IEC 13818-7) is packed into header bytes 3..5 and counts the whole frame,
    header included. */
module Adts {

  newtype byte = x: int | 0 <= x < 256

  datatype ParseError =
    | HeaderOutOfBounds  // frames[i+3..i+5] past the end: ArrayIndexOutOfBoundsException
    | NoProgress         // a zero length field: the source's loop never advances

  datatype Result<T> = Ok(value: T) | Err(error: ParseError)

  /** The aac_frame_length field of the header that starts at offset `i`: the low two
      bits of byte 3, all of byte 4 and the high three bits of byte 5. */
  function FrameLengthAt(b: seq<byte>, i: nat): (n: nat)
    requires i + 5 < |b|
    ensures n < 8192
  {
    (b[i + 3] as int % 4) * 2048 + (b[i + 4] as int) * 8 + (b[i + 5] as int) / 32
  }

  /** The source's mask-and-shift expression, (b3 & 0x03) << 11 | (b4 & 0xFF) << 3 | (b5 & 0xFF) >> 5,
      computes the same number as FrameLengthAt's sum of products: the three parts
      occupy disjoint bit ranges (stated on 16-bit vectors holding byte values). */
  lemma FrameLengthBitwise(x3: bv16, x4: bv16, x5: bv16)
    requires x3 < 256 && x4 < 256 && x5 < 256
    ensures ((x3 & 3) << 11) | (x4 << 3) | (x5 >> 5) == (x3 % 4) * 2048 + x4 * 8 + x5 / 32
  {
  }

  function Zeros(n: nat): (z: seq<byte>)
    ensures |z| == n && forall k :: 0 <= k < n ==> z[k] == 0
  {
    seq(n, _ => 0)
  }

  /** Arrays.copyOfRange: the bytes in [from, to), zero-padded past the end of `b`. */
  function CopyOfRange(b: seq<byte>, from: nat, to: nat): (r: seq<byte>)
    requires from <= |b| && from <= to
    ensures |r| == to - from
    ensures to <= |b| ==> r == b[from..to]
    ensures to > |b| ==> r == b[from..] + Zeros(to - |b|)
  {
    if to <= |b| then b[from..to] else b[from..] + Zeros(to - |b|)
  }

  /** Prefixes an already-parsed list of frames to the rest of a parse. */
  function Prepend(done: seq<seq<byte>>, rest: Result<seq<seq<byte>>>): Result<seq<seq<byte>>> {
    match rest
    case Ok(fs) => Ok(done + fs)
    case Err(e) => Err(e)
  }

  /** The frames of a payload suffix `s`: read the length of the header at its start,
      cut that many bytes (copyOfRange, so an overlong last frame is zero-padded) and
      continue after them while that is still inside `s`. */
  function ParseSuffix(s: seq<byte>): Result<seq<seq<byte>>>
    decreases |s|
  {
    if |s| == 0 then Ok([])
    else if |s| <= 5 then Err(HeaderOutOfBounds)
    else
      var n := FrameLengthAt(s, 0);
      if n == 0 then Err(NoProgress)
      else if n >= |s| then Ok([CopyOfRange(s, 0, n)])
      else Prepend([CopyOfRange(s, 0, n)], ParseSuffix(s[n..]))
  }

  function Parse(b: seq<byte>): Result<seq<seq<byte>>> {
    ParseSuffix(b)
  }

  /** What is left to parse once the loop index is at `i`; the index may overshoot the
      end after an overlong last frame. */
  function Remaining(b: seq<byte>, i: nat): Result<seq<seq<byte>>> {
    if i >= |b| then Ok([]) else ParseSuffix(b[i..])
  }

  /** Reading the header at offset `i` of `b` is reading it at offset 0 of `b[i..]`. */
  lemma SuffixHeader(b: seq<byte>, i: nat)
    requires i + 5 < |b|
    ensures FrameLengthAt(b[i..], 0) == FrameLengthAt(b, i)
    ensures var n := FrameLengthAt(b, i);
      CopyOfRange(b[i..], 0, n) == CopyOfRange(b, i, i + n)
  {
    var s := b[i..];
    assert s[3] == b[i + 3] && s[4] == b[i + 4] && s[5] == b[i + 5];
    var n := FrameLengthAt(b, i);
    if i + n <= |b| {
      assert s[0..n] == b[i..i + n];
    } else {
      assert s[0..] == b[i..];
    }
  }

  /** One iteration of the source's loop: the frame cut at `i`, then what remains at
      `i + length`. */
  lemma RemainingStep(b: seq<byte>, i: nat)
    requires i + 5 < |b| && FrameLengthAt(b, i) != 0
    ensures var n := FrameLengthAt(b, i);
      Remaining(b, i) == Prepend([CopyOfRange(b, i, i + n)], Remaining(b, i + n))
  {
    var n := FrameLengthAt(b, i);
    var f := CopyOfRange(b, i, i + n);
    SuffixHeader(b, i);
    if i + n >= |b| {
      assert [f] + [] == [f];
    } else {
      assert b[i..][n..] == b[i + n..];
    }
  }

  lemma PrependNothing(r: Result<seq<seq<byte>>>)
    ensures Prepend([], r) == r
  {
    match r
    case Ok(fs) => assert [] + fs == fs;
    case Err(_) =>
  }

  lemma PrependAssoc(a: seq<seq<byte>>, b: seq<seq<byte>>, r: Result<seq<seq<byte>>>)
    ensures Prepend(a, Prepend(b, r)) == Prepend(a + b, r)
  {
    match r
    case Ok(fs) => assert a + (b + fs) == (a + b) + fs;
    case Err(_) =>
  }

  /** The loop keeps the parse of the whole payload equal to the frames so far followed
      by the parse of what remains. */
  lemma ParseLoopStep(b: seq<byte>, i: nat, done: seq<seq<byte>>)
    requires i + 5 < |b| && FrameLengthAt(b, i) != 0
    requires Parse(b) == Prepend(done, Remaining(b, i))
    ensures var n := FrameLengthAt(b, i);
      Parse(b) == Prepend(done + [CopyOfRange(b, i, i + n)], Remaining(b, i + n))
  {
    var n := FrameLengthAt(b, i);
    RemainingStep(b, i);
    PrependAssoc(done, [CopyOfRange(b, i, i + n)], Remaining(b, i + n));
  }

  /** parseAdtsFrames, with the index loop of the source. */
  method ParseAdtsFrames(frames: seq<byte>) returns (r: Result<seq<seq<byte>>>)
    ensures r == Parse(frames)
  {
    var parsedFrames: seq<seq<byte>> := [];
    var i: nat := 0;
    assert frames[0..] == frames;
    PrependNothing(Parse(frames));
    while i < |frames|
      invariant Parse(frames) == Prepend(parsedFrames, Remaining(frames, i))
      decreases |frames| - i
    {
      if i + 5 >= |frames| {
        return Err(HeaderOutOfBounds);
      }
      var frameLength := FrameLengthAt(frames, i);
      if frameLength == 0 {
        return Err(NoProgress);
      }
      var frame := CopyOfRange(frames, i, i + frameLength);
      ParseLoopStep(frames, i, parsedFrames);
      parsedFrames := parsedFrames + [frame];
      i := i + frameLength;
    }
    assert parsedFrames + [] == parsedFrames;
    r := Ok(parsedFrames);
  }

  /** Concatenation of frames, the inverse of Parse. */
  function Flatten(fs: seq<seq<byte>>): seq<byte> {
    if fs == [] then [] else fs[0] + Flatten(fs[1..])
  }

  lemma FlattenCons(f: seq<byte>, rest: seq<seq<byte>>)
    ensures Flatten([f] + rest) == f + Flatten(rest)
  {
    assert ([f] + rest)[1..] == rest;
  }

  /** A frame whose header describes exactly itself. */
  predicate WellFormedFrame(f: seq<byte>) {
    6 <= |f| && FrameLengthAt(f, 0) == |f|
  }

  /** What a successful parse of a non-empty suffix consists of: the frame cut at its
      start, then the parse of what follows if anything does. */
  lemma ParseSuffixOk(s: seq<byte>, fs: seq<seq<byte>>)
    requires s != [] && ParseSuffix(s) == Ok(fs)
    ensures 5 < |s| && FrameLengthAt(s, 0) != 0 && fs != []
    ensures var n := FrameLengthAt(s, 0);
      && fs[0] == CopyOfRange(s, 0, n)
      && (n < |s| ==> ParseSuffix(s[n..]) == Ok(fs[1..]))
      && (n >= |s| ==> fs == [fs[0]])
  {
  }

  /** `x` is `y` followed by nothing but zero bytes. */
  predicate ZeroPadded(x: seq<byte>, y: seq<byte>) {
    |y| <= |x| && x[..|y|] == y && forall k :: |y| <= k < |x| ==> x[k] == 0
  }

  lemma ZeroPaddedCons(s: seq<byte>, n: nat, tail: seq<byte>)
    requires n < |s| && ZeroPadded(tail, s[n..])
    ensures ZeroPadded(s[..n] + tail, s)
  {
    var x := s[..n] + tail;
    assert x[..|s|] == s[..n] + tail[..|s| - n];
    assert s == s[..n] + s[n..];
    forall k | |s| <= k < |x|
      ensures x[k] == 0
    {
      assert x[k] == tail[k - n];
    }
  }

  /** The padded form the rest of the model states: `x` is `y` plus zeros. */
  lemma ZeroPaddedZeros(x: seq<byte>, y: seq<byte>)
    requires ZeroPadded(x, y)
    ensures x == y + Zeros(|x| - |y|)
  {
    assert x == x[..|y|] + x[|y|..];
  }

  lemma {:induction false} ParseSuffixFlatten(s: seq<byte>, fs: seq<seq<byte>>)
    requires ParseSuffix(s) == Ok(fs)
    ensures ZeroPadded(Flatten(fs), s)
    decreases |s|
  {
    if s != [] {
      ParseSuffixOk(s, fs);
      var n := FrameLengthAt(s, 0);
      var f, rest := fs[0], fs[1..];
      assert fs == [f] + rest;
      FlattenCons(f, rest);
      if n >= |s| {
        assert Flatten(rest) == [];
        assert Flatten(fs) == f;
      } else {
        ParseSuffixFlatten(s[n..], rest);
        ZeroPaddedCons(s, n, Flatten(rest));
      }
    }
  }

  /** A slice as Parse cuts it: 1 to 8191 bytes, and self-describing when it is long
      enough to hold a header. */
  predicate SliceCarriesLength(f: seq<byte>) {
    0 < |f| < 8192 && (6 <= |f| ==> FrameLengthAt(f, 0) == |f|)
  }

  predicate SlicesCarryLengths(fs: seq<seq<byte>>) {
    fs == [] || (SliceCarriesLength(fs[0]) && SlicesCarryLengths(fs[1..]))
  }

  lemma {:induction false} SlicesCarryLengthsAll(fs: seq<seq<byte>>)
    requires SlicesCarryLengths(fs)
    ensures forall k :: 0 <= k < |fs| ==> SliceCarriesLength(fs[k])
  {
    if fs != [] {
      SlicesCarryLengthsAll(fs[1..]);
      assert forall k :: 1 <= k < |fs| ==> fs[k] == fs[1..][k - 1];
    }
  }

  /** The first slice of a suffix keeps the header it was cut at. */
  lemma FirstSlice(s: seq<byte>)
    requires 5 < |s| && FrameLengthAt(s, 0) != 0
    ensures SliceCarriesLength(CopyOfRange(s, 0, FrameLengthAt(s, 0)))
  {
    var n := FrameLengthAt(s, 0);
    var f := CopyOfRange(s, 0, n);
    if 6 <= n {
      assert f[..6] == s[..6];
      assert f[3] == s[3] && f[4] == s[4] && f[5] == s[5];
    }
  }

  lemma {:induction false} ParseSuffixSlices(s: seq<byte>, fs: seq<seq<byte>>)
    requires ParseSuffix(s) == Ok(fs)
    ensures SlicesCarryLengths(fs)
    decreases |s|
  {
    if s != [] {
      ParseSuffixOk(s, fs);
      var n := FrameLengthAt(s, 0);
      FirstSlice(s);
      if n >= |s| {
        assert fs[1..] == [];
      } else {
        ParseSuffixSlices(s[n..], fs[1..]);
      }
    }
  }

  /** Parse loses nothing: a successful parse concatenates back to the payload, followed
      only by the zero padding copyOfRange adds to an overlong last frame; every slice
      is between 1 and 8191 bytes, and a slice long enough to hold its own header
      carries the length it was cut to. */
  lemma ParseSound(b: seq<byte>)
    requires Parse(b).Ok?
    ensures var fs := Parse(b).value;
      && |Flatten(fs)| >= |b|
      && Flatten(fs) == b + Zeros(|Flatten(fs)| - |b|)
      && (forall k :: 0 <= k < |fs| ==> 0 < |fs[k]| < 8192)
      && (forall k :: 0 <= k < |fs| && 6 <= |fs[k]| ==> FrameLengthAt(fs[k], 0) == |fs[k]|)
  {
    var fs := Parse(b).value;
    ParseSuffixFlatten(b, fs);
    ParseSuffixSlices(b, fs);
    ZeroPaddedZeros(Flatten(fs), b);
    SlicesCarryLengthsAll(fs);
  }

  lemma {:induction false} FlattenLength(fs: seq<seq<byte>>)
    requires forall k :: 0 <= k < |fs| ==> WellFormedFrame(fs[k])
    ensures fs != [] ==> |Flatten(fs)| >= |fs[0]| >= 6
    ensures fs == [] <==> Flatten(fs) == []
  {
    if fs != [] {
      FlattenLength(fs[1..]);
    }
  }

  lemma WellFormedTail(fs: seq<seq<byte>>)
    requires fs != [] && forall k :: 0 <= k < |fs| ==> WellFormedFrame(fs[k])
    ensures forall k :: 0 <= k < |fs[1..]| ==> WellFormedFrame(fs[1..][k])
  {
    assert forall k :: 0 <= k < |fs[1..]| ==> fs[1..][k] == fs[k + 1];
  }

  /** A well-formed frame at the start of a buffer is read back whole. */
  lemma FrameAtStart(f: seq<byte>, r: seq<byte>)
    requires WellFormedFrame(f)
    ensures FrameLengthAt(f + r, 0) == |f|
    ensures CopyOfRange(f + r, 0, |f|) == f && (f + r)[|f|..] == r
  {
    var b := f + r;
    assert b[3] == f[3] && b[4] == f[4] && b[5] == f[5];
    assert b[0..|f|] == f;
  }

  /** The round trip in the other direction: concatenating well-formed frames and
      parsing the result gives back exactly those frames. */
  lemma {:induction false} ParseFlatten(fs: seq<seq<byte>>)
    requires forall k :: 0 <= k < |fs| ==> WellFormedFrame(fs[k])
    ensures Parse(Flatten(fs)) == Ok(fs)
    decreases |fs|
  {
    if fs != [] {
      var f, rest := fs[0], fs[1..];
      var tail := Flatten(rest);
      assert fs == [f] + rest;
      FlattenCons(f, rest);
      FrameAtStart(f, tail);
      FlattenLength(rest);
      if rest == [] {
        assert WellFormedFrame(f);
        assert CopyOfRange(f, 0, |f|) == f;
        assert ParseSuffix(f) == Ok([f]);
        assert Flatten(fs) == f + [] == f;
        assert fs == [f];
      } else {
        WellFormedTail(fs);
        ParseFlatten(rest);
      }
    }
  }

  /** A payload is exactly a sequence of well-formed frames if and only if Parse
      succeeds on it, adds no padding and cuts no slice shorter than a header. */
  lemma TilingIff(b: seq<byte>)
    ensures (exists fs :: (forall k :: 0 <= k < |fs| ==> WellFormedFrame(fs[k])) && Flatten(fs) == b)
        <==> (Parse(b).Ok? && |Flatten(Parse(b).value)| == |b|
              && forall k :: 0 <= k < |Parse(b).value| ==> 6 <= |Parse(b).value[k]|)
  {
    if exists fs :: (forall k :: 0 <= k < |fs| ==> WellFormedFrame(fs[k])) && Flatten(fs) == b {
      var fs :| (forall k :: 0 <= k < |fs| ==> WellFormedFrame(fs[k])) && Flatten(fs) == b;
      ParseFlatten(fs);
    }
    if Parse(b).Ok? && |Flatten(Parse(b).value)| == |b|
       && forall k :: 0 <= k < |Parse(b).value| ==> 6 <= |Parse(b).value[k]| {
      var fs := Parse(b).value;
      ParseSound(b);
      assert Flatten(fs) == b + [];
      assert forall k :: 0 <= k < |fs| ==> WellFormedFrame(fs[k]);
    }
  }

  /** getSilentFrame: a 7-byte ADTS header followed by 84 zero bytes. */
  function SilentFrame(): seq<byte> {
    [0xff, 0xf1, 0x6c, 0x40, 0x0b, 0x7f, 0xfc] + Zeros(84)
  }

  /** The silence frame written on a gap is itself a well-formed 91-byte ADTS frame. */
  lemma SilentFrameWellFormed()
    ensures |SilentFrame()| == 91 && WellFormedFrame(SilentFrame())
    ensures Parse(SilentFrame()) == Ok([SilentFrame()])
  {
    var f := SilentFrame();
    assert f[3] == 0x40 && f[4] == 0x0b && f[5] == 0x7f;
    assert WellFormedFrame(f);
    ParseFlatten([f]);
    FlattenCons(f, []);
    assert f + [] == f;
  }
}
