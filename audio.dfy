/**
 * Decoded audio buffers and the three corrections applied to them: removing a
 * DC offset (with optional zero alignment of the first frame), negating every
 * sample, and averaging the channels of each frame into one.
 *
 * A buffer is what the codec returns for a file: a sequence of frames, each
 * holding one sample per channel, plus the sample rate. The codec hands back a
 * one-dimensional array exactly when the file has one channel, so "the array
 * is 2-D with more than one column" is `channels > 1` here. Samples are exact
 * reals; the floating-point rounding of the original is not modelled.
 */
module Audio {

  datatype RawBuffer = RawBuffer(frames: seq<seq<real>>, channels: nat, rate: nat)

  /** Every frame holds one sample for each of the (at least one) channels. */
  predicate WellFormed(b: RawBuffer) {
    b.channels >= 1 && forall i :: 0 <= i < |b.frames| ==> |b.frames[i]| == b.channels
  }

  type Buffer = b: RawBuffer | WellFormed(b) witness RawBuffer([], 1, 0)

  function Sum(xs: seq<real>): real {
    if |xs| == 0 then 0.0 else Sum(xs[..|xs| - 1]) + xs[|xs| - 1]
  }

  /** Arithmetic mean; callers deal with the empty case themselves. */
  function Mean(xs: seq<real>): real {
    if |xs| == 0 then 0.0 else Sum(xs) / (|xs| as real)
  }

  /** All samples of all frames, frame by frame. */
  function Flatten(frames: seq<seq<real>>): seq<real> {
    if |frames| == 0 then [] else Flatten(frames[..|frames| - 1]) + frames[|frames| - 1]
  }

  function Samples(b: Buffer): seq<real> {
    Flatten(b.frames)
  }

  /** `xs - c`, element by element. */
  function Shift(xs: seq<real>, c: real): (r: seq<real>)
    ensures |r| == |xs|
    ensures forall k :: 0 <= k < |xs| ==> r[k] == xs[k] - c
  {
    seq(|xs|, k requires 0 <= k < |xs| => xs[k] - c)
  }

  function ShiftFrames(frames: seq<seq<real>>, c: real): (r: seq<seq<real>>)
    ensures |r| == |frames|
    ensures forall i :: 0 <= i < |frames| ==> r[i] == Shift(frames[i], c)
  {
    seq(|frames|, i requires 0 <= i < |frames| => Shift(frames[i], c))
  }

  /** `data - mean_val`: the offset is subtracted from every sample of every channel. */
  function Subtract(b: Buffer, offset: real): (r: Buffer)
    ensures |r.frames| == |b.frames| && r.channels == b.channels && r.rate == b.rate
  {
    RawBuffer(ShiftFrames(b.frames, offset), b.channels, b.rate)
  }

  /** `data[0] = 0` (or `data[0, :] = 0`): every channel of frame 0 becomes 0.
      An empty buffer is returned as it is. */
  function ZeroFirstFrame(b: Buffer): (r: Buffer)
    ensures |r.frames| == |b.frames| && r.channels == b.channels && r.rate == b.rate
  {
    if |b.frames| == 0 then b
    else RawBuffer(b.frames[0 := seq(b.channels, _ => 0.0)], b.channels, b.rate)
  }

  /** `-data`: every sample negated. */
  function Negate(b: Buffer): (r: Buffer)
    ensures |r.frames| == |b.frames| && r.channels == b.channels && r.rate == b.rate
  {
    RawBuffer(seq(|b.frames|, i requires 0 <= i < |b.frames| => NegateAll(b.frames[i])), b.channels, b.rate)
  }

  function NegateAll(xs: seq<real>): (r: seq<real>)
    ensures |r| == |xs|
    ensures forall k :: 0 <= k < |xs| ==> r[k] == -xs[k]
  {
    seq(|xs|, k requires 0 <= k < |xs| => -xs[k])
  }

  /** `np.mean(data, axis=1)`: one channel holding each frame's channel average. */
  function Downmix(b: Buffer): (r: Buffer)
    ensures r.channels == 1 && |r.frames| == |b.frames| && r.rate == b.rate
  {
    RawBuffer(FrameMeans(b.frames), 1, b.rate)
  }

  function FrameMeans(frames: seq<seq<real>>): (r: seq<seq<real>>)
    ensures |r| == |frames|
  {
    seq(|frames|, i requires 0 <= i < |frames| => [Mean(frames[i])])
  }

  // ---------------------------------------------------------------------
  // Sums and means

  lemma {:induction false} SumShift(xs: seq<real>, c: real)
    ensures Sum(Shift(xs, c)) == Sum(xs) - (|xs| as real) * c
  {
    if |xs| > 0 {
      var n := |xs|;
      assert Shift(xs, c)[..n - 1] == Shift(xs[..n - 1], c);
      SumShift(xs[..n - 1], c);
    }
  }

  lemma {:induction false} SumNegate(xs: seq<real>)
    ensures Sum(NegateAll(xs)) == -Sum(xs)
  {
    if |xs| > 0 {
      var n := |xs|;
      assert NegateAll(xs)[..n - 1] == NegateAll(xs[..n - 1]);
      SumNegate(xs[..n - 1]);
    }
  }

  lemma {:induction false} SumConstant(xs: seq<real>, x: real)
    requires forall k :: 0 <= k < |xs| ==> xs[k] == x
    ensures Sum(xs) == (|xs| as real) * x
  {
    if |xs| > 0 {
      SumConstant(xs[..|xs| - 1], x);
    }
  }

  lemma MeanOfSingle(x: real)
    ensures Mean([x]) == x
  {
    assert [x][..0] == [];
    assert Sum([x]) == Sum([]) + x;
  }

  /** Channels that all carry the same signal average to that signal. */
  lemma MeanOfConstant(xs: seq<real>, x: real)
    requires |xs| > 0
    requires forall k :: 0 <= k < |xs| ==> xs[k] == x
    ensures Mean(xs) == x
  {
    SumConstant(xs, x);
  }

  lemma MeanNegate(xs: seq<real>)
    ensures Mean(NegateAll(xs)) == -Mean(xs)
  {
    SumNegate(xs);
  }

  lemma {:induction false} FlattenShift(frames: seq<seq<real>>, c: real)
    ensures Flatten(ShiftFrames(frames, c)) == Shift(Flatten(frames), c)
  {
    if |frames| > 0 {
      var n := |frames|;
      assert ShiftFrames(frames, c)[..n - 1] == ShiftFrames(frames[..n - 1], c);
      FlattenShift(frames[..n - 1], c);
      ShiftAppend(Flatten(frames[..n - 1]), frames[n - 1], c);
    }
  }

  lemma ShiftAppend(a: seq<real>, b: seq<real>, c: real)
    ensures Shift(a + b, c) == Shift(a, c) + Shift(b, c)
  {
  }

  lemma {:induction false} FlattenLength(frames: seq<seq<real>>, width: nat)
    requires forall i :: 0 <= i < |frames| ==> |frames[i]| == width
    ensures |Flatten(frames)| == |frames| * width
  {
    if |frames| > 0 {
      FlattenLength(frames[..|frames| - 1], width);
    }
  }

  /** A buffer holds one sample per frame and channel. */
  lemma SamplesCount(b: Buffer)
    ensures |Samples(b)| == |b.frames| * b.channels
  {
    FlattenLength(b.frames, b.channels);
  }

  // ---------------------------------------------------------------------
  // Properties of the corrections

  /** After `data - mean_val` every sample has moved down by the offset, and
      the mean over all samples has moved by exactly the offset. */
  lemma SubtractShiftsMean(b: Buffer, offset: real)
    requires |Samples(b)| > 0
    ensures forall i, j :: 0 <= i < |b.frames| && 0 <= j < b.channels ==>
              Subtract(b, offset).frames[i][j] == b.frames[i][j] - offset
    ensures Mean(Samples(Subtract(b, offset))) == Mean(Samples(b)) - offset
  {
    var xs := Samples(b);
    FlattenShift(b.frames, offset);
    assert Samples(Subtract(b, offset)) == Shift(xs, offset);
    MeanShift(xs, offset);
  }

  lemma MeanShift(xs: seq<real>, c: real)
    requires |xs| > 0
    ensures Mean(Shift(xs, c)) == Mean(xs) - c
  {
    var n, s, t := |xs| as real, Sum(xs), Sum(Shift(xs, c));
    SumShift(xs, c);
    DivideShifted(s, n, c, t);
  }

  lemma DivideShifted(s: real, n: real, c: real, t: real)
    requires n > 0.0 && t == s - n * c
    ensures t / n == s / n - c
  {
    var q := s / n;
    assert q * n == s;
    assert t == (q - c) * n;
  }

  /** Subtracting a buffer's own mean leaves a buffer whose mean is 0. */
  lemma SubtractMeanCentres(b: Buffer)
    requires |Samples(b)| > 0
    ensures Mean(Samples(Subtract(b, Mean(Samples(b))))) == 0.0
  {
    SubtractShiftsMean(b, Mean(Samples(b)));
  }

  /** Mean subtraction followed by zero alignment: frame 0 is exactly 0 in
      every channel, every later sample is the original minus the offset. */
  lemma ZeroAlignedCorrection(b: Buffer, offset: real)
    requires |b.frames| > 0
    ensures var r := ZeroFirstFrame(Subtract(b, offset));
      |r.frames| == |b.frames| && r.channels == b.channels && r.rate == b.rate &&
      (forall j :: 0 <= j < r.channels ==> r.frames[0][j] == 0.0) &&
      (forall i, j :: 1 <= i < |b.frames| && 0 <= j < b.channels ==> r.frames[i][j] == b.frames[i][j] - offset)
  {
  }

  /** Negation undoes itself. */
  lemma NegateInvolution(b: Buffer)
    ensures Negate(Negate(b)) == b
  {
    var r := Negate(Negate(b));
    forall i | 0 <= i < |b.frames|
      ensures r.frames[i] == b.frames[i]
    {
      assert NegateAll(NegateAll(b.frames[i])) == b.frames[i];
    }
    assert r.frames == b.frames;
  }

  lemma {:induction false} SumAppend(xs: seq<real>, ys: seq<real>)
    ensures Sum(xs + ys) == Sum(xs) + Sum(ys)
  {
    if |ys| > 0 {
      var zs := xs + ys;
      assert zs[..|zs| - 1] == xs + ys[..|ys| - 1];
      SumAppend(xs, ys[..|ys| - 1]);
    } else {
      assert xs + ys == xs;
    }
  }

  lemma AddDivided(x: real, y: real, c: real)
    requires c > 0.0
    ensures x / c + y / c == (x + y) / c
  {
    var p, q := x / c, y / c;
    assert p * c == x && q * c == y;
    assert (p + q) * c == x + y;
  }

  lemma DivideTwice(s: real, c: real, n: real, t: real)
    requires c > 0.0 && n > 0.0 && t == n * c
    ensures (s / c) / n == s / t
  {
    var q := s / c;
    var r := q / n;
    assert q == r * n;
    assert s == q * c;
    assert s == r * t;
  }

  lemma FrameMeansLast(frames: seq<seq<real>>)
    requires |frames| > 0
    ensures Flatten(FrameMeans(frames)) ==
              Flatten(FrameMeans(frames[..|frames| - 1])) + [Mean(frames[|frames| - 1])]
  {
    assert FrameMeans(frames)[..|frames| - 1] == FrameMeans(frames[..|frames| - 1]);
  }

  /** The per-frame averages sum to the total of all samples divided by the
      channel count. */
  lemma {:induction false} SumOfFrameMeans(frames: seq<seq<real>>, c: nat)
    requires c > 0 && forall i :: 0 <= i < |frames| ==> |frames[i]| == c
    ensures Sum(Flatten(FrameMeans(frames))) == Sum(Flatten(frames)) / (c as real)
  {
    var n := |frames|;
    if n > 0 {
      var pre, last := frames[..n - 1], frames[n - 1];
      var cr, a, b := c as real, Sum(Flatten(pre)), Sum(last);
      SumOfFrameMeans(pre, c);
      FrameMeansLast(frames);
      SumAppend(Flatten(FrameMeans(pre)), [Mean(last)]);
      SumAppend(Flatten(pre), last);
      assert Sum([Mean(last)]) == Mean(last) by { MeanOfSingle(Mean(last)); }
      assert Mean(last) == b / cr;
      assert Sum(Flatten(FrameMeans(frames))) == a / cr + b / cr;
      assert Sum(Flatten(frames)) == a + b;
      AddDivided(a, b, cr);
    }
  }

  /** Averaging the channels keeps the mean over all samples. */
  lemma DownmixKeepsMean(b: Buffer)
    ensures Mean(Samples(Downmix(b))) == Mean(Samples(b))
  {
    var n, c := |b.frames|, b.channels;
    var xs, ys := Samples(b), Flatten(FrameMeans(b.frames));
    SamplesCount(b);
    FlattenLength(FrameMeans(b.frames), 1);
    if n > 0 {
      var s := Sum(xs);
      var nr, cr := n as real, c as real;
      assert |xs| as real == nr * cr;
      SumOfFrameMeans(b.frames, c);
      DivideTwice(s, cr, nr, nr * cr);
    }
  }

  /** Folding a buffer whose channels carry identical samples loses nothing. */
  lemma DownmixIdenticalChannels(b: Buffer)
    requires forall i, j :: 0 <= i < |b.frames| && 0 <= j < b.channels ==> b.frames[i][j] == b.frames[i][0]
    ensures forall i :: 0 <= i < |b.frames| ==> Downmix(b).frames[i][0] == b.frames[i][0]
  {
    forall i | 0 <= i < |b.frames|
      ensures Downmix(b).frames[i][0] == b.frames[i][0]
    {
      MeanOfConstant(b.frames[i], b.frames[i][0]);
    }
  }

  /** Folding an already folded buffer changes nothing. */
  lemma DownmixIdempotent(b: Buffer)
    ensures Downmix(Downmix(b)) == Downmix(b)
  {
    var m := Downmix(b);
    forall i | 0 <= i < |b.frames|
      ensures Downmix(m).frames[i] == m.frames[i]
    {
      assert m.frames[i] == [m.frames[i][0]];
      MeanOfSingle(m.frames[i][0]);
    }
    assert Downmix(m).frames == m.frames;
  }
}
