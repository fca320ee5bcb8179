/**
 * Padding arithmetic of 3rdparty/onnx-tensorrt/onnx2trt_utils.{hpp,cpp} and its use by the AveragePool
 * importer. Integers are C ints away from overflow; division truncates toward zero.
 */
module Padding {
  import opened Basics

  /** C division by a positive number. */
  function TruncDiv(a: int, b: int): int
    requires b > 0
  {
    if a >= 0 then a / b else -((-a) / b)
  }

  /** Division toward zero: the quotient of the absolute value, with the sign of the numerator. */
  lemma TruncLaw(a: int, b: int)
    requires a >= 0 && b > 0
    ensures TruncDiv(a, b) * b <= a < TruncDiv(a, b) * b + b
    ensures TruncDiv(-a, b) == -TruncDiv(a, b)
  {
    TruncOdd(a, b);
    assert a == a / b * b + a % b;
  }

  lemma TruncOdd(a: int, b: int)
    requires a >= 0 && b > 0
    ensures TruncDiv(-a, b) == -TruncDiv(a, b)
  {
    if a == 0 {
      QuotientOf(0, 0, b);
    }
  }

  /** The C right shift by one, which rounds toward minus infinity. */
  function HalfDown(a: int): (h: int)
    ensures 2 * h <= a <= 2 * h + 1
  {
    a / 2
  }

  function DivCeil(n: int, d: int): int
    requires d > 0
  {
    TruncDiv(n - 1, d) + 1
  }

  /** get_conv_output_size, the cuDNN formula. */
  function ConvOutputSize(input: int, filter: int, stride: int, dilation: int, padding: int): int
    requires stride > 0
  {
    DivCeil(input + padding - ((filter - 1) * dilation + 1 - 1), stride)
  }

  /** Kernel extent with dilation, as get_kernel_params computes it. */
  function Extent(k: int, dilation: int): int {
    k + (k - 1) * (dilation - 1)
  }

  lemma ExtentIsCudnnExtent(k: int, d: int)
    ensures Extent(k, d) == (k - 1) * d + 1
  {
    assert (k - 1) * (d - 1) == (k - 1) * d - (k - 1);
  }

  /**
   * What the size formula counts: the windows that fit. The last of o windows, stride apart and of the kernel's dilated
   * extent, ends within the padded input, and one more would not.
   */
  lemma SizeCountsWindows(input: int, k: int, stride: int, dilation: int, padding: int)
    requires stride > 0 && (k - 1) * dilation + 1 <= input + padding
    ensures var o, extent := ConvOutputSize(input, k, stride, dilation, padding), (k - 1) * dilation + 1;
      o >= 1 && (o - 1) * stride + extent <= input + padding < o * stride + extent
  {
    var n := input + padding - ((k - 1) * dilation + 1);
    assert ConvOutputSize(input, k, stride, dilation, padding) == n / stride + 1;
    assert n == n / stride * stride + n % stride;
    assert (n / stride + 1) * stride == n / stride * stride + stride;
  }

  lemma TruncExact(q: int, s: int)
    requires s > 0
    ensures TruncDiv(q * s, s) == q
  {
    if q >= 0 {
      QuotientOf(q, 0, s);
    } else {
      QuotientOf(-q, 0, s);
      assert (-q) * s == -(q * s);
    }
  }

  lemma QuotientOf(q: int, r: int, s: int)
    requires q >= 0 && 0 <= r < s
    ensures q * s + r >= 0 && (q * s + r) / s == q
  {
    var n := q * s + r;
    assert n == (n / s) * s + n % s;
    Tie(n / s, q, s, n % s, r);
  }

  lemma Tie(a: int, b: int, s: int, r: int, t: int)
    requires 0 <= r < s && 0 <= t < s && a * s + r == b * s + t
    ensures a == b
  {
    assert (a - b) * s == t - r;
    NoMultipleBetween(a - b, s);
  }

  lemma NoMultipleBetween(m: int, s: int)
    requires s > 0
    ensures m >= 1 ==> m * s >= s
    ensures m <= -1 ==> m * s <= -s
  {
  }

  // ---- SAME padding ----

  datatype SamePad = SameUpper | SameLower

  /** ceil(input / stride) for a non-empty input, the output size when none is requested. */
  function SameOutput(input: int, stride: int): int
    requires stride > 0
  {
    TruncDiv(input - 1, stride) + 1
  }

  /** o is n / d rounded up. */
  predicate IsCeiling(o: int, n: int, d: int) {
    (o - 1) * d < n <= o * d
  }

  lemma SameOutputIsCeiling(input: int, stride: int)
    requires input >= 1 && stride >= 1
    ensures IsCeiling(SameOutput(input, stride), input, stride)
  {
    var n := input - 1;
    assert n == (n / stride) * stride + n % stride;
    assert (n / stride + 1) * stride == (n / stride) * stride + stride;
  }

  function SameTotal(input: int, k: int, stride: int, dilation: int, output: int): int {
    (output - 1) * stride + Extent(k, dilation) - input
  }

  function SameBegin(pad: SamePad, total: int): int {
    if pad.SameLower? then total - HalfDown(total) else HalfDown(total)
  }

  function SameEnd(pad: SamePad, total: int): int {
    if pad.SameLower? then HalfDown(total) else total - HalfDown(total)
  }

  /** The numerator of the size formula, one less than the ceiling division takes. */
  lemma SizeFromNumerator(input: int, k: int, stride: int, dilation: int, padding: int)
    requires stride > 0
    ensures ConvOutputSize(input, k, stride, dilation, padding) ==
      TruncDiv(input + padding - Extent(k, dilation), stride) + 1
  {
    ExtentIsCudnnExtent(k, dilation);
  }

  /** SAME padding gives exactly the output size it was computed for, for any kernel, stride and dilation. */
  lemma SamePaddingHitsOutput(pad: SamePad, input: int, k: int, stride: int, dilation: int, output: int)
    requires stride > 0
    ensures
      var total := SameTotal(input, k, stride, dilation, output);
      ConvOutputSize(input, k, stride, dilation, SameBegin(pad, total) + SameEnd(pad, total)) == output
  {
    var total := SameTotal(input, k, stride, dilation, output);
    SizeFromNumerator(input, k, stride, dilation, total);
    TruncExact(output - 1, stride);
  }

  /** The test of lines 122-131: padding differs, and (beg, beg) gives the size that (beg, end) gives. */
  predicate SymmetricTest(input: int, k: int, stride: int, dilation: int, beg: int, end: int)
    requires stride > 0
  {
    beg != end &&
    ConvOutputSize(input, k, stride, dilation, beg + beg) == ConvOutputSize(input, k, stride, dilation, beg + end)
  }

  /** Truncated quotient just above and just below a multiple. */
  lemma NearMultiple(q: int, s: int)
    requires s > 0
    ensures q >= 0 ==> (TruncDiv(q * s + 1, s) == q <==> s > 1)
    ensures q >= 1 ==> TruncDiv(q * s - 1, s) == q - 1
    ensures q == 0 ==> (TruncDiv(q * s - 1, s) == 0 <==> s > 1)
  {
    if q >= 0 {
      if s > 1 {
        QuotientOf(q, 1, s);
      } else {
        QuotientOf(q + 1, 0, s);
      }
    }
    if q >= 1 {
      QuotientOf(q - 1, s - 1, s);
      assert (q - 1) * s + (s - 1) == q * s - 1;
    }
    if q == 0 {
      if s > 1 { QuotientOf(0, 1, s); }
      assert TruncDiv(-1, s) == -(1 / s);
    }
  }

  /** At odd total padding, SAME_LOWER passes the test exactly when the stride exceeds 1. */
  lemma LowerPassesIffStrided(input: int, k: int, stride: int, dilation: int, output: int)
    requires stride > 0 && output >= 1
    requires SameTotal(input, k, stride, dilation, output) % 2 == 1
    ensures
      var total := SameTotal(input, k, stride, dilation, output);
      SymmetricTest(input, k, stride, dilation, SameBegin(SameLower, total), SameEnd(SameLower, total)) <==> stride > 1
  {
    var total := SameTotal(input, k, stride, dilation, output);
    SamePaddingHitsOutput(SameLower, input, k, stride, dilation, output);
    SizeFromNumerator(input, k, stride, dilation, total + 1);
    NearMultiple(output - 1, stride);
  }

  /**
   * At odd total padding, SAME_UPPER passes the test only for a single output with a stride above 1: then the
   * numerator is -1 and C division rounds it up to 0. With two or more outputs it never passes.
   */
  lemma UpperPassesIffSingleStrided(input: int, k: int, stride: int, dilation: int, output: int)
    requires stride > 0 && output >= 1
    requires SameTotal(input, k, stride, dilation, output) % 2 == 1
    ensures
      var total := SameTotal(input, k, stride, dilation, output);
      SymmetricTest(input, k, stride, dilation, SameBegin(SameUpper, total), SameEnd(SameUpper, total)) <==>
      output == 1 && stride > 1
  {
    var total := SameTotal(input, k, stride, dilation, output);
    SamePaddingHitsOutput(SameUpper, input, k, stride, dilation, output);
    SizeFromNumerator(input, k, stride, dilation, total - 1);
    NearMultiple(output - 1, stride);
  }

  /** At even total padding both ends agree, so the test never passes. */
  lemma EvenTotalIsSymmetric(pad: SamePad, total: int)
    requires total % 2 == 0
    ensures SameBegin(pad, total) == SameEnd(pad, total)
  {
  }

  // ---- The two passes over the padding arrays ----

  /** What one spatial dimension of the layer is given. */
  datatype Axis = Axis(input: int, kernel: int, stride: int, dilation: int)

  /** The output size of one dimension: the requested one, or the SAME default. */
  function OutputOf(axis: Axis, requested: Option<int>): int
    requires axis.stride > 0
  {
    if requested.Some? then requested.value else SameOutput(axis.input, axis.stride)
  }

  /** The padding one dimension needs in all. */
  function TotalOf(axis: Axis, requested: Option<int>): int
    requires axis.stride > 0
  {
    SameTotal(axis.input, axis.kernel, axis.stride, axis.dilation, OutputOf(axis, requested))
  }

  /** The SAME branch, lines 67-105, for height and width. */
  method FillSamePadding(
    pad: SamePad, h: Axis, w: Axis, outH: Option<int>, outW: Option<int>, beg: array<int>, end: array<int>)
    requires h.stride > 0 && w.stride > 0 && h.input != 0 && w.input != 0
    requires beg.Length == end.Length == MAX_DIMS && beg != end
    modifies beg, end
    ensures ConvOutputSize(h.input, h.kernel, h.stride, h.dilation, beg[0] + end[0]) == OutputOf(h, outH)
    ensures ConvOutputSize(w.input, w.kernel, w.stride, w.dilation, beg[1] + end[1]) == OutputOf(w, outW)
    ensures outH.Some? ==> ConvOutputSize(h.input, h.kernel, h.stride, h.dilation, beg[0] + end[0]) == outH.value
    ensures outW.Some? ==> ConvOutputSize(w.input, w.kernel, w.stride, w.dilation, beg[1] + end[1]) == outW.value
    ensures outH.None? && h.input >= 1 ==>
      IsCeiling(ConvOutputSize(h.input, h.kernel, h.stride, h.dilation, beg[0] + end[0]), h.input, h.stride)
    ensures outW.None? && w.input >= 1 ==>
      IsCeiling(ConvOutputSize(w.input, w.kernel, w.stride, w.dilation, beg[1] + end[1]), w.input, w.stride)
    ensures forall d :: 0 <= d < 2 ==> if pad.SameLower? then 0 <= beg[d] - end[d] <= 1 else 0 <= end[d] - beg[d] <= 1
    ensures beg[0] == SameBegin(pad, TotalOf(h, outH)) && end[0] == SameEnd(pad, TotalOf(h, outH))
    ensures beg[1] == SameBegin(pad, TotalOf(w, outW)) && end[1] == SameEnd(pad, TotalOf(w, outW))
    ensures forall d :: 2 <= d < MAX_DIMS ==> beg[d] == old(beg[d]) && end[d] == old(end[d])
  {
    var ph := SameTotal(h.input, h.kernel, h.stride, h.dilation, OutputOf(h, outH));
    var pw := SameTotal(w.input, w.kernel, w.stride, w.dilation, OutputOf(w, outW));
    var hMinor, wMinor := HalfDown(ph), HalfDown(pw);
    var hMajor, wMajor := ph - hMinor, pw - wMinor;
    if pad.SameLower? {
      beg[0], beg[1], end[0], end[1] := hMajor, wMajor, hMinor, wMinor;
    } else {
      beg[0], beg[1], end[0], end[1] := hMinor, wMinor, hMajor, wMajor;
    }
    if h.input >= 1 {
      SameOutputIsCeiling(h.input, h.stride);
    }
    if w.input >= 1 {
      SameOutputIsCeiling(w.input, w.stride);
    }
    SamePaddingHitsOutput(pad, h.input, h.kernel, h.stride, h.dilation, OutputOf(h, outH));
    SamePaddingHitsOutput(pad, w.input, w.kernel, w.stride, w.dilation, OutputOf(w, outW));
  }

  /** The result the comment describes: a dimension that passes the test gets (beg, beg). */
  function IntendedEnd(axis: Axis, beg: int, end: int): int
    requires axis.stride > 0
  {
    if SymmetricTest(axis.input, axis.kernel, axis.stride, axis.dilation, beg, end) then beg else end
  }

  /**
   * The loop of lines 119-134, which indexes its write with the dilation d instead of the dimension.
   * Dilations at or above MAX_DIMS would write outside the arrays.
   */
  method ConvertPadding(axes: seq<Axis>, beg: array<int>, end: array<int>)
    requires |axes| == 2 && beg.Length == end.Length == MAX_DIMS && beg != end
    requires forall i :: 0 <= i < 2 ==> axes[i].stride > 0 && 0 <= axes[i].dilation < MAX_DIMS
    modifies end
    ensures end[..] == LoopEnd(axes, beg[..], old(end[..]))
  {
    for dim := 0 to 2
      invariant dim == 0 ==> end[..] == old(end[..])
      invariant dim == 1 ==> end[..] == RoundEnd(axes[0], 0, beg[..], old(end[..]))
      invariant dim == 2 ==> end[..] == LoopEnd(axes, beg[..], old(end[..]))
    {
      var a := axes[dim];
      if SymmetricTest(a.input, a.kernel, a.stride, a.dilation, beg[dim], end[dim]) {
        end[a.dilation] := beg[a.dilation];
      }
    }
  }

  function RoundEnd(a: Axis, dim: nat, beg: seq<int>, end: seq<int>): (r: seq<int>)
    requires a.stride > 0 && 0 <= a.dilation < |beg| == |end| && dim < |beg|
    ensures |r| == |end|
  {
    if TestOn(a, beg[dim], end[dim]) then end[a.dilation := beg[a.dilation]] else end
  }

  function LoopEnd(axes: seq<Axis>, beg: seq<int>, end: seq<int>): (r: seq<int>)
    requires |axes| == 2 && |beg| == |end| == MAX_DIMS
    requires forall i :: 0 <= i < 2 ==> axes[i].stride > 0 && 0 <= axes[i].dilation < MAX_DIMS
    ensures |r| == MAX_DIMS
  {
    RoundEnd(axes[1], 1, beg, RoundEnd(axes[0], 0, beg, end))
  }

  /** The symmetric test on the paddings the loop is given for one dimension. */
  predicate TestOn(axis: Axis, beg: int, end: int)
    requires axis.stride > 0
  {
    SymmetricTest(axis.input, axis.kernel, axis.stride, axis.dilation, beg, end)
  }

  /**
   * The loop meets its comment exactly when every test that passes has a dilation equal to the number of its own
   * dimension: 0 for the height, 1 for the width.
   */
  lemma LoopMeetsIntentIff(axes: seq<Axis>, beg: seq<int>, end: seq<int>)
    requires |axes| == 2 && |beg| == |end| == MAX_DIMS
    requires forall i :: 0 <= i < 2 ==> axes[i].stride > 0 && 0 <= axes[i].dilation < MAX_DIMS
    ensures
      var r := LoopEnd(axes, beg, end);
      (r[0] == IntendedEnd(axes[0], beg[0], end[0]) && r[1] == IntendedEnd(axes[1], beg[1], end[1])) <==>
      (forall dim :: 0 <= dim < 2 && TestOn(axes[dim], beg[dim], end[dim]) ==> axes[dim].dilation == dim)
  {
    var r := LoopEnd(axes, beg, end);
    assert (forall dim :: 0 <= dim < 2 && TestOn(axes[dim], beg[dim], end[dim]) ==> axes[dim].dilation == dim) <==>
      (TestOn(axes[0], beg[0], end[0]) ==> axes[0].dilation == 0) &&
      (TestOn(axes[1], beg[1], end[1]) ==> axes[1].dilation == 1);
  }

  /**
   * A 3x3 stride-2 SAME_LOWER layer on a 4x4 input has padding (1, 0): the height test passes and the height end
   * padding stays 0 where 1 was intended.
   */
  lemma LoopMissesIntentExample(axes: seq<Axis>, beg: seq<int>, end: seq<int>)
    requires |axes| == 2 && |beg| == |end| == MAX_DIMS
    requires forall i :: 0 <= i < 2 ==> axes[i] == Axis(4, 3, 2, 1) && beg[i] == 1 && end[i] == 0
    ensures LoopEnd(axes, beg, end)[0] == 0 && IntendedEnd(axes[0], beg[0], end[0]) == 1
  {
    ExampleTest();
    assert TestOn(axes[0], beg[0], end[0]);
    LoopMisses(axes, beg, end);
  }

  lemma ExampleTest()
    ensures TestOn(Axis(4, 3, 2, 1), 1, 0)
  {
    ExamplePadding();
  }

  /** The SAME_LOWER padding of that layer is (1, 0), and the test passes on it. */
  lemma ExamplePadding()
    ensures SameTotal(4, 3, 2, 1, 2) == 1 && SameBegin(SameLower, 1) == 1 && SameEnd(SameLower, 1) == 0
    ensures TestOn(Axis(4, 3, 2, 1), 1, 0)
  {
    LowerPassesIffStrided(4, 3, 2, 1, 2);
  }

  /** A passing height test leaves the height as it was when the dilation is 1. */
  lemma LoopMisses(axes: seq<Axis>, beg: seq<int>, end: seq<int>)
    requires |axes| == 2 && |beg| == |end| == MAX_DIMS
    requires forall i :: 0 <= i < 2 ==> axes[i].stride > 0 && axes[i].dilation == 1
    requires TestOn(axes[0], beg[0], end[0])
    ensures LoopEnd(axes, beg, end)[0] == end[0] && IntendedEnd(axes[0], beg[0], end[0]) == beg[0] != end[0]
  {
  }

  // ---- AveragePool ----

  /** What the importer gives the pooling and cropping layers for one dimension. */
  datatype Pool = Pool(beg: int, crop: int)

  predicate Poolable(beg: int, end: int) {
    end == beg || end == beg + 1
  }

  /** The supported paddings, and what becomes of them: the end may exceed the front by one, and then one is cropped. */
  lemma PoolLaw(stride: int, beg: int, end: int)
    ensures Poolable(beg, end) <==> 0 <= end - beg <= 1
    ensures Poolable(beg, end) ==> PoolOf(stride, beg, end) == Pool(beg + (end - beg) * stride, end - beg)
  {
  }

  function PoolOf(stride: int, beg: int, end: int): Pool {
    if end == beg then Pool(beg, 0) else Pool(beg + stride, 1)
  }

  /** The loop of lines 374-387; false is the unsupported form of asymmetric padding. */
  method RewritePadding(strides: seq<int>, beg: array<int>, end: array<int>) returns (ok: bool, crop: seq<int>)
    requires |strides| == 2 && beg.Length == end.Length == MAX_DIMS && beg != end
    modifies beg
    ensures ok <==> old(Poolable(beg[0], end[0])) && old(Poolable(beg[1], end[1]))
    ensures ok ==> |crop| == 2 && forall d :: 0 <= d < 2 ==>
      Pool(beg[d], crop[d]) == PoolOf(strides[d], old(beg[d]), old(end[d]))
    ensures forall d :: 2 <= d < MAX_DIMS ==> beg[d] == old(beg[d])
  {
    crop := [0, 0];
    for d := 0 to 2
      invariant |crop| == 2 && crop[d..] == [0, 0][d..]
      invariant forall e :: d <= e < MAX_DIMS ==> beg[e] == old(beg[e])
      invariant forall e :: 0 <= e < d ==> old(Poolable(beg[e], end[e]))
      invariant forall e :: 0 <= e < d ==> Pool(beg[e], crop[e]) == PoolOf(strides[e], old(beg[e]), old(end[e]))
    {
      if end[d] == beg[d] {
      } else if end[d] == beg[d] + 1 {
        beg[d] := beg[d] + strides[d];
        crop := crop[d := 1];
      } else {
        return false, crop;
      }
    }
    return true, crop;
  }

  /** Output size after pooling with symmetric padding and cropping the front. */
  function PooledSize(input: int, k: int, stride: int, p: Pool): int
    requires stride > 0
  {
    ConvOutputSize(input, k, stride, 1, p.beg + p.beg) - p.crop
  }

  /** First input position, possibly in the padding, that output j reads. */
  function WindowStart(stride: int, p: Pool, j: int): int {
    (j + p.crop) * stride - p.beg
  }

  /** The rewrite never shifts a window: output j still starts at j * stride - beg. */
  lemma RewriteKeepsWindows(stride: int, beg: int, end: int, j: int)
    requires Poolable(beg, end)
    ensures WindowStart(stride, PoolOf(stride, beg, end), j) == j * stride - beg
  {
    assert (j + 1) * stride == j * stride + stride;
  }

  lemma TwoMoreStrides(n: int, s: int)
    requires s > 0 && n >= -1
    ensures TruncDiv(n + 2 * s, s) == TruncDiv(n, s) + 2 || (n == -1 && s > 1 && TruncDiv(n + 2 * s, s) == 1)
    ensures n >= 0 ==> TruncDiv(n + 2 * s, s) == TruncDiv(n, s) + 2
    ensures n == -1 ==> TruncDiv(n + 2 * s, s) == 1
  {
    if n >= 0 {
      assert n == (n / s) * s + n % s;
      assert (n / s + 2) * s == (n / s) * s + 2 * s;
      QuotientOf(n / s + 2, n % s, s);
    } else {
      QuotientOf(1, s - 1, s);
    }
  }

  lemma NextNumerator(n: int, s: int)
    requires s > 0 && n >= 0
    ensures TruncDiv(n, s) <= TruncDiv(n + 1, s) <= TruncDiv(n, s) + 1
  {
    assert n == (n / s) * s + n % s;
    if n % s + 1 < s {
      QuotientOf(n / s, n % s + 1, s);
    } else {
      assert (n / s + 1) * s == (n / s) * s + s;
      QuotientOf(n / s + 1, 0, s);
    }
  }

  /**
   * For any input, kernel, stride and padding with end == beg + 1 and a kernel that fits the input padded by beg on
   * both sides: the rewrite yields the asymmetric output size if and only if the symmetric test fails.
   */
  lemma RewriteIsExactIff(input: int, k: int, stride: int, beg: int)
    requires stride > 0 && input + 2 * beg >= k
    ensures
      var rewritten := PooledSize(input, k, stride, PoolOf(stride, beg, beg + 1));
      rewritten == ConvOutputSize(input, k, stride, 1, beg + beg + 1) <==>
      !SymmetricTest(input, k, stride, 1, beg, beg + 1)
  {
    var n := input + 2 * beg - k;
    SizeFromNumerator(input, k, stride, 1, 2 * beg);
    SizeFromNumerator(input, k, stride, 1, 2 * beg + 1);
    SizeFromNumerator(input, k, stride, 1, 2 * (beg + stride));
    TwoMoreStrides(n, stride);
    NextNumerator(n, stride);
  }

  /** SAME_UPPER at odd total padding: the rewrite yields exactly the SAME output size, also for a single output. */
  lemma SameUpperPoolsExactly(input: int, k: int, stride: int, output: int)
    requires stride > 0 && output >= 1
    requires SameTotal(input, k, stride, 1, output) % 2 == 1
    ensures
      var total := SameTotal(input, k, stride, 1, output);
      var beg, end := SameBegin(SameUpper, total), SameEnd(SameUpper, total);
      end == beg + 1 && PooledSize(input, k, stride, PoolOf(stride, beg, end)) == output
  {
    var total := SameTotal(input, k, stride, 1, output);
    var beg := SameBegin(SameUpper, total);
    SizeFromNumerator(input, k, stride, 1, 2 * (beg + stride));
    assert (output + 1) * stride == (output - 1) * stride + 2 * stride;
    NearMultiple(output + 1, stride);
  }

  // ---- The padding of a whole AveragePool layer ----

  ghost predicate PoolAxis(a: Axis) {
    a.stride > 0 && a.input >= 1 && a.dilation == 1
  }

  /** The size SAME asks for. */
  function OutSize(a: Axis): int
    requires a.stride > 0
  {
    SameOutput(a.input, a.stride)
  }

  /** Whether the symmetric test passes on the SAME padding of a dimension. */
  ghost predicate TestPasses(pad: SamePad, a: Axis)
    requires PoolAxis(a)
  {
    var total := TotalOf(a, None);
    total % 2 == 1 && a.stride > 1 && (pad.SameLower? || OutSize(a) == 1)
  }

  lemma TestOnSamePadding(pad: SamePad, a: Axis)
    requires PoolAxis(a)
    ensures var total := TotalOf(a, None);
      SymmetricTest(a.input, a.kernel, a.stride, a.dilation, SameBegin(pad, total), SameEnd(pad, total))
      <==> TestPasses(pad, a)
  {
    var total := TotalOf(a, None);
    SameOutputIsCeiling(a.input, a.stride);
    assert OutSize(a) >= 1 by {
      OutputIsPositive(a.input, a.stride);
    }
    if total % 2 == 0 {
      EvenTotalIsSymmetric(pad, total);
    } else if pad.SameLower? {
      LowerPassesIffStrided(a.input, a.kernel, a.stride, a.dilation, OutSize(a));
    } else {
      UpperPassesIffSingleStrided(a.input, a.kernel, a.stride, a.dilation, OutSize(a));
    }
  }

  lemma OutputIsPositive(input: int, stride: int)
    requires input >= 1 && stride > 0
    ensures SameOutput(input, stride) >= 1
  {
  }

  /** The dimension has the SAME output size, and output j reads from j * stride minus the SAME front padding. */
  ghost predicate PooledAs(pad: SamePad, a: Axis, p: Pool)
    requires a.stride > 0
  {
    && PooledSize(a.input, a.kernel, a.stride, p) == OutSize(a)
    && forall j :: WindowStart(a.stride, p, j) == j * a.stride - SameBegin(pad, TotalOf(a, None))
  }

  lemma RewriteKeepsAllWindows(stride: int, beg: int, end: int)
    requires Poolable(beg, end)
    ensures forall j :: WindowStart(stride, PoolOf(stride, beg, end), j) == j * stride - beg
  {
    forall j ensures WindowStart(stride, PoolOf(stride, beg, end), j) == j * stride - beg {
      RewriteKeepsWindows(stride, beg, end, j);
    }
  }

  /** One dimension of a SAME_UPPER layer that keeps its padding is pooled to its size. */
  lemma UpperAxisPoolsExactly(a: Axis)
    requires PoolAxis(a)
    ensures var total := TotalOf(a, None);
      var beg, end := SameBegin(SameUpper, total), SameEnd(SameUpper, total);
      Poolable(beg, end) && PooledAs(SameUpper, a, PoolOf(a.stride, beg, end))
  {
    OutputIsPositive(a.input, a.stride);
    var beg, end := SameBegin(SameUpper, TotalOf(a, None)), SameEnd(SameUpper, TotalOf(a, None));
    if TotalOf(a, None) % 2 == 0 {
      EvenTotalIsSymmetric(SameUpper, TotalOf(a, None));
      SamePaddingHitsOutput(SameUpper, a.input, a.kernel, a.stride, 1, OutSize(a));
    } else {
      SameUpperPoolsExactly(a.input, a.kernel, a.stride, OutSize(a));
    }
    RewriteKeepsAllWindows(a.stride, beg, end);
  }

  /** A dimension given (beg, beg) is pooled to its size exactly when its padding was even or its own test passes. */
  lemma SymmetricAxisPoolsIff(pad: SamePad, a: Axis)
    requires PoolAxis(a)
    ensures var beg := SameBegin(pad, TotalOf(a, None));
      PooledAs(pad, a, PoolOf(a.stride, beg, beg)) <==> TotalOf(a, None) % 2 == 0 || TestPasses(pad, a)
  {
    var total := TotalOf(a, None);
    var beg := SameBegin(pad, total);
    SamePaddingHitsOutput(pad, a.input, a.kernel, a.stride, 1, OutSize(a));
    TestOnSamePadding(pad, a);
    RewriteKeepsAllWindows(a.stride, beg, beg);
    if total % 2 == 0 {
      EvenTotalIsSymmetric(pad, total);
    }
  }

  ghost predicate IsSamePadding(pad: SamePad, a: Axis, beg: int, end: int)
    requires PoolAxis(a)
  {
    beg == SameBegin(pad, TotalOf(a, None)) && end == SameEnd(pad, TotalOf(a, None))
  }

  /** What the conversion loop leaves of SAME padding when no dilation is given: only the width can change. */
  lemma LoopOnSamePadding(pad: SamePad, h: Axis, w: Axis, beg: seq<int>, end: seq<int>)
    requires PoolAxis(h) && PoolAxis(w) && |beg| == |end| == MAX_DIMS
    ensures IsSamePadding(pad, h, beg[0], end[0]) && IsSamePadding(pad, w, beg[1], end[1]) ==>
      var r := LoopEnd([h, w], beg, end);
      r[0] == end[0] && r[1] == if TestPasses(pad, h) || TestPasses(pad, w) then beg[1] else end[1]
  {
    TestOnSamePadding(pad, h);
    TestOnSamePadding(pad, w);
  }

  /**
   * The input on which SAME_UPPER goes wrong: a single strided height output at odd padding passes the symmetric
   * test, and the write that should make the height symmetric makes the width symmetric, one column too short.
   */
  ghost predicate WidthLosesColumn(h: Axis, w: Axis)
    requires PoolAxis(h) && PoolAxis(w)
  {
    TestPasses(SameUpper, h) && TotalOf(w, None) % 2 == 1 && !TestPasses(SameUpper, w)
  }

  /**
   * The padding of an AveragePool layer with SAME padding, from get_kernel_params to the crop. SAME_UPPER is always
   * accepted, and both output sizes and windows are exact unless the width loses a column to the height's test.
   * SAME_LOWER is accepted exactly when the height needs an even amount of padding and the width an even amount or a
   * stride above 1, and is then always exact: a height that could have been converted is refused, because the
   * conversion writes to the width.
   */
  method PoolSamePadding(
    pad: SamePad, h: Axis, w: Axis, beg: array<int>, end: array<int>)
    returns (ok: bool, crop: seq<int>)
    requires PoolAxis(h) && PoolAxis(w) && beg.Length == end.Length == MAX_DIMS && beg != end
    modifies beg, end
    ensures pad.SameUpper? ==> ok
    ensures pad.SameLower? ==>
      (ok <==> TotalOf(h, None) % 2 == 0 && (TotalOf(w, None) % 2 == 0 || w.stride > 1))
    ensures ok ==> |crop| == 2 && PooledAs(pad, h, Pool(beg[0], crop[0]))
    ensures ok ==> (PooledAs(pad, w, Pool(beg[1], crop[1])) <==> pad.SameLower? || !WidthLosesColumn(h, w))
  {
    FillSamePadding(pad, h, w, None, None, beg, end);
    LoopOnSamePadding(pad, h, w, beg[..], end[..]);
    ConvertPadding([h, w], beg, end);
    SymmetricAxisPoolsIff(pad, h);
    SymmetricAxisPoolsIff(pad, w);
    UpperAxisPoolsExactly(h);
    UpperAxisPoolsExactly(w);
    ok, crop := RewritePadding([h.stride, w.stride], beg, end);
    assert [h.stride, w.stride][0] == h.stride && [h.stride, w.stride][1] == w.stride;
  }

  /** A 3x2 window with strides 2 and 1 on a 2x4 input: the width is pooled to 3 columns where 4 are due. */
  lemma WidthLosesColumnExample(h: Axis, w: Axis)
    requires h == Axis(2, 3, 2, 1) && w == Axis(4, 2, 1, 1)
    ensures PoolAxis(h) && PoolAxis(w) && WidthLosesColumn(h, w)
    ensures OutSize(w) == 4 && SameBegin(SameUpper, TotalOf(w, None)) == 0 && PooledSize(4, 2, 1, PoolOf(1, 0, 0)) == 3
  {
    ExampleHeight(h);
    ExampleWidth(w);
    PooledWidth();
  }

  lemma ExampleHeight(h: Axis)
    requires h == Axis(2, 3, 2, 1)
    ensures PoolAxis(h) && TestPasses(SameUpper, h)
  {
    HeightSizes(h);
  }

  lemma HeightSizes(h: Axis)
    requires h == Axis(2, 3, 2, 1)
    ensures TotalOf(h, None) == 1 && OutSize(h) == 1
  {
    assert SameOutput(2, 2) == 1;
  }

  lemma ExampleWidth(w: Axis)
    requires w == Axis(4, 2, 1, 1)
    ensures PoolAxis(w) && TotalOf(w, None) % 2 == 1 && !TestPasses(SameUpper, w) && OutSize(w) == 4
    ensures SameBegin(SameUpper, TotalOf(w, None)) == 0
  {
    WidthSizes(w);
    UnstridedByOne(w);
  }

  lemma UnstridedByOne(a: Axis)
    requires PoolAxis(a) && a.stride == 1 && TotalOf(a, None) == 1
    ensures TotalOf(a, None) % 2 == 1 && !TestPasses(SameUpper, a) && SameBegin(SameUpper, TotalOf(a, None)) == 0
  {
  }

  lemma WidthSizes(w: Axis)
    requires w == Axis(4, 2, 1, 1)
    ensures TotalOf(w, None) == 1 && OutSize(w) == 4
  {
    assert SameOutput(4, 1) == 4;
  }

  lemma PooledWidth()
    ensures PooledSize(4, 2, 1, PoolOf(1, 0, 0)) == 3
  {
    assert ConvOutputSize(4, 2, 1, 1, 0) == 3;
  }
}
