/**
 * Layout moves of the ONNX importer that undo each other: moving one dimension, Unsqueeze and Squeeze
 * (builtin_op_importers.cpp), and the transpose of a weight matrix (ShapedWeights.cpp).
 */
module LayoutMoves {
  import opened Basics
  import opened RowMajor

  // ---- Moving one dimension ----

  /** Position i of the permutation that puts dimension from at position to and keeps the others in order. */
  function MovedAt(from: nat, to: nat, i: nat): nat {
    if i == to then from else
    var j := if i < to then i else i - 1;
    if j < from then j else j + 1
  }

  function Moved(ndim: nat, from: nat, to: nat): (p: seq<nat>)
    ensures |p| == ndim && forall i :: 0 <= i < ndim ==> p[i] == MovedAt(from, to, i)
  {
    seq(ndim, i requires 0 <= i => MovedAt(from, to, i))
  }

  lemma MovedAtUndo(from: nat, to: nat, i: nat)
    ensures MovedAt(from, to, MovedAt(to, from, i)) == i
  {
  }

  lemma MovedIsPermutation(ndim: nat, from: nat, to: nat)
    requires from < ndim && to < ndim
    ensures IsPermutation(Moved(ndim, from, to), ndim)
  {
    var p := Moved(ndim, from, to);
    forall d | 0 <= d < ndim ensures d in p {
      MovedAtUndo(from, to, d);
      assert p[MovedAt(to, from, d)] == d;
    }
  }

  /** move_tensor_dimension: the permutation it hands to the transpose, or nothing for a dimension out of range. */
  method MoveDimension(ndim: nat, from: int, to: int) returns (r: Option<seq<nat>>)
    ensures r.Some? <==> 0 <= from < ndim && 0 <= to < ndim
    ensures r.Some? ==> r.value == Moved(ndim, from, to) && IsPermutation(r.value, ndim)
    ensures r.Some? ==> r.value[to] == from
    ensures r.Some? ==> forall i, j :: 0 <= i < j < ndim && i != to && j != to ==> r.value[i] < r.value[j]
  {
    if !(0 <= from < ndim) || !(0 <= to < ndim) {
      return None;
    }
    var perm: seq<nat> := [];
    for i := 0 to ndim
      invariant |perm| == i && forall k :: 0 <= k < i ==> perm[k] == k
    {
      perm := perm + [i];
    }
    perm := perm[..from] + perm[from + 1..];
    perm := perm[..to] + [from] + perm[to..];
    MovedIsPermutation(ndim, from, to);
    r := Some(perm);
  }

  /** Moving a dimension and moving it back leaves every tensor as it was. */
  lemma MoveBackRestores<T>(t: Tensor<T>, from: nat, to: nat)
    requires t.Valid() && from < |t.shape| && to < |t.shape|
    ensures IsPermutation(Moved(|t.shape|, from, to), |t.shape|) && IsPermutation(Moved(|t.shape|, to, from), |t.shape|)
    ensures Select(Moved(|t.shape|, from, to), Moved(|t.shape|, to, from)) == UpTo(|t.shape|)
    ensures Transposed(Transposed(t, Moved(|t.shape|, from, to)), Moved(|t.shape|, to, from)) == t
  {
    var n := |t.shape|;
    var p, q := Moved(n, from, to), Moved(n, to, from);
    MovedIsPermutation(n, from, to);
    MovedIsPermutation(n, to, from);
    forall i | 0 <= i < n ensures p[q[i]] == i {
      MovedAtUndo(from, to, i);
    }
    TransposeUndo(t, p, q);
  }

  // ---- Squeeze and Unsqueeze ----

  /** The entries at positions outside the axes, in order. */
  function Keep(s: seq<nat>, axes: set<int>): seq<nat> {
    if s == [] then [] else
    var n := |s| - 1;
    Keep(s[..n], axes) + if n in axes then [] else [s[n]]
  }

  /** How many axes are below n. */
  function Below(axes: set<int>, n: nat): (c: nat)
    ensures c <= n
  {
    if n == 0 then 0 else Below(axes, n - 1) + if n - 1 in axes then 1 else 0
  }

  lemma {:induction false} BelowIsSize(axes: set<int>, n: nat)
    requires forall a :: a in axes ==> 0 <= a < n
    ensures Below(axes, n) == |axes|
  {
    if n == 0 {
      assert forall a :: a !in axes;
      assert axes == {};
    } else {
      var rest := axes - {n - 1};
      BelowIsSize(rest, n - 1);
      SameBelow(axes, rest, n - 1);
      assert n - 1 in axes ==> |axes| == |rest| + 1;
      assert n - 1 !in axes ==> axes == rest;
    }
  }

  lemma BelowAtMostSize(axes: set<int>, n: nat)
    ensures Below(axes, n) <= |axes|
  {
    var inside := set a | a in axes && 0 <= a < n;
    BelowIsSize(inside, n);
    SameBelow(axes, inside, n);
    SubsetSize(inside, axes);
  }

  lemma SubsetSize(a: set<int>, b: set<int>)
    requires a <= b
    ensures |a| <= |b|
  {
    assert b == a + (b - a);
  }

  lemma {:induction false} SameBelow(a: set<int>, b: set<int>, n: nat)
    requires forall k :: 0 <= k < n ==> (k in a <==> k in b)
    ensures Below(a, n) == Below(b, n)
  {
    if n > 0 {
      SameBelow(a, b, n - 1);
    }
  }

  ghost predicate OnesAt(s: seq<nat>, axes: set<int>) {
    forall j :: 0 <= j < |s| && j in axes ==> s[j] == 1
  }

  lemma KeepAppend(s: seq<nat>, d: nat, axes: set<int>)
    ensures Keep(s + [d], axes) == if |s| in axes then Keep(s, axes) else Keep(s, axes) + [d]
    ensures OnesAt(s, axes) && (|s| in axes ==> d == 1) ==> OnesAt(s + [d], axes)
  {
    assert (s + [d])[..|s|] == s;
  }

  lemma {:induction false} KeepLength(s: seq<nat>, axes: set<int>)
    ensures |Keep(s, axes)| == |s| - Below(axes, |s|)
  {
    if s != [] {
      KeepLength(s[..|s| - 1], axes);
    }
  }

  /** Dropping dimensions of size one keeps the number of elements. */
  lemma {:induction false} KeepVolume(s: seq<nat>, axes: set<int>)
    requires OnesAt(s, axes)
    ensures Volume(Keep(s, axes)) == Volume(s)
  {
    if s != [] {
      var n := |s| - 1;
      KeepVolume(s[..n], axes);
      assert s == s[..n] + [s[n]];
      VolumeAppend(s[..n], s[n]);
      if n in axes {
        assert Keep(s, axes) == Keep(s[..n], axes);
      } else {
        VolumeAppend(Keep(s[..n], axes), s[n]);
      }
    }
  }

  lemma VolumeAppend(s: seq<nat>, d: nat)
    ensures Volume(s + [d]) == Volume(s) * d
  {
    VolumeConcat(s, [d]);
    assert Volume([d]) == d * Volume([]);
  }

  lemma LastKept(s: seq<nat>, t: seq<nat>, axes: set<int>)
    requires |s| == |t| > 0 && Keep(s, axes) == Keep(t, axes)
    ensures Keep(s[..|s| - 1], axes) == Keep(t[..|s| - 1], axes)
    ensures |s| - 1 in axes || s[|s| - 1] == t[|s| - 1]
  {
    var n := |s| - 1;
    var a, b := Keep(s[..n], axes), Keep(t[..n], axes);
    KeepLength(s[..n], axes);
    KeepLength(t[..n], axes);
    assert a == Keep(s, axes)[..|a|] && b == Keep(t, axes)[..|b|];
    assert n !in axes ==> Keep(s, axes)[|a|] == s[n] && Keep(t, axes)[|b|] == t[n];
  }

  /** A shape is determined by its length, its ones at the axes and its other entries. */
  lemma {:induction false} KeepDetermines(s: seq<nat>, t: seq<nat>, axes: set<int>)
    requires |s| == |t| && OnesAt(s, axes) && OnesAt(t, axes) && Keep(s, axes) == Keep(t, axes)
    ensures s == t
  {
    if s != [] {
      var n := |s| - 1;
      LastKept(s, t, axes);
      KeepDetermines(s[..n], t[..n], axes);
      assert s == s[..n] + [s[n]] && t == t[..n] + [t[n]];
    }
  }

  /**
   * nvinfer1::Dims: a number of dimensions and a fixed array, of which the entries from nb on are left over from
   * whatever was there before.
   */
  datatype Dims = Dims(nb: int, d: seq<nat>) {
    ghost predicate Valid() { nb <= MAX_DIMS && |d| == MAX_DIMS }
    ghost predicate IsShape() { 0 <= nb <= MAX_DIMS && |d| == MAX_DIMS }
  }

  function Shape(x: Dims): seq<nat>
    requires 0 <= x.nb <= |x.d|
  {
    x.d[..x.nb]
  }

  /** get_shape_size, which counts no elements when there are no dimensions. */
  function ShapeSize(x: Dims): nat
    requires x.nb <= |x.d|
  {
    if x.nb == 0 then 0 else if x.nb < 0 then 1 else Volume(Shape(x))
  }

  /** The axes with the batch dimension dropped; nothing when the batch dimension itself is named. */
  method ShiftAxes(axes: seq<int>) returns (r: Option<set<int>>)
    ensures r.Some? <==> 0 !in axes
    ensures r.Some? ==> r.value == Shifted(axes) && forall x :: x in r.value <==> x + 1 in axes
  {
    var shifted: set<int> := {};
    for k := 0 to |axes|
      invariant 0 !in axes[..k]
      invariant shifted == Shifted(axes[..k])
    {
      if axes[k] == 0 {
        return None;
      }
      ShiftNext(axes[..k], axes[k]);
      assert axes[..k + 1] == axes[..k] + [axes[k]];
      shifted := shifted + {axes[k] - 1};
    }
    assert axes[..|axes|] == axes;
    r := Some(shifted);
  }

  function Shifted(axes: seq<int>): set<int> {
    set a | a in axes :: a - 1
  }

  lemma ShiftNext(axes: seq<int>, a: int)
    ensures Shifted(axes + [a]) == Shifted(axes) + {a - 1}
  {
    forall x ensures x in Shifted(axes + [a]) <==> x in Shifted(axes) + {a - 1} {
      if x in Shifted(axes) {
        assert x + 1 in axes + [a];
      }
      if x == a - 1 {
        assert a in axes + [a];
      }
    }
  }

  /** The axes lie in a shape of n dimensions. */
  ghost predicate AxesFit(axes: seq<int>, n: int) {
    forall k :: 0 <= k < |axes| ==> 0 <= axes[k] <= n
  }

  /** Axes that fit, the batch dimension not among them, are positions of the shape. */
  lemma FittingAxes(axes: seq<int>, n: nat)
    requires AxesFit(axes, n) && 0 !in axes
    ensures Below(Shifted(axes), n) == |Shifted(axes)|
  {
    BelowIsSize(Shifted(axes), n);
  }

  /**
   * The widened shape: ones at the axes, and elsewhere, in order, the entries of the old array, as many as there are
   * positions. When the axes fit those are exactly the old dimensions; otherwise entries beyond them are read too.
   */
  ghost predicate IsUnsqueezed(dims: Dims, axes: set<int>, wide: Dims)
    requires dims.IsShape()
  {
    && wide.IsShape() && wide.nb == dims.nb + |axes|
    && OnesAt(Shape(wide), axes)
    && Keep(Shape(wide), axes) == dims.d[..wide.nb - Below(axes, wide.nb)]
  }

  /** The loop of Unsqueeze; scratch is what the new array held before. */
  method InsertOnes(dims: Dims, axes: set<int>, scratch: seq<nat>) returns (wide: Dims)
    requires dims.IsShape() && |scratch| == MAX_DIMS && dims.nb + |axes| <= MAX_DIMS
    ensures IsUnsqueezed(dims, axes, wide)
  {
    var ndim := dims.nb + |axes|;
    var built: seq<nat> := [];
    var i := 0;
    for j := 0 to ndim
      invariant |built| == j && Inserted(dims.d, axes, built, i)
    {
      InsertNext(dims.d, axes, built, i);
      if j in axes {
        built := built + [1];
      } else {
        built := built + [dims.d[i]];
        i := i + 1;
      }
    }
    wide := Dims(ndim, built + scratch[ndim..]);
    assert Shape(wide) == built;
  }

  /** The part of the new shape built from the first i entries. */
  ghost predicate Inserted(d: seq<nat>, axes: set<int>, built: seq<nat>, i: nat) {
    i <= |d| && i + Below(axes, |built|) == |built| && Keep(built, axes) == d[..i] && OnesAt(built, axes)
  }

  lemma InsertNext(d: seq<nat>, axes: set<int>, built: seq<nat>, i: nat)
    requires Inserted(d, axes, built, i) && |built| < |d|
    ensures |built| in axes ==> Inserted(d, axes, built + [1], i)
    ensures |built| !in axes ==> i < |d| && Inserted(d, axes, built + [d[i]], i + 1)
  {
    KeepAppend(built, 1, axes);
    KeepAppend(built, d[i], axes);
  }

  /**
   * Unsqueeze. Whatever the axes, it fails exactly for the batch axis, too many dimensions or a size that changed.
   * When the axes fit, the size changes only for a shape without dimensions, whose size is taken to be 0.
   */
  method Unsqueeze(dims: Dims, axes: seq<int>, scratch: seq<nat>) returns (r: Option<Dims>)
    requires dims.IsShape() && |scratch| == MAX_DIMS
    ensures r.Some? ==> IsUnsqueezed(dims, Shifted(axes), r.value) && ShapeSize(r.value) == ShapeSize(dims)
    ensures r.None? && 0 !in axes && dims.nb + |Shifted(axes)| <= MAX_DIMS ==>
      exists wide :: IsUnsqueezed(dims, Shifted(axes), wide) && ShapeSize(wide) != ShapeSize(dims)
    ensures r.Some? ==> 0 !in axes
    ensures AxesFit(axes, dims.nb + |Shifted(axes)|) ==>
      (r.Some? <==> 0 !in axes && dims.nb + |Shifted(axes)| <= MAX_DIMS && (dims.nb > 0 || axes == []))
    ensures AxesFit(axes, dims.nb + |Shifted(axes)|) && r.Some? ==> Keep(Shape(r.value), Shifted(axes)) == Shape(dims)
  {
    var shifted := ShiftAxes(axes);
    if shifted.None? || dims.nb + |shifted.value| > MAX_DIMS {
      return None;
    }
    var wide := InsertOnes(dims, shifted.value, scratch);
    if AxesFit(axes, dims.nb + |Shifted(axes)|) {
      FittingAxes(axes, wide.nb);
      KeepVolume(Shape(wide), shifted.value);
      AxesEmpty(axes);
    }
    if ShapeSize(wide) != ShapeSize(dims) {
      return None;
    }
    r := Some(wide);
  }

  lemma AxesEmpty(axes: seq<int>)
    ensures Shifted(axes) == {} <==> axes == []
  {
    if axes != [] {
      assert axes[0] in axes;
      assert axes[0] - 1 in Shifted(axes);
    }
  }

  /** The narrowed shape: the dimensions outside the axes in order, of which the first nb - |axes| count. */
  function SqueezedDims(dims: Dims, axes: set<int>, scratch: seq<nat>): (r: Dims)
    requires dims.IsShape() && |scratch| == MAX_DIMS
    ensures r.Valid() && r.nb == dims.nb - |axes|
  {
    KeepLength(Shape(dims), axes);
    var kept := Keep(Shape(dims), axes);
    Dims(dims.nb - |axes|, kept + scratch[|kept|..])
  }

  lemma SqueezeKeepsSize(dims: Dims, axes: seq<int>, scratch: seq<nat>)
    requires dims.IsShape() && |scratch| == MAX_DIMS && AxesFit(axes, dims.nb) && 0 !in axes
    requires OnesAt(Shape(dims), Shifted(axes))
    ensures var narrow := SqueezedDims(dims, Shifted(axes), scratch);
      && narrow.IsShape() && Shape(narrow) == Keep(Shape(dims), Shifted(axes))
      && (ShapeSize(narrow) == ShapeSize(dims) <==> dims.nb > |Shifted(axes)| || dims.nb == 0)
  {
    var drop := Shifted(axes);
    FittingAxes(axes, dims.nb);
    KeepLength(Shape(dims), drop);
    KeepVolume(Shape(dims), drop);
    assert Shape(SqueezedDims(dims, drop, scratch)) == Keep(Shape(dims), drop);
  }

  /**
   * Squeeze. Whatever the axes, it fails exactly for the batch axis, a dimension other than 1 at an axis or a size that
   * changed. When the axes fit, the size changes only when no dimension is left of some.
   */
  method Squeeze(dims: Dims, axes: seq<int>, scratch: seq<nat>) returns (r: Option<Dims>)
    requires dims.IsShape() && |scratch| == MAX_DIMS
    ensures r.Some? <==>
      && 0 !in axes && OnesAt(Shape(dims), Shifted(axes))
      && ShapeSize(SqueezedDims(dims, Shifted(axes), scratch)) == ShapeSize(dims)
    ensures r.Some? ==> r.value == SqueezedDims(dims, Shifted(axes), scratch)
    ensures AxesFit(axes, dims.nb) ==>
      (r.Some? <==> 0 !in axes && OnesAt(Shape(dims), Shifted(axes)) && (dims.nb > |Shifted(axes)| || dims.nb == 0))
    ensures AxesFit(axes, dims.nb) && r.Some? ==>
      r.value.IsShape() && Shape(r.value) == Keep(Shape(dims), Shifted(axes))
  {
    var shifted := ShiftAxes(axes);
    if shifted.None? {
      return None;
    }
    var drop, shape := shifted.value, dims.d[..dims.nb];
    var kept: seq<nat> := [];
    for i := 0 to dims.nb
      invariant kept == Keep(shape[..i], drop) && OnesAt(shape[..i], drop)
    {
      assert shape[..i + 1][..i] == shape[..i];
      if i !in drop {
        kept := kept + [shape[i]];
      } else if shape[i] != 1 {
        return None;
      }
    }
    assert shape[..dims.nb] == shape;
    KeepLength(shape, drop);
    var narrow := Dims(dims.nb - |drop|, kept + scratch[|kept|..]);
    if AxesFit(axes, dims.nb) {
      SqueezeKeepsSize(dims, axes, scratch);
    }
    if ShapeSize(narrow) != ShapeSize(dims) {
      return None;
    }
    r := Some(narrow);
  }

  /** Whatever the axes, Squeeze gives back every shape that Unsqueeze widened. */
  method SqueezeUndoesUnsqueeze(
    dims: Dims, axes: seq<int>, scratch: seq<nat>)
    returns (wide: Option<Dims>, back: Option<Dims>)
    requires dims.IsShape() && |scratch| == MAX_DIMS
    ensures wide.Some? ==> back.Some? && back.value.IsShape() && Shape(back.value) == Shape(dims)
    ensures AxesFit(axes, dims.nb + |Shifted(axes)|) ==>
      (wide.Some? <==> 0 !in axes && dims.nb + |Shifted(axes)| <= MAX_DIMS && (dims.nb > 0 || axes == []))
  {
    back := None;
    wide := Unsqueeze(dims, axes, scratch);
    if wide.Some? {
      NarrowedBack(dims, Shifted(axes), wide.value, scratch);
      back := Squeeze(wide.value, axes, scratch);
    }
  }

  lemma NarrowedBack(dims: Dims, axes: set<int>, wide: Dims, scratch: seq<nat>)
    requires dims.IsShape() && |scratch| == MAX_DIMS && IsUnsqueezed(dims, axes, wide)
    ensures var narrow := SqueezedDims(wide, axes, scratch);
      narrow.IsShape() && Shape(narrow) == Shape(dims) && ShapeSize(narrow) == ShapeSize(dims)
  {
    BelowAtMostSize(axes, wide.nb);
  }

  /** Whatever the axes, Unsqueeze gives back every shape that Squeeze narrowed and left a shape. */
  method UnsqueezeUndoesSqueeze(dims: Dims, axes: seq<int>, scratch: seq<nat>)
    returns (narrow: Option<Dims>, back: Option<Dims>)
    requires dims.IsShape() && |scratch| == MAX_DIMS
    ensures narrow.Some? && narrow.value.IsShape() ==>
      back.Some? && back.value.IsShape() && Shape(back.value) == Shape(dims)
    ensures AxesFit(axes, dims.nb) && narrow.Some? ==> narrow.value.IsShape()
    ensures AxesFit(axes, dims.nb) ==>
      (narrow.Some? <==>
        0 !in axes && OnesAt(Shape(dims), Shifted(axes)) && (dims.nb > |Shifted(axes)| || dims.nb == 0))
  {
    back := None;
    narrow := Squeeze(dims, axes, scratch);
    if narrow.Some? && narrow.value.nb >= 0 {
      forall wide | IsUnsqueezed(narrow.value, Shifted(axes), wide)
        ensures Shape(wide) == Shape(dims) && ShapeSize(wide) == ShapeSize(dims)
      {
        WidenedBack(dims, Shifted(axes), scratch, wide);
      }
      back := Unsqueeze(narrow.value, axes, scratch);
    }
  }

  lemma WidenedBack(dims: Dims, axes: set<int>, scratch: seq<nat>, wide: Dims)
    requires dims.IsShape() && |scratch| == MAX_DIMS && OnesAt(Shape(dims), axes)
    requires SqueezedDims(dims, axes, scratch).IsShape()
    requires IsUnsqueezed(SqueezedDims(dims, axes, scratch), axes, wide)
    ensures Shape(wide) == Shape(dims) && ShapeSize(wide) == ShapeSize(dims)
  {
    var kept := Keep(Shape(dims), axes);
    KeepLength(Shape(dims), axes);
    assert SqueezedDims(dims, axes, scratch).d[..|kept|] == kept;
    KeepDetermines(Shape(wide), Shape(dims), axes);
  }

  // ---- Weights ----

  /** ShapedWeights::count: no elements for no dimensions, else the product. */
  method Count(shape: seq<nat>) returns (c: nat)
    ensures c == if shape == [] then 0 else Volume(shape)
  {
    if shape == [] {
      return 0;
    }
    c := 1;
    for i := 0 to |shape|
      invariant c == Volume(shape[..i])
    {
      assert shape[..i + 1] == shape[..i] + [shape[i]];
      VolumeAppend(shape[..i], shape[i]);
      c := c * shape[i];
    }
    assert shape[..|shape|] == shape;
  }

  const SWAP: seq<nat> := [1, 0]

  /** Cell (j, i) of a row-major matrix lies inside its buffer. */
  lemma CellInBounds(rows: nat, cols: nat, j: nat, i: nat)
    requires j < rows && i < cols
    ensures j * cols + i < rows * cols
  {
    MulMonotone(j + 1, rows, cols);
  }

  /** The first j entries of column i. */
  function Column<T>(src: seq<T>, rows: nat, cols: nat, i: nat, j: nat): (r: seq<T>)
    requires |src| == rows * cols && i < cols && j <= rows
    ensures |r| == j
  {
    if j == 0 then [] else
    CellInBounds(rows, cols, j - 1, i);
    Column(src, rows, cols, i, j - 1) + [src[(j - 1) * cols + i]]
  }

  /** The first i columns, one after the other. */
  function Columns<T>(src: seq<T>, rows: nat, cols: nat, i: nat): (r: seq<T>)
    requires |src| == rows * cols && i <= cols
    ensures |r| == i * rows
  {
    if i == 0 then [] else
    NextMultiple(i - 1, i, rows);
    var r := Columns(src, rows, cols, i - 1) + Column(src, rows, cols, i - 1, rows);
    assert |r| == (i - 1) * rows + rows == i * rows;
    r
  }

  lemma {:induction false} ColumnAt<T>(src: seq<T>, rows: nat, cols: nat, i: nat, n: nat, j: nat)
    requires |src| == rows * cols && i < cols && j < n <= rows
    ensures j * cols + i < |src| && Column(src, rows, cols, i, n)[j] == src[j * cols + i]
  {
    CellInBounds(rows, cols, j, i);
    if j < n - 1 {
      ColumnAt(src, rows, cols, i, n - 1, j);
    }
  }

  lemma {:induction false} ColumnsAt<T>(src: seq<T>, rows: nat, cols: nat, n: nat, i: nat, j: nat)
    requires |src| == rows * cols && i < n <= cols && j < rows
    ensures i * rows + j < n * rows && j * cols + i < |src|
    ensures Columns(src, rows, cols, n)[i * rows + j] == src[j * cols + i]
  {
    CellInBounds(n, rows, i, j);
    CellInBounds(rows, cols, j, i);
    if i < n - 1 {
      ColumnsAt(src, rows, cols, n - 1, i, j);
    } else {
      ColumnAt(src, rows, cols, i, rows, j);
    }
  }

  lemma MatrixFlat(rows: nat, cols: nat, j: nat, i: nat)
    requires j < rows && i < cols
    ensures InShape([rows, cols], [j, i]) && Flat([rows, cols], [j, i]) == j * cols + i
  {
    FlatCons(cols, [], i, []);
    FlatCons(rows, [cols], j, [i]);
    assert [cols] + [] == [cols] && [i] + [] == [i];
    assert [rows] + [cols] == [rows, cols] && [j] + [i] == [j, i];
  }

  lemma MatrixVolume(rows: nat, cols: nat)
    ensures Volume([rows, cols]) == rows * cols
  {
    VolumeAppend([rows], cols);
    VolumeAppend([], rows);
    assert [rows] + [cols] == [rows, cols] && [] + [rows] == [rows];
  }

  lemma SwapIsPermutation()
    ensures IsPermutation(SWAP, 2)
  {
    assert SWAP[0] == 1 && SWAP[1] == 0;
  }

  lemma TransposedCell<T>(src: seq<T>, rows: nat, cols: nat, i: nat, j: nat)
    requires Tensor([rows, cols], src).Valid() && |src| == rows * cols && i < cols && j < rows
    requires IsPermutation(SWAP, 2)
    ensures InShape([cols, rows], [i, j]) && Select([rows, cols], SWAP) == [cols, rows]
    ensures Flat([cols, rows], [i, j]) < |Columns(src, rows, cols, cols)|
    ensures Columns(src, rows, cols, cols)[Flat([cols, rows], [i, j])] ==
      At(Transposed(Tensor([rows, cols], src), SWAP), [i, j])
  {
    MatrixFlat(rows, cols, j, i);
    MatrixFlat(cols, rows, i, j);
    ColumnsAt(src, rows, cols, cols, i, j);
    TransposedAt(Tensor([rows, cols], src), SWAP, [j, i]);
    assert Select([j, i], SWAP) == [i, j];
  }

  /** The columns laid out one after the other are the transposed matrix. */
  lemma ColumnsAreTranspose<T>(src: seq<T>, rows: nat, cols: nat)
    requires |src| == rows * cols
    ensures Tensor([rows, cols], src).Valid() && IsPermutation(SWAP, 2)
    ensures Tensor([cols, rows], Columns(src, rows, cols, cols)) == Transposed(Tensor([rows, cols], src), SWAP)
  {
    SwapIsPermutation();
    MatrixVolume(rows, cols);
    MatrixVolume(cols, rows);
    var t := Tensor([rows, cols], src);
    var a, b := Tensor([cols, rows], Columns(src, rows, cols, cols)), Transposed(t, SWAP);
    assert b.shape == [cols, rows];
    forall y | InShape(a.shape, y) ensures At(a, y) == At(b, y) {
      assert y == [y[0], y[1]];
      TransposedCell(src, rows, cols, y[0], y[1]);
    }
    SameElements(a, b);
  }

  /**
   * transposeWeights: writes the transposed matrix to the result, or refuses anything but a float matrix. The
   * permutation is a fixed array, of which the source asserts the first two entries at any rank.
   */
  method TransposeWeights<T>(dims: Dims, isFloat: bool, src: seq<T>, dst: array<T>, perm: seq<nat>)
    returns (ok: bool, shaped: seq<nat>)
    requires dims.IsShape() && |perm| == MAX_DIMS && (forall e :: 0 <= e < MAX_DIMS ==> perm[e] < MAX_DIMS)
    requires perm[0] == 1 && perm[1] == 0
    requires dims.nb == 2 && isFloat ==> |src| == Volume(Shape(dims)) == dst.Length
    modifies dst
    ensures ok <==> dims.nb == 2 && isFloat
    ensures |shaped| == dims.nb && forall e :: 0 <= e < dims.nb ==> shaped[e] == dims.d[perm[e]]
    ensures !ok ==> dst[..] == old(dst[..])
    ensures ok ==> IsPermutation(SWAP, 2) && Tensor(shaped, dst[..]) == Transposed(Tensor(Shape(dims), src), SWAP)
  {
    shaped := [];
    for d := 0 to dims.nb
      invariant |shaped| == d && forall e :: 0 <= e < d ==> shaped[e] == dims.d[perm[e]]
    {
      shaped := shaped + [dims.d[perm[d]]];
    }
    ok := dims.nb == 2 && isFloat;
    if ok {
      var rows, cols := dims.d[0], dims.d[1];
      assert Shape(dims) == [rows, cols];
      MatrixVolume(rows, cols);
      ghost var log := FillColumns(rows, cols, src, dst);
      ColumnsAreTranspose(src, rows, cols);
      assert shaped == [cols, rows];
    }
  }

  /** The nested loops: every cell of the destination is written once, as the log of written positions shows. */
  method FillColumns<T>(rows: nat, cols: nat, src: seq<T>, dst: array<T>) returns (ghost log: seq<nat>)
    requires |src| == rows * cols == dst.Length
    modifies dst
    ensures dst[..] == Columns(src, rows, cols, cols)
    ensures log == UpTo(dst.Length)
  {
    log := [];
    for i := 0 to cols
      invariant i * rows <= dst.Length
      invariant dst[..i * rows] == Columns(src, rows, cols, i) && log == UpTo(i * rows)
    {
      NextMultiple(i, cols, rows);
      NextRow(i, rows);
      log := FillColumn(rows, cols, src, dst, i, i * rows, log);
    }
    assert dst[..cols * rows] == dst[..];
  }

  lemma NextRow(i: nat, rows: nat)
    ensures (i + 1) * rows == i * rows + rows
  {
  }

  /** The inner loop, from cell base on; each write is added to the log. */
  method FillColumn<T>(rows: nat, cols: nat, src: seq<T>, dst: array<T>, i: nat, base: nat, ghost before: seq<nat>)
    returns (ghost log: seq<nat>)
    requires |src| == rows * cols && i < cols && base + rows <= dst.Length && before == UpTo(base)
    modifies dst
    ensures dst[..base + rows] == old(dst[..base]) + Column(src, rows, cols, i, rows)
    ensures log == UpTo(base + rows)
  {
    log := before;
    for j := 0 to rows
      invariant dst[..base + j] == old(dst[..base]) + Column(src, rows, cols, i, j) && log == UpTo(base + j)
    {
      CellInBounds(rows, cols, j, i);
      dst[base + j] := src[j * cols + i];
      log := log + [base + j];
      assert dst[..base + (j + 1)] == dst[..base + j] + [src[j * cols + i]];
      assert log == UpTo(base + (j + 1));
    }
  }

  /** Transposing a matrix twice gives it back. */
  lemma TransposeTwice<T>(src: seq<T>, rows: nat, cols: nat)
    requires |src| == rows * cols
    ensures |Columns(src, rows, cols, cols)| == cols * rows
    ensures Columns(Columns(src, rows, cols, cols), cols, rows, rows) == src
  {
    var t := Tensor([rows, cols], src);
    ColumnsAreTranspose(src, rows, cols);
    ColumnsAreTranspose(Columns(src, rows, cols, cols), cols, rows);
    assert forall i :: 0 <= i < 2 ==> SWAP[SWAP[i]] == i;
    TransposeUndo(t, SWAP, SWAP);
  }
}
