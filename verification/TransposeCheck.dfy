/**
 * is_transpose_required and transpose_tensor of 3rdparty/onnx-tensorrt/builtin_op_importers.cpp.
 * Despite its name and comment the check answers true when the transpose moves no data.
 */
module TransposeCheck {
  import opened Basics
  import opened RowMajor

  /** Dimensions other than 1 keep their relative order. */
  ghost predicate KeepsOrder(shape: seq<nat>, perm: seq<nat>)
    requires IsPermutation(perm, |shape|)
  {
    forall i, j :: 0 <= i < j < |perm| && shape[perm[i]] != 1 && shape[perm[j]] != 1 ==> perm[i] < perm[j]
  }

  method IsTransposeRequired(shape: seq<nat>, perm: seq<nat>) returns (r: bool)
    requires IsPermutation(perm, |shape|)
    ensures r <==> KeepsOrder(shape, perm)
  {
    var prev := 0;
    ghost var at := -1;
    for dst := 0 to |shape|
      invariant -1 <= at < dst && (at >= 0 ==> prev == perm[at] && shape[prev] != 1) && (at < 0 ==> prev == 0)
      invariant forall i :: 0 <= i < dst && shape[perm[i]] != 1 ==> perm[i] <= prev
      invariant forall i, j :: 0 <= i < j < dst && shape[perm[i]] != 1 && shape[perm[j]] != 1 ==> perm[i] < perm[j]
    {
      var src := perm[dst];
      if shape[src] != 1 {
        if src < prev {
          assert 0 <= at < dst && shape[perm[at]] != 1 && shape[perm[dst]] != 1 && !(perm[at] < perm[dst]);
          return false;
        }
        prev := src;
        at := dst;
      }
    }
    return true;
  }

  // ---- When the order is kept, no element moves ----

  /** The dimensions in the list whose size is not 1. */
  ghost function Significant(shape: seq<nat>, dims: seq<nat>): (r: seq<nat>)
    requires forall i :: 0 <= i < |dims| ==> dims[i] < |shape|
    ensures forall i :: 0 <= i < |r| ==> r[i] < |shape|
    ensures forall d :: d in r <==> d in dims && d < |shape| && shape[d] != 1
  {
    if dims == [] then []
    else if shape[dims[0]] != 1 then [dims[0]] + Significant(shape, dims[1..])
    else Significant(shape, dims[1..])
  }

  /** Volume and position when only the listed dimensions are laid out, in the order listed. */
  ghost function VolumeAlong(shape: seq<nat>, p: seq<nat>): nat
    requires forall i :: 0 <= i < |p| ==> p[i] < |shape|
  {
    Volume(Select(shape, p))
  }

  ghost function PositionAlong(shape: seq<nat>, x: seq<nat>, p: seq<nat>): nat
    requires InShape(shape, x) && forall i :: 0 <= i < |p| ==> p[i] < |shape|
  {
    Flat(Select(shape, p), Select(x, p))
  }

  lemma PositionOfFirst(shape: seq<nat>, x: seq<nat>, p: seq<nat>)
    requires InShape(shape, x) && p != [] && forall i :: 0 <= i < |p| ==> p[i] < |shape|
    ensures VolumeAlong(shape, p) == shape[p[0]] * VolumeAlong(shape, p[1..])
    ensures PositionAlong(shape, x, p) == x[p[0]] * VolumeAlong(shape, p[1..]) + PositionAlong(shape, x, p[1..])
  {
    assert Select(shape, p)[1..] == Select(shape, p[1..]);
    assert Select(x, p)[1..] == Select(x, p[1..]);
  }

  /** Dimensions of size 1 add nothing to the position of an element. */
  lemma {:induction false} OnesAreInvisible(shape: seq<nat>, x: seq<nat>, p: seq<nat>)
    requires InShape(shape, x) && forall i :: 0 <= i < |p| ==> p[i] < |shape|
    ensures VolumeAlong(shape, p) == VolumeAlong(shape, Significant(shape, p))
    ensures PositionAlong(shape, x, p) == PositionAlong(shape, x, Significant(shape, p))
  {
    if p != [] {
      OnesAreInvisible(shape, x, p[1..]);
      if shape[p[0]] != 1 {
        var sig := Significant(shape, p);
        assert sig[1..] == Significant(shape, p[1..]);
        SameFirst(shape, x, p, sig);
      } else {
        FirstIsOne(shape, x, p);
      }
    }
  }

  lemma SameFirst(shape: seq<nat>, x: seq<nat>, p: seq<nat>, q: seq<nat>)
    requires InShape(shape, x) && p != [] && q != [] && p[0] == q[0]
    requires (forall i :: 0 <= i < |p| ==> p[i] < |shape|) && forall i :: 0 <= i < |q| ==> q[i] < |shape|
    requires VolumeAlong(shape, p[1..]) == VolumeAlong(shape, q[1..])
    requires PositionAlong(shape, x, p[1..]) == PositionAlong(shape, x, q[1..])
    ensures VolumeAlong(shape, p) == VolumeAlong(shape, q) && PositionAlong(shape, x, p) == PositionAlong(shape, x, q)
  {
    PositionOfFirst(shape, x, p);
    PositionOfFirst(shape, x, q);
  }

  lemma FirstIsOne(shape: seq<nat>, x: seq<nat>, p: seq<nat>)
    requires InShape(shape, x) && p != [] && (forall i :: 0 <= i < |p| ==> p[i] < |shape|) && shape[p[0]] == 1
    ensures VolumeAlong(shape, p) == VolumeAlong(shape, p[1..])
    ensures PositionAlong(shape, x, p) == PositionAlong(shape, x, p[1..])
  {
    PositionOfFirst(shape, x, p);
  }

  ghost predicate Increasing(s: seq<nat>) {
    forall i, j :: 0 <= i < j < |s| ==> s[i] < s[j]
  }

  lemma TailMembers(s: seq<nat>, d: nat)
    requires Increasing(s) && s != []
    ensures d in s[1..] <==> d in s && d != s[0]
  {
    if d in s && d != s[0] {
      var k :| 0 <= k < |s| && s[k] == d;
      assert s[1..][k - 1] == d;
    }
  }

  lemma {:induction false} IncreasingIsDetermined(s: seq<nat>, t: seq<nat>)
    requires Increasing(s) && Increasing(t) && forall d :: d in s <==> d in t
    ensures s == t
  {
    assert s != [] ==> s[0] in s && s[0] in t;
    assert t != [] ==> t[0] in t && t[0] in s;
    if s != [] {
      assert s[0] == t[0];
      forall d ensures d in s[1..] <==> d in t[1..] {
        TailMembers(s, d);
        TailMembers(t, d);
      }
      IncreasingIsDetermined(s[1..], t[1..]);
      assert s == [s[0]] + s[1..] && t == [t[0]] + t[1..];
    }
  }

  /** The positions of the significant entries of a list keep the order of the list. */
  lemma {:induction false} SignificantIsIncreasing(shape: seq<nat>, dims: seq<nat>)
    requires forall i :: 0 <= i < |dims| ==> dims[i] < |shape|
    requires forall i, j :: 0 <= i < j < |dims| && shape[dims[i]] != 1 && shape[dims[j]] != 1 ==> dims[i] < dims[j]
    ensures Increasing(Significant(shape, dims))
  {
    if dims != [] {
      var rest := Significant(shape, dims[1..]);
      SignificantIsIncreasing(shape, dims[1..]);
      if shape[dims[0]] != 1 {
        forall j | 0 <= j < |rest| ensures dims[0] < rest[j] {
          assert rest[j] in dims[1..];
          var k :| 0 <= k < |dims[1..]| && dims[1..][k] == rest[j];
          assert dims[k + 1] == rest[j];
        }
      }
    }
  }

  lemma KeptOrderKeepsPositions(shape: seq<nat>, perm: seq<nat>, x: seq<nat>)
    requires IsPermutation(perm, |shape|) && KeepsOrder(shape, perm) && InShape(shape, x)
    ensures InShape(Select(shape, perm), Select(x, perm))
    ensures Flat(Select(shape, perm), Select(x, perm)) == Flat(shape, x)
    ensures Volume(Select(shape, perm)) == Volume(shape)
  {
    var id := UpTo(|shape|);
    IdentityIsPermutation(|shape|);
    assert Select(shape, id) == shape && Select(x, id) == x;
    OnesAreInvisible(shape, x, perm);
    OnesAreInvisible(shape, x, id);
    SignificantIsIncreasing(shape, perm);
    SignificantIsIncreasing(shape, id);
    IncreasingIsDetermined(Significant(shape, perm), Significant(shape, id));
  }

  // ---- When the order is not kept, some element moves ----

  /** The multi-index that is 1 in dimension d and 0 elsewhere. */
  ghost function Unit(n: nat, d: nat): (x: seq<nat>)
    ensures |x| == n
  {
    seq(n, i => if i == d then 1 else 0)
  }

  lemma {:induction false} FlatOfZero(shape: seq<nat>, x: seq<nat>)
    requires InShape(shape, x) && forall i :: 0 <= i < |x| ==> x[i] == 0
    ensures Flat(shape, x) == 0
  {
    if shape != [] {
      FlatOfZero(shape[1..], x[1..]);
    }
  }

  lemma {:induction false} FlatOfUnit(shape: seq<nat>, d: nat, x: seq<nat>)
    requires d < |shape| && InShape(shape, x) && x == Unit(|shape|, d)
    ensures Flat(shape, x) == Volume(shape[d + 1..])
  {
    if d == 0 {
      FlatOfZero(shape[1..], x[1..]);
    } else {
      assert x[1..] == Unit(|shape| - 1, d - 1);
      FlatOfUnit(shape[1..], d - 1, x[1..]);
      assert shape[1..][d..] == shape[d + 1..];
    }
  }

  lemma {:induction false} VolumePositive(shape: seq<nat>)
    requires forall i :: 0 <= i < |shape| ==> shape[i] >= 1
    ensures Volume(shape) >= 1
  {
    if shape != [] {
      VolumePositive(shape[1..]);
    }
  }

  /** The stride of an outer dimension exceeds that of an inner dimension of size 2 or more. */
  lemma OuterStrideIsLarger(shape: seq<nat>, i: nat, j: nat)
    requires i < j < |shape| && shape[j] >= 2 && forall d :: 0 <= d < |shape| ==> shape[d] >= 1
    ensures Volume(shape[i + 1..]) > Volume(shape[j + 1..])
  {
    var between, inner := shape[i + 1..j], shape[j + 1..];
    assert shape[i + 1..] == between + shape[j..];
    assert shape[j..][1..] == inner;
    VolumeConcat(between, shape[j..]);
    VolumePositive(between);
    VolumePositive(inner);
    MulMonotone(2, shape[j], Volume(inner));
    MulMonotone(1, Volume(between), Volume(shape[j..]));
  }

  /** The strides of a shape, outermost first. */
  ghost function Strides(shape: seq<nat>): (st: seq<nat>)
    ensures |st| == |shape|
  {
    seq(|shape|, d requires 0 <= d < |shape| => Volume(shape[d + 1..]))
  }

  lemma StridesFall(shape: seq<nat>, i: nat, j: nat)
    requires i < j < |shape| && shape[j] >= 2 && forall d :: 0 <= d < |shape| ==> shape[d] >= 1
    ensures Strides(shape)[i] > Strides(shape)[j]
  {
    OuterStrideIsLarger(shape, i, j);
  }

  lemma UnitLiesAtStride(shape: seq<nat>, d: nat)
    requires d < |shape| && shape[d] >= 2 && forall i :: 0 <= i < |shape| ==> shape[i] >= 1
    ensures InShape(shape, Unit(|shape|, d)) && Flat(shape, Unit(|shape|, d)) == Strides(shape)[d]
  {
    FlatOfUnit(shape, d, Unit(|shape|, d));
  }

  ghost predicate Moves(shape: seq<nat>, perm: seq<nat>, x: seq<nat>)
    requires IsPermutation(perm, |shape|)
  {
    InShape(shape, x) && PositionAlong(shape, x, perm) != Flat(shape, x)
  }

  /** The transpose takes the unit index of input dimension perm[i] to that of output dimension i. */
  lemma UnitGoesToUnit(n: nat, perm: seq<nat>, i: nat)
    requires IsPermutation(perm, n) && i < n
    ensures Select(Unit(n, perm[i]), perm) == Unit(n, i)
  {
  }

  /** A unit index moves exactly when its stride changes. */
  lemma StrideDecides(shape: seq<nat>, perm: seq<nat>, i: nat)
    requires IsPermutation(perm, |shape|) && i < |shape| && shape[perm[i]] >= 2
    requires forall d :: 0 <= d < |shape| ==> shape[d] >= 1
    ensures Strides(Select(shape, perm))[i] != Strides(shape)[perm[i]] ==> Moves(shape, perm, Unit(|shape|, perm[i]))
  {
    UnitGoesToUnit(|shape|, perm, i);
    UnitLiesAtStride(shape, perm[i]);
    UnitLiesAtStride(Select(shape, perm), i);
  }

  lemma CrossedOrders(a: seq<nat>, b: seq<nat>, i: nat, j: nat, p: nat, q: nat)
    requires i < |a| && j < |a| && p < |b| && q < |b| && a[i] > a[j] && b[q] > b[p]
    ensures a[i] != b[p] || a[j] != b[q]
  {
  }

  /** An inverted pair of significant dimensions displaces one of their two unit indices. */
  lemma InversionMovesAnElement(shape: seq<nat>, perm: seq<nat>, i: nat, j: nat)
    requires IsPermutation(perm, |shape|) && forall d :: 0 <= d < |shape| ==> shape[d] >= 1
    requires i < j < |perm| && shape[perm[i]] != 1 && shape[perm[j]] != 1 && perm[j] < perm[i]
    ensures exists x :: Moves(shape, perm, x)
  {
    StridesFall(Select(shape, perm), i, j);
    StridesFall(shape, perm[j], perm[i]);
    CrossedOrders(Strides(Select(shape, perm)), Strides(shape), i, j, perm[i], perm[j]);
    StrideDecides(shape, perm, i);
    StrideDecides(shape, perm, j);
  }

  // ---- Main results ----

  /** The transpose leaves every row-major buffer of this shape as it is. */
  ghost predicate MovesNothing(shape: seq<nat>, perm: seq<nat>)
    requires IsPermutation(perm, |shape|)
  {
    forall t: Tensor<int> :: t.Valid() && t.shape == shape ==> Transposed(t, perm).buf == t.buf
  }

  lemma {:induction false} VolumeOfEmpty(shape: seq<nat>)
    requires 0 in shape
    ensures Volume(shape) == 0
  {
    if shape[0] != 0 {
      VolumeOfEmpty(shape[1..]);
    }
  }

  /** A tensor without elements has an empty buffer, transposed or not. */
  lemma EmptyTensorKeepsBuffer<T>(t: Tensor<T>, perm: seq<nat>)
    requires t.Valid() && IsPermutation(perm, |t.shape|) && 0 in t.shape
    ensures Transposed(t, perm).buf == t.buf
  {
    var d :| 0 <= d < |t.shape| && t.shape[d] == 0;
    var i := IndexOf(perm, d);
    assert Select(t.shape, perm)[i] == 0;
    VolumeOfEmpty(t.shape);
    VolumeOfEmpty(Select(t.shape, perm));
  }

  lemma KeptOrderKeepsBuffer<T>(t: Tensor<T>, perm: seq<nat>)
    requires t.Valid() && IsPermutation(perm, |t.shape|) && KeepsOrder(t.shape, perm)
    ensures Transposed(t, perm).buf == t.buf
  {
    if 0 in t.shape {
      EmptyTensorKeepsBuffer(t, perm);
    } else {
      assert forall d :: 0 <= d < |t.shape| ==> t.shape[d] in t.shape;
      KeptOrderKeepsElements(t, perm);
    }
  }

  lemma KeptOrderKeepsElements<T>(t: Tensor<T>, perm: seq<nat>)
    requires t.Valid() && IsPermutation(perm, |t.shape|) && KeepsOrder(t.shape, perm)
    requires forall d :: 0 <= d < |t.shape| ==> t.shape[d] >= 1
    ensures Transposed(t, perm).buf == t.buf
  {
    var r := Transposed(t, perm);
    VolumePositive(t.shape);
    KeptOrderKeepsPositions(t.shape, perm, Unflat(t.shape, 0));
    forall k | 0 <= k < |t.buf| ensures r.buf[k] == t.buf[k] {
      var x := Unflat(t.shape, k);
      FlatUnflat(t.shape, k);
      KeptOrderKeepsPositions(t.shape, perm, x);
      TransposedAt(t, perm, x);
    }
  }

  /** The tensor whose elements number their own positions. */
  ghost function Numbered(shape: seq<nat>): (t: Tensor<int>)
    ensures t.Valid() && t.shape == shape && forall k :: 0 <= k < |t.buf| ==> t.buf[k] == k
  {
    Tensor(shape, seq(Volume(shape), k => k))
  }

  /** A displaced index changes the buffer that numbers its own positions. */
  lemma DisplacedIndexChangesBuffer(shape: seq<nat>, perm: seq<nat>, x: seq<nat>)
    requires IsPermutation(perm, |shape|) && Moves(shape, perm, x)
    ensures !MovesNothing(shape, perm)
  {
    var t := Numbered(shape);
    TransposedAt(t, perm, x);
    var r := Transposed(t, perm);
    assert At(r, Select(x, perm)) == At(t, x) == Flat(shape, x);
    assert r.buf != t.buf;
  }

  /** The check is exact: no buffer changes if and only if it answers true or the tensor has no elements at all. */
  lemma CheckIsExact(shape: seq<nat>, perm: seq<nat>)
    requires IsPermutation(perm, |shape|)
    ensures MovesNothing(shape, perm) <==> KeepsOrder(shape, perm) || 0 in shape
  {
    if KeepsOrder(shape, perm) || 0 in shape {
      forall t: Tensor<int> | t.Valid() && t.shape == shape ensures Transposed(t, perm).buf == t.buf {
        if 0 in shape {
          EmptyTensorKeepsBuffer(t, perm);
        } else {
          KeptOrderKeepsBuffer(t, perm);
        }
      }
    } else {
      assert forall d :: 0 <= d < |shape| ==> shape[d] in shape;
      var i, j :| 0 <= i < j < |perm| && shape[perm[i]] != 1 && shape[perm[j]] != 1 && !(perm[i] < perm[j]);
      InversionMovesAnElement(shape, perm, i, j);
      var x :| Moves(shape, perm, x);
      DisplacedIndexChangesBuffer(shape, perm, x);
    }
  }

  /** transpose_tensor sets the permutation only when the check answers false; its buffer is always transposed. */
  method TransposeTensor<T>(
    ghost t: Tensor<T>, shape: seq<nat>, perm: seq<nat>)
    returns (permuted: bool, ghost buf: seq<T>)
    requires t.Valid() && t.shape == shape && IsPermutation(perm, |shape|)
    ensures buf == if permuted then Transposed(t, perm).buf else t.buf
    ensures buf == Transposed(t, perm).buf
    ensures !permuted || 0 in shape <==> MovesNothing(shape, perm)
  {
    var check := IsTransposeRequired(shape, perm);
    CheckIsExact(shape, perm);
    permuted := !check;
    if permuted {
      buf := Transposed(t, perm).buf;
    } else {
      KeptOrderKeepsBuffer(t, perm);
      buf := t.buf;
    }
  }
}
