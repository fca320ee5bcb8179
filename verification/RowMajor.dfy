/** Row-major tensors of any rank: a shape and a flat buffer, with reshape and transpose on them. */
module RowMajor {
  import opened Basics

  /** Number of elements of a shape. */
  function Volume(shape: seq<nat>): nat {
    if shape == [] then 1 else shape[0] * Volume(shape[1..])
  }

  ghost predicate InShape(shape: seq<nat>, x: seq<nat>) {
    |x| == |shape| && forall d :: 0 <= d < |shape| ==> x[d] < shape[d]
  }

  /** Position of multi-index x in the flat buffer. */
  ghost function Flat(shape: seq<nat>, x: seq<nat>): (k: nat)
    requires InShape(shape, x)
    ensures k < Volume(shape)
  {
    if shape == [] then 0
    else
      assert InShape(shape[1..], x[1..]);
      var rest := Flat(shape[1..], x[1..]);
      FlatBound(shape[0], x[0], Volume(shape[1..]), rest);
      x[0] * Volume(shape[1..]) + rest
  }

  lemma MulMonotone(a: nat, b: nat, v: nat)
    requires a <= b
    ensures a * v <= b * v
  {
  }

  lemma FlatBound(dim: nat, i: nat, v: nat, rest: nat)
    requires i < dim && rest < v
    ensures i * v + rest < dim * v
  {
    MulMonotone(i + 1, dim, v);
  }

  /** The multi-index stored at position k. */
  ghost function Unflat(shape: seq<nat>, k: nat): (x: seq<nat>)
    requires k < Volume(shape)
    ensures InShape(shape, x)
  {
    if shape == [] then []
    else
      var v := Volume(shape[1..]);
      DivideIndex(shape[0], v, k);
      [k / v] + Unflat(shape[1..], k % v)
  }

  lemma DivideIndex(dim: nat, v: nat, k: nat)
    requires k < dim * v
    ensures v > 0 && k / v < dim && k % v < v && k / v * v + k % v == k
  {
    if dim <= k / v {
      MulMonotone(dim, k / v, v);
    }
  }

  lemma {:induction false} FlatUnflat(shape: seq<nat>, k: nat)
    requires k < Volume(shape)
    ensures Flat(shape, Unflat(shape, k)) == k
  {
    if shape != [] {
      var v := Volume(shape[1..]);
      DivideIndex(shape[0], v, k);
      FlatUnflat(shape[1..], k % v);
      assert Unflat(shape, k)[1..] == Unflat(shape[1..], k % v);
    }
  }

  lemma FlatCons(d: nat, s: seq<nat>, i: nat, x: seq<nat>)
    requires i < d && InShape(s, x)
    ensures InShape([d] + s, [i] + x)
    ensures Flat([d] + s, [i] + x) == i * Volume(s) + Flat(s, x)
    ensures Volume([d] + s) == d * Volume(s)
  {
    assert ([d] + s)[1..] == s && ([i] + x)[1..] == x;
  }

  lemma {:induction false} FlatIsInjective(shape: seq<nat>, x: seq<nat>, y: seq<nat>)
    requires InShape(shape, x) && InShape(shape, y) && Flat(shape, x) == Flat(shape, y)
    ensures x == y
  {
    if shape != [] {
      var v := Volume(shape[1..]);
      SplitSum(v, x[0], Flat(shape[1..], x[1..]), y[0], Flat(shape[1..], y[1..]));
      FlatIsInjective(shape[1..], x[1..], y[1..]);
      assert x == [x[0]] + x[1..] && y == [y[0]] + y[1..];
    } else {
      assert x == [] && y == [];
    }
  }

  lemma NextMultiple(a: nat, b: nat, v: nat)
    ensures a < b ==> (a + 1) * v <= b * v
  {
    if a < b {
      MulMonotone(a + 1, b, v);
    }
  }

  lemma SplitSum(v: nat, a: nat, r: nat, b: nat, s: nat)
    requires r < v && s < v && a * v + r == b * v + s
    ensures a == b && r == s
  {
    NextMultiple(a, b, v);
    NextMultiple(b, a, v);
  }

  lemma {:induction false} VolumeConcat(s: seq<nat>, t: seq<nat>)
    ensures Volume(s + t) == Volume(s) * Volume(t)
  {
    if s == [] {
      assert s + t == t;
    } else {
      VolumeConcat(s[1..], t);
      assert (s + t)[1..] == s[1..] + t;
      assert s[0] * (Volume(s[1..]) * Volume(t)) == (s[0] * Volume(s[1..])) * Volume(t);
    }
  }

  lemma Regroup(i: nat, a: nat, b: nat, f: nat)
    ensures i * (a * b) + f * b == (i * a + f) * b
  {
  }

  lemma {:induction false} FlatConcat(s: seq<nat>, t: seq<nat>, x: seq<nat>, y: seq<nat>)
    requires InShape(s, x) && InShape(t, y)
    ensures InShape(s + t, x + y)
    ensures Flat(s + t, x + y) == Flat(s, x) * Volume(t) + Flat(t, y)
  {
    if s == [] {
      assert s + t == t && x + y == y;
    } else {
      var s', x' := s[1..], x[1..];
      FlatConcat(s', t, x', y);
      VolumeConcat(s', t);
      assert (s + t)[1..] == s' + t && (x + y)[1..] == x' + y;
      calc {
        Flat(s + t, x + y);
        x[0] * Volume(s' + t) + Flat(s' + t, x' + y);
        x[0] * (Volume(s') * Volume(t)) + Flat(s', x') * Volume(t) + Flat(t, y);
        { Regroup(x[0], Volume(s'), Volume(t), Flat(s', x')); }
        (x[0] * Volume(s') + Flat(s', x')) * Volume(t) + Flat(t, y);
        Flat(s, x) * Volume(t) + Flat(t, y);
      }
    }
  }

  // ---- Tensors ----

  datatype Tensor<T> = Tensor(shape: seq<nat>, buf: seq<T>) {
    ghost predicate Valid() { |buf| == Volume(shape) }
  }

  ghost function At<T>(t: Tensor<T>, x: seq<nat>): T
    requires t.Valid() && InShape(t.shape, x)
  {
    t.buf[Flat(t.shape, x)]
  }

  /** A reshape relabels the buffer and moves nothing. */
  function Reshape<T>(t: Tensor<T>, shape: seq<nat>): Tensor<T> {
    Tensor(shape, t.buf)
  }

  lemma SameElements<T>(s: Tensor<T>, t: Tensor<T>)
    requires s.Valid() && t.Valid() && s.shape == t.shape
    requires forall x :: InShape(s.shape, x) ==> At(s, x) == At(t, x)
    ensures s == t
  {
    forall k | 0 <= k < |s.buf| ensures s.buf[k] == t.buf[k] {
      var x := Unflat(s.shape, k);
      FlatUnflat(s.shape, k);
      assert At(s, x) == At(t, x);
    }
  }

  // ---- Permutations ----

  ghost predicate IsPermutation(p: seq<nat>, n: nat) {
    && |p| == n
    && (forall i :: 0 <= i < n ==> p[i] < n)
    && (forall i, j :: 0 <= i < j < n ==> p[i] != p[j])
    && (forall d :: 0 <= d < n ==> d in p)
  }

  /** The entries of s that p names, in the order p names them. */
  function Select<T>(s: seq<T>, p: seq<nat>): (r: seq<T>)
    requires forall i :: 0 <= i < |p| ==> p[i] < |s|
    ensures |r| == |p| && forall i :: 0 <= i < |p| ==> r[i] == s[p[i]]
  {
    seq(|p|, i requires 0 <= i < |p| => s[p[i]])
  }

  ghost function Inverse(p: seq<nat>): (q: seq<nat>)
    requires IsPermutation(p, |p|)
    ensures IsPermutation(q, |p|)
    ensures forall i :: 0 <= i < |p| ==> q[p[i]] == i && p[q[i]] == i
  {
    var q := seq(|p|, d requires 0 <= d < |p| => IndexOf(p, d));
    assert forall i :: 0 <= i < |p| ==> q[p[i]] == i;
    forall d | 0 <= d < |p| ensures d in q { assert q[p[d]] == d; }
    q
  }

  /** Dimension i of the result is dimension p[i] of the argument, as a shuffle layer's transpose does it. */
  ghost function Transposed<T>(t: Tensor<T>, p: seq<nat>): (r: Tensor<T>)
    requires t.Valid() && IsPermutation(p, |t.shape|)
    ensures r.Valid() && r.shape == Select(t.shape, p)
  {
    var shape := Select(t.shape, p);
    var q := Inverse(p);
    Tensor(shape, seq(Volume(shape), k requires 0 <= k < Volume(shape) =>
      PulledInShape(t.shape, p, Unflat(shape, k));
      t.buf[Flat(t.shape, Select(Unflat(shape, k), q))]))
  }

  lemma PulledInShape(shape: seq<nat>, p: seq<nat>, y: seq<nat>)
    requires IsPermutation(p, |shape|) && InShape(Select(shape, p), y)
    ensures InShape(shape, Select(y, Inverse(p)))
  {
    var q := Inverse(p);
    forall d | 0 <= d < |shape| ensures Select(y, q)[d] < shape[d] {
      assert y[q[d]] < Select(shape, p)[q[d]];
    }
  }

  /** The law of transposition: the element at index x moves to index (x[p[0]], x[p[1]], ...). */
  lemma TransposedAt<T>(t: Tensor<T>, p: seq<nat>, x: seq<nat>)
    requires t.Valid() && IsPermutation(p, |t.shape|) && InShape(t.shape, x)
    ensures InShape(Select(t.shape, p), Select(x, p))
    ensures At(Transposed(t, p), Select(x, p)) == At(t, x)
  {
    var shape, y := Select(t.shape, p), Select(x, p);
    var k := Flat(shape, y);
    FlatUnflat(shape, k);
    FlatIsInjective(shape, Unflat(shape, k), y);
    assert Select(y, Inverse(p)) == x;
  }

  lemma ComposedPermutation(p: seq<nat>, q: seq<nat>, n: nat)
    requires IsPermutation(p, n) && IsPermutation(q, n)
    ensures IsPermutation(Select(p, q), n)
  {
    var r := Select(p, q);
    forall i, j | 0 <= i < j < n ensures r[i] != r[j] {
      assert q[i] < q[j] || q[j] < q[i];
    }
    forall d | 0 <= d < n ensures d in r {
      var j := IndexOf(p, d);
      var i := IndexOf(q, j);
      assert r[i] == d;
    }
  }

  /** Transposing twice is transposing once by the composed permutation. */
  lemma TransposeCompose<T>(t: Tensor<T>, p: seq<nat>, q: seq<nat>)
    requires t.Valid() && IsPermutation(p, |t.shape|) && IsPermutation(q, |t.shape|)
    ensures IsPermutation(Select(p, q), |t.shape|)
    ensures Transposed(Transposed(t, p), q) == Transposed(t, Select(p, q))
  {
    ComposedPermutation(p, q, |t.shape|);
    var a, b := Transposed(Transposed(t, p), q), Transposed(t, Select(p, q));
    assert a.shape == b.shape;
    forall y | InShape(a.shape, y) ensures At(a, y) == At(b, y) {
      var x := Select(y, Inverse(Select(p, q)));
      PulledInShape(t.shape, Select(p, q), y);
      assert Select(x, Select(p, q)) == y;
      assert Select(Select(x, p), q) == y;
      TransposedAt(t, p, x);
      TransposedAt(Transposed(t, p), q, Select(x, p));
      TransposedAt(t, Select(p, q), x);
    }
    SameElements(a, b);
  }

  lemma IdentityIsPermutation(n: nat)
    ensures IsPermutation(UpTo(n), n)
  {
    forall d | 0 <= d < n ensures d in UpTo(n) { assert UpTo(n)[d] == d; }
  }

  lemma TransposeIdentity<T>(t: Tensor<T>)
    requires t.Valid()
    ensures IsPermutation(UpTo(|t.shape|), |t.shape|)
    ensures Transposed(t, UpTo(|t.shape|)) == t
  {
    var p := UpTo(|t.shape|);
    IdentityIsPermutation(|t.shape|);
    assert Select(t.shape, p) == t.shape;
    forall x | InShape(t.shape, x) ensures At(Transposed(t, p), x) == At(t, x) {
      TransposedAt(t, p, x);
      assert Select(x, p) == x;
    }
    SameElements(Transposed(t, p), t);
  }

  /** Permutations that undo each other undo each other on the data. */
  lemma TransposeUndo<T>(t: Tensor<T>, p: seq<nat>, q: seq<nat>)
    requires t.Valid() && IsPermutation(p, |t.shape|) && IsPermutation(q, |t.shape|)
    requires forall i :: 0 <= i < |q| ==> p[q[i]] == i
    ensures Transposed(Transposed(t, p), q) == t
  {
    assert Select(p, q) == UpTo(|t.shape|);
    TransposeIdentity(t);
    TransposeCompose(t, p, q);
  }
}
