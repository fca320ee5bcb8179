/**
 * The DepthToSpace and SpaceToDepth importers of 3rdparty/onnx-tensorrt/builtin_op_importers.cpp,
 * for any number of spatial dimensions. Each configures a reshape, a transpose and a second reshape.
 */
module SpaceDepth {
  import opened Basics
  import opened RowMajor

  /** What an importer sets on its layers: reshape to `first`, transpose by `perm`, reshape to `second`. */
  datatype Shuffle = Shuffle(first: seq<nat>, perm: seq<nat>, second: seq<nat>)

  ghost predicate Fits(plan: Shuffle, shape: seq<nat>) {
    && Volume(plan.first) == Volume(shape)
    && IsPermutation(plan.perm, |plan.first|)
    && Volume(plan.second) == Volume(Select(plan.first, plan.perm))
  }

  ghost function Apply<T>(plan: Shuffle, t: Tensor<T>): (r: Tensor<T>)
    requires t.Valid() && Fits(plan, t.shape)
    ensures r.Valid() && r.shape == plan.second
  {
    Reshape(Transposed(Reshape(t, plan.first), plan.perm), plan.second)
  }

  function Pow(b: nat, k: nat): nat {
    if k == 0 then 1 else b * Pow(b, k - 1)
  }

  // ---- The two permutations ----

  /** Entry i of the permutation of DepthToSpace: channel, then each spatial dimension followed by its block. */
  function InterleaveEntry(n: nat, i: nat): (d: nat)
    requires i < 2 * n + 1
    ensures d < 2 * n + 1
  {
    if i == 0 then n else if i % 2 == 1 then n + 1 + i / 2 else i / 2 - 1
  }

  /** Entry i of the permutation of SpaceToDepth: all blocks, then the channel, then the spatial dimensions. */
  function GatherEntry(n: nat, i: nat): (d: nat)
    requires i < 2 * n + 1
    ensures d < 2 * n + 1
  {
    if i < n then 2 + 2 * i else if i == n then 0 else 1 + 2 * (i - n - 1)
  }

  function InterleavePerm(n: nat): (p: seq<nat>)
    ensures |p| == 2 * n + 1 && forall i :: 0 <= i < 2 * n + 1 ==> p[i] == InterleaveEntry(n, i)
  {
    seq(2 * n + 1, i requires 0 <= i < 2 * n + 1 => InterleaveEntry(n, i))
  }

  function GatherPerm(n: nat): (q: seq<nat>)
    ensures |q| == 2 * n + 1 && forall i :: 0 <= i < 2 * n + 1 ==> q[i] == GatherEntry(n, i)
  {
    seq(2 * n + 1, i requires 0 <= i < 2 * n + 1 => GatherEntry(n, i))
  }

  lemma EntriesAreInverse(n: nat, i: nat)
    requires i < 2 * n + 1
    ensures GatherEntry(n, InterleaveEntry(n, i)) == i && InterleaveEntry(n, GatherEntry(n, i)) == i
  {
  }

  /** The two importers use inverse permutations. */
  lemma PermsAreInverse(n: nat)
    ensures IsPermutation(InterleavePerm(n), 2 * n + 1) && IsPermutation(GatherPerm(n), 2 * n + 1)
    ensures forall i :: 0 <= i < 2 * n + 1 ==> InterleavePerm(n)[GatherPerm(n)[i]] == i
    ensures forall i :: 0 <= i < 2 * n + 1 ==> GatherPerm(n)[InterleavePerm(n)[i]] == i
  {
    var p, q := InterleavePerm(n), GatherPerm(n);
    forall i | 0 <= i < 2 * n + 1 ensures p[i] < 2 * n + 1 && q[i] < 2 * n + 1 && p[q[i]] == i && q[p[i]] == i {
      EntriesAreInverse(n, i);
    }
    forall d | 0 <= d < 2 * n + 1 ensures d in p && d in q {
      assert p[q[d]] == d && q[p[d]] == d;
    }
  }

  // ---- Interleaved shapes and indices ----

  /** h[0], b[0], h[1], b[1], ... */
  function Pairs(h: seq<nat>, b: seq<nat>): (r: seq<nat>)
    requires |h| == |b|
    ensures |r| == 2 * |h|
  {
    if h == [] then [] else [h[0], b[0]] + Pairs(h[1..], b[1..])
  }

  lemma {:induction false} PairsAt(h: seq<nat>, b: seq<nat>, i: nat)
    requires |h| == |b| && i < |h|
    ensures Pairs(h, b)[2 * i] == h[i] && Pairs(h, b)[2 * i + 1] == b[i]
  {
    if i > 0 {
      PairsAt(h[1..], b[1..], i - 1);
    }
  }

  function Repeat(b: nat, n: nat): (r: seq<nat>)
    ensures |r| == n && forall i :: 0 <= i < n ==> r[i] == b
  {
    seq(n, _ => b)
  }

  function Scaled(h: seq<nat>, b: nat): (r: seq<nat>)
    ensures |r| == |h| && forall i :: 0 <= i < |h| ==> r[i] == h[i] * b
  {
    seq(|h|, i requires 0 <= i < |h| => h[i] * b)
  }

  /** h[i] * b + s[i] for each i. */
  ghost function Offset(h: seq<nat>, b: nat, s: seq<nat>): (r: seq<nat>)
    requires |h| == |s|
    ensures |r| == |h| && forall i :: 0 <= i < |h| ==> r[i] == h[i] * b + s[i]
  {
    seq(|h|, i requires 0 <= i < |h| => h[i] * b + s[i])
  }

  ghost predicate AlternateIn(ps: seq<nat>, h: seq<nat>, b: seq<nat>) {
    && |h| == |b| && |ps| == 2 * |h|
    && forall i {:trigger h[i]} {:trigger b[i]} :: 0 <= i < |h| ==> ps[2 * i] == h[i] && ps[2 * i + 1] == b[i]
  }

  lemma PairsAlternate(h: seq<nat>, b: seq<nat>)
    requires |h| == |b|
    ensures AlternateIn(Pairs(h, b), h, b)
  {
    forall i | 0 <= i < |h| ensures Pairs(h, b)[2 * i] == h[i] && Pairs(h, b)[2 * i + 1] == b[i] {
      PairsAt(h, b, i);
    }
  }

  lemma InterleaveAt(bs: seq<nat>, c: nat, hs: seq<nat>, ps: seq<nat>, j: nat)
    requires AlternateIn(ps, hs, bs) && j < 2 * |hs| + 1
    ensures (bs + [c] + hs)[InterleaveEntry(|hs|, j)] == ([c] + ps)[j]
  {
    if j > 0 {
      var i := (j - 1) / 2;
      assert hs[i] == ps[2 * i] && bs[i] == ps[2 * i + 1];
      assert j == 2 * i + 1 || j == 2 * i + 2;
    }
  }

  lemma GatherAt(bs: seq<nat>, c: nat, hs: seq<nat>, ps: seq<nat>, j: nat)
    requires AlternateIn(ps, hs, bs) && j < 2 * |hs| + 1
    ensures ([c] + ps)[GatherEntry(|hs|, j)] == (bs + [c] + hs)[j]
  {
    var n := |hs|;
    if j < n {
      assert bs[j] == ps[2 * j + 1];
    } else if j > n {
      var i := j - n - 1;
      assert hs[i] == ps[2 * i];
    }
  }

  lemma InterleaveSelect(bs: seq<nat>, c: nat, hs: seq<nat>)
    requires |bs| == |hs|
    ensures Select(bs + [c] + hs, InterleavePerm(|hs|)) == [c] + Pairs(hs, bs)
  {
    PairsAlternate(hs, bs);
    forall j | 0 <= j < 2 * |hs| + 1
      ensures Select(bs + [c] + hs, InterleavePerm(|hs|))[j] == ([c] + Pairs(hs, bs))[j]
    {
      InterleaveAt(bs, c, hs, Pairs(hs, bs), j);
    }
  }

  lemma GatherSelect(bs: seq<nat>, c: nat, hs: seq<nat>)
    requires |bs| == |hs|
    ensures Select([c] + Pairs(hs, bs), GatherPerm(|hs|)) == bs + [c] + hs
  {
    PairsAlternate(hs, bs);
    forall j | 0 <= j < 2 * |hs| + 1
      ensures Select([c] + Pairs(hs, bs), GatherPerm(|hs|))[j] == (bs + [c] + hs)[j]
    {
      GatherAt(bs, c, hs, Pairs(hs, bs), j);
    }
  }

  lemma {:induction false} RepeatVolume(b: nat, n: nat)
    ensures Volume(Repeat(b, n)) == Pow(b, n)
  {
    if n > 0 {
      RepeatVolume(b, n - 1);
      assert Repeat(b, n)[1..] == Repeat(b, n - 1);
    }
  }

  lemma {:induction false} PairsVolume(h: seq<nat>, b: nat)
    ensures Volume(Pairs(h, Repeat(b, |h|))) == Volume(Scaled(h, b))
  {
    if h != [] {
      var rest := Pairs(h[1..], Repeat(b, |h| - 1));
      PairsVolume(h[1..], b);
      assert Repeat(b, |h|)[1..] == Repeat(b, |h| - 1);
      VolumeOfPair(h[0], b, rest);
      assert Scaled(h, b)[1..] == Scaled(h[1..], b);
    }
  }

  lemma VolumeOfPair(d: nat, e: nat, s: seq<nat>)
    ensures Volume([d, e] + s) == d * e * Volume(s)
  {
    assert ([d, e] + s)[1..] == [e] + s && ([e] + s)[1..] == s;
    assert d * (e * Volume(s)) == d * e * Volume(s);
  }

  /** Two leading digits count as one digit of the merged dimension. */
  lemma FlatOfPair(d: nat, e: nat, s: seq<nat>, i: nat, j: nat, x: seq<nat>)
    requires i < d && j < e && InShape(s, x)
    ensures InShape([d, e] + s, [i, j] + x)
    ensures Flat([d, e] + s, [i, j] + x) == (i * e + j) * Volume(s) + Flat(s, x)
  {
    FlatCons(e, s, j, x);
    FlatCons(d, [e] + s, i, [j] + x);
    assert [d, e] + s == [d] + ([e] + s) && [i, j] + x == [i] + ([j] + x);
    Regroup(i, e, Volume(s), j);
  }

  lemma PairsInShape(h: seq<nat>, b: nat, x: seq<nat>, s: seq<nat>)
    requires InShape(h, x) && InShape(Repeat(b, |h|), s)
    ensures InShape(Pairs(h, Repeat(b, |h|)), Pairs(x, s)) && InShape(Scaled(h, b), Offset(x, b, s))
  {
    var ps, px := Pairs(h, Repeat(b, |h|)), Pairs(x, s);
    forall j | 0 <= j < |ps| ensures px[j] < ps[j] {
      PairsAt(h, Repeat(b, |h|), j / 2);
      PairsAt(x, s, j / 2);
      assert j == 2 * (j / 2) || j == 2 * (j / 2) + 1;
    }
    forall i | 0 <= i < |h| ensures Offset(x, b, s)[i] < Scaled(h, b)[i] {
      FlatBound(h[i], x[i], b, s[i]);
    }
  }

  /** Position in an interleaved shape is position in the merged shape. */
  lemma {:induction false} PairsFlat(h: seq<nat>, b: nat, x: seq<nat>, s: seq<nat>)
    requires InShape(h, x) && InShape(Repeat(b, |h|), s)
    ensures InShape(Pairs(h, Repeat(b, |h|)), Pairs(x, s)) && InShape(Scaled(h, b), Offset(x, b, s))
    ensures Flat(Pairs(h, Repeat(b, |h|)), Pairs(x, s)) == Flat(Scaled(h, b), Offset(x, b, s))
  {
    PairsInShape(h, b, x, s);
    if h != [] {
      var h', x', s' := h[1..], x[1..], s[1..];
      assert Repeat(b, |h|)[1..] == Repeat(b, |h'|);
      assert InShape(h', x') && InShape(Repeat(b, |h'|), s');
      PairsFlat(h', b, x', s');
      PairsVolume(h', b);
      FlatOfPair(h[0], b, Pairs(h', Repeat(b, |h'|)), x[0], s[0], Pairs(x', s'));
      assert Scaled(h, b)[1..] == Scaled(h', b) && Offset(x, b, s)[1..] == Offset(x', b, s');
    }
  }

  // ---- What the importers configure ----

  function Divided(h: seq<nat>, b: nat): (r: seq<nat>)
    requires b > 0
    ensures |r| == |h| && forall i :: 0 <= i < |h| ==> r[i] == h[i] / b
  {
    seq(|h|, i requires 0 <= i < |h| => h[i] / b)
  }

  lemma {:induction false} PowPositive(b: nat, k: nat)
    requires b > 0
    ensures Pow(b, k) > 0
  {
    if k > 0 {
      PowPositive(b, k - 1);
    }
  }

  /** The reduced channel count c satisfies c * b^n == C. */
  ghost predicate DepthPlan(dims: seq<nat>, b: nat, c: nat, plan: Shuffle)
    requires |dims| >= 1
  {
    var n := |dims| - 1;
    && c * Pow(b, n) == dims[0]
    && plan == Shuffle(Repeat(b, n) + [c] + dims[1..], InterleavePerm(n), [c] + Scaled(dims[1..], b))
  }

  ghost predicate SpacePlan(dims: seq<nat>, b: nat, h: seq<nat>, plan: Shuffle)
    requires |dims| >= 1
  {
    var n := |dims| - 1;
    && |h| == n && Scaled(h, b) == dims[1..]
    && plan == Shuffle([dims[0]] + Pairs(h, Repeat(b, n)), GatherPerm(n), [dims[0] * Pow(b, n)] + h)
  }

  lemma BlocksVolume(b: nat, c: nat, hs: seq<nat>)
    ensures Volume(Repeat(b, |hs|) + [c] + hs) == c * Pow(b, |hs|) * Volume(hs)
  {
    var bs := Repeat(b, |hs|);
    RepeatVolume(b, |hs|);
    VolumeConcat(bs + [c], hs);
    VolumeConcat(bs, [c]);
    assert [c][1..] == [] && Volume([c]) == c * 1;
    assert Pow(b, |hs|) * c == c * Pow(b, |hs|);
  }

  lemma VolumeOfHead(c: nat, s: seq<nat>)
    ensures Volume([c] + s) == c * Volume(s)
  {
    assert ([c] + s)[1..] == s;
  }

  lemma DepthPlanFits(dims: seq<nat>, b: nat, c: nat, plan: Shuffle)
    requires |dims| >= 1 && DepthPlan(dims, b, c, plan)
    ensures Fits(plan, dims)
    ensures Select(plan.first, plan.perm) == [c] + Pairs(dims[1..], Repeat(b, |dims| - 1))
  {
    var hs := dims[1..];
    assert dims == [dims[0]] + hs;
    BlocksVolume(b, c, hs);
    VolumeOfHead(dims[0], hs);
    PermsAreInverse(|hs|);
    InterleaveSelect(Repeat(b, |hs|), c, hs);
    VolumeOfHead(c, Pairs(hs, Repeat(b, |hs|)));
    VolumeOfHead(c, Scaled(hs, b));
    PairsVolume(hs, b);
  }

  lemma SpacePlanFits(dims: seq<nat>, b: nat, h: seq<nat>, plan: Shuffle)
    requires |dims| >= 1 && SpacePlan(dims, b, h, plan)
    ensures Fits(plan, dims)
    ensures Select(plan.first, plan.perm) == Repeat(b, |h|) + [dims[0]] + h
  {
    assert dims == [dims[0]] + dims[1..];
    VolumeOfHead(dims[0], dims[1..]);
    VolumeOfHead(dims[0], Pairs(h, Repeat(b, |h|)));
    PairsVolume(h, b);
    PermsAreInverse(|h|);
    GatherSelect(Repeat(b, |h|), dims[0], h);
    BlocksVolume(b, dims[0], h);
    VolumeOfHead(dims[0] * Pow(b, |h|), h);
  }

  // ---- Element placement ----

  /** The input channel of block offsets s and output channel i: the mixed-radix number s[0] s[1] ... i. */
  ghost function Channel(b: nat, s: seq<nat>, c: nat, i: nat): nat
    requires InShape(Repeat(b, |s|), s) && i < c
  {
    ChannelInShape(b, s, c, i);
    Flat(Repeat(b, |s|) + [c], s + [i])
  }

  lemma ChannelInShape(b: nat, s: seq<nat>, c: nat, i: nat)
    requires InShape(Repeat(b, |s|), s) && i < c
    ensures InShape(Repeat(b, |s|) + [c], s + [i])
  {
  }

  lemma ChannelBound(b: nat, s: seq<nat>, c: nat, i: nat)
    requires InShape(Repeat(b, |s|), s) && i < c
    ensures Channel(b, s, c, i) < c * Pow(b, |s|)
  {
    VolumeConcat(Repeat(b, |s|), [c]);
    RepeatVolume(b, |s|);
    assert [c][1..] == [] && Volume([c]) == c * 1;
    assert Pow(b, |s|) * c == c * Pow(b, |s|);
  }

  lemma PlacementInput(dims: seq<nat>, b: nat, c: nat, i: nat, x: seq<nat>, s: seq<nat>)
    requires |dims| >= 1 && c * Pow(b, |dims| - 1) == dims[0]
    requires i < c && InShape(dims[1..], x) && InShape(Repeat(b, |x|), s)
    ensures InShape(dims, [Channel(b, s, c, i)] + x) && InShape(Repeat(b, |x|) + [c] + dims[1..], s + [i] + x)
    ensures Flat(dims, [Channel(b, s, c, i)] + x) == Flat(Repeat(b, |x|) + [c] + dims[1..], s + [i] + x)
  {
    ChannelBound(b, s, c, i);
    ChannelInShape(b, s, c, i);
    assert dims == [dims[0]] + dims[1..];
    FlatCons(dims[0], dims[1..], Channel(b, s, c, i), x);
    FlatConcat(Repeat(b, |x|) + [c], dims[1..], s + [i], x);
  }

  lemma PlacementOutput(hs: seq<nat>, b: nat, c: nat, i: nat, x: seq<nat>, s: seq<nat>)
    requires i < c && InShape(hs, x) && InShape(Repeat(b, |x|), s)
    ensures InShape([c] + Scaled(hs, b), [i] + Offset(x, b, s))
    ensures InShape([c] + Pairs(hs, Repeat(b, |x|)), [i] + Pairs(x, s))
    ensures Flat([c] + Scaled(hs, b), [i] + Offset(x, b, s)) == Flat([c] + Pairs(hs, Repeat(b, |x|)), [i] + Pairs(x, s))
  {
    PairsFlat(hs, b, x, s);
    PairsVolume(hs, b);
    FlatCons(c, Pairs(hs, Repeat(b, |x|)), i, Pairs(x, s));
    FlatCons(c, Scaled(hs, b), i, Offset(x, b, s));
  }

  /**
   * Where DepthToSpace puts each element, for any number of spatial dimensions: output (i, x*b + s) is
   * input (Channel(s, i), x).
   */
  lemma DepthPlacement<T>(t: Tensor<T>, b: nat, c: nat, plan: Shuffle, i: nat, x: seq<nat>, s: seq<nat>)
    requires t.Valid() && |t.shape| >= 1 && DepthPlan(t.shape, b, c, plan)
    requires i < c && InShape(t.shape[1..], x) && InShape(Repeat(b, |x|), s)
    ensures Fits(plan, t.shape)
    ensures InShape(t.shape, [Channel(b, s, c, i)] + x) && InShape(plan.second, [i] + Offset(x, b, s))
    ensures At(Apply(plan, t), [i] + Offset(x, b, s)) == At(t, [Channel(b, s, c, i)] + x)
  {
    DepthPlanFits(t.shape, b, c, plan);
    PlacementInput(t.shape, b, c, i, x, s);
    PlacementOutput(t.shape[1..], b, c, i, x, s);
    var flat, y := Reshape(t, plan.first), s + [i] + x;
    TransposedAt(flat, plan.perm, y);
    InterleaveSelect(s, i, x);
    assert At(Transposed(flat, plan.perm), [i] + Pairs(x, s)) == At(flat, y);
  }

  /** With two spatial dimensions the channel is the one the ONNX operator documentation gives. */
  lemma ChannelInTwoDimensions(b: nat, s0: nat, s1: nat, c: nat, i: nat)
    requires s0 < b && s1 < b && i < c
    ensures InShape(Repeat(b, 2), [s0, s1])
    ensures Channel(b, [s0, s1], c, i) == (s0 * b + s1) * c + i
  {
    var s := [s0, s1];
    ChannelInShape(b, s, c, i);
    FlatCons(c, [], i, []);
    assert [c] + [] == [c] && [i] + [] == [i];
    FlatOfPair(b, b, [c], s0, s1, [i]);
    assert Repeat(b, 2) + [c] == [b, b] + [c] && s + [i] == [s0, s1] + [i];
  }

  // ---- The importers ----

  lemma PowSplit(b: nat, i: nat, k: nat)
    requires i <= k
    ensures Pow(b, k) == Pow(b, k - i) * Pow(b, i)
    decreases i
  {
    if i > 0 {
      PowSplit(b, i - 1, k - 1);
      assert b * (Pow(b, k - i) * Pow(b, i - 1)) == Pow(b, k - i) * (b * Pow(b, i - 1));
    }
  }

  /** If b^n divides C then b divides what is left after i < n exact divisions. */
  lemma StillDivisible(b: nat, n: nat, i: nat, channels: nat, c: nat)
    requires b > 0 && i < n && Pow(b, n) > 0 && c * Pow(b, i) == channels && channels % Pow(b, n) == 0
    ensures c % b == 0
  {
    var m, q, v := channels / Pow(b, n), Pow(b, n - i - 1), Pow(b, i);
    PowSplit(b, i, n);
    PowPositive(b, i);
    assert channels == m * Pow(b, n);
    assert Pow(b, n) == b * q * v;
    PullFront(m, b, q, v);
    CancelRight(c, b * (m * q), v);
    MultipleHasNoRemainder(b, m * q);
  }

  lemma PullFront(m: nat, b: nat, q: nat, v: nat)
    ensures m * (b * q * v) == b * (m * q) * v
  {
    assert m * (b * q * v) == m * (b * q) * v;
    assert m * (b * q) == b * (m * q);
  }

  lemma CancelRight(x: nat, y: nat, v: nat)
    requires v > 0 && x * v == y * v
    ensures x == y
  {
    SplitSum(v, x, 0, y, 0);
  }

  lemma MultipleHasNoRemainder(b: nat, k: nat)
    requires b > 0
    ensures (b * k) % b == 0 && (b * k) / b == k
  {
    var q, r := (b * k) / b, (b * k) % b;
    assert b * k == q * b + r;
    SplitSum(b, k, 0, q, r);
  }

  lemma Reassociate(x: nat, b: nat, v: nat)
    ensures x * b * v == x * (b * v)
  {
  }

  lemma ExactMultiple(c: nat, v: nat, channels: nat)
    requires v > 0 && c * v == channels
    ensures channels % v == 0
  {
    MultipleHasNoRemainder(v, c);
    assert v * c == c * v;
  }

  /** One exact division of the channel count by the block size. */
  lemma DivideOnce(c: nat, b: nat, i: nat, channels: nat)
    requires b > 0 && c * Pow(b, i) == channels && c % b == 0
    ensures c / b * Pow(b, i + 1) == channels
  {
    assert c / b * b == c;
    Reassociate(c / b, b, Pow(b, i));
  }

  /** The first loop of DepthToSpace: it accepts exactly when b^n divides the channel count. */
  method BlockShape(dims: seq<nat>, b: nat) returns (r: Option<(nat, seq<nat>)>)
    requires |dims| >= 1 && b > 0
    ensures Pow(b, |dims| - 1) > 0
    ensures r.Some? <==> dims[0] % Pow(b, |dims| - 1) == 0
    ensures r.Some? ==> r.value.0 * Pow(b, |dims| - 1) == dims[0]
    ensures r.Some? ==> r.value.1 == Repeat(b, |dims| - 1) + [r.value.0] + dims[1..]
  {
    var n := |dims| - 1;
    PowPositive(b, n);
    var c: nat := dims[0];
    var blocks: seq<nat>, spatial: seq<nat> := [], [];
    for i := 0 to n
      invariant c * Pow(b, i) == dims[0]
      invariant blocks == Repeat(b, i) && spatial == dims[1..1 + i]
    {
      if c % b != 0 {
        if dims[0] % Pow(b, n) == 0 {
          StillDivisible(b, n, i, dims[0], c);
        }
        return None;
      }
      DivideOnce(c, b, i, dims[0]);
      c := c / b;
      blocks := blocks + [b];
      spatial := spatial + [dims[1 + i]];
    }
    ExactMultiple(c, Pow(b, n), dims[0]);
    return Some((c, blocks + [c] + spatial));
  }

  method FillInterleavePerm(n: nat) returns (perm: seq<nat>)
    ensures perm == InterleavePerm(n)
  {
    perm := [n];
    for i := 0 to n
      invariant perm == InterleavePerm(n)[..1 + 2 * i]
    {
      assert InterleaveEntry(n, 1 + 2 * i) == n + 1 + i && InterleaveEntry(n, 2 + 2 * i) == i;
      perm := perm + [n + 1 + i, i];
    }
  }

  /** The last loop of DepthToSpace: each spatial dimension absorbs its block. */
  method MergeBlocks(mid: seq<nat>, c: nat, hs: seq<nat>, b: nat) returns (shape: seq<nat>)
    requires mid == [c] + Pairs(hs, Repeat(b, |hs|))
    ensures shape == [c] + Scaled(hs, b)
  {
    PairsAlternate(hs, Repeat(b, |hs|));
    shape := [mid[0]];
    for i := 0 to |hs|
      invariant shape == [c] + Scaled(hs[..i], b)
    {
      assert mid[1 + 2 * i] == hs[i] && mid[2 + 2 * i] == Repeat(b, |hs|)[i];
      shape := shape + [mid[1 + 2 * i + 0] * mid[1 + 2 * i + 1]];
      assert Scaled(hs[..i + 1], b) == Scaled(hs[..i], b) + [hs[i] * b];
    }
    assert hs[..|hs|] == hs;
  }

  /** DepthToSpace: fails exactly when blocksize^n does not divide the channel count. */
  method DepthToSpace(dims: seq<nat>, b: nat) returns (r: Option<(nat, Shuffle)>)
    requires |dims| >= 1 && b > 0
    ensures Pow(b, |dims| - 1) > 0
    ensures r.Some? <==> dims[0] % Pow(b, |dims| - 1) == 0
    ensures r.Some? ==> DepthPlan(dims, b, r.value.0, r.value.1)
  {
    var first := BlockShape(dims, b);
    if first.None? {
      return None;
    }
    var (c, shape) := first.value;
    var perm := FillInterleavePerm(|dims| - 1);
    PermsAreInverse(|dims| - 1);
    InterleaveSelect(Repeat(b, |dims| - 1), c, dims[1..]);
    var second := MergeBlocks(Select(shape, perm), c, dims[1..], b);
    return Some((c, Shuffle(shape, perm, second)));
  }

  method FillGatherPerm(n: nat) returns (perm: seq<nat>)
    ensures perm == GatherPerm(n)
  {
    var blocks: seq<nat>, spatial: seq<nat> := [], [];
    for i := 0 to n
      invariant |blocks| == |spatial| == i
      invariant forall j :: 0 <= j < i ==> blocks[j] == GatherEntry(n, j)
      invariant forall j :: 0 <= j < i ==> spatial[j] == GatherEntry(n, n + 1 + j)
    {
      spatial := spatial + [1 + 2 * i + 0];
      blocks := blocks + [1 + 2 * i + 1];
    }
    perm := blocks + [0] + spatial;
  }

  lemma {:induction false} PairsAppend(h: seq<nat>, b: seq<nat>, x: nat, y: nat)
    requires |h| == |b|
    ensures Pairs(h + [x], b + [y]) == Pairs(h, b) + [x, y]
  {
    if h != [] {
      PairsAppend(h[1..], b[1..], x, y);
      assert (h + [x])[1..] == h[1..] + [x] && (b + [y])[1..] == b[1..] + [y];
    }
  }

  /** The shape SpaceToDepth has filled in after i spatial dimensions. */
  function SplitShape(dims: seq<nat>, b: nat, i: nat): seq<nat>
    requires i < |dims| && b > 0
  {
    [dims[0]] + Pairs(Divided(dims[1..1 + i], b), Repeat(b, i))
  }

  lemma SplitOneMore(dims: seq<nat>, b: nat, i: nat)
    requires i + 1 < |dims| && b > 0
    ensures SplitShape(dims, b, i + 1) == SplitShape(dims, b, i) + [dims[1 + i] / b, b]
  {
    PairsAppend(Divided(dims[1..1 + i], b), Repeat(b, i), dims[1 + i] / b, b);
    assert Divided(dims[1..2 + i], b) == Divided(dims[1..1 + i], b) + [dims[1 + i] / b];
    assert Repeat(b, i + 1) == Repeat(b, i) + [b];
  }

  lemma DivisibleScalesBack(h: seq<nat>, b: nat)
    requires b > 0 && forall i :: 0 <= i < |h| ==> h[i] % b == 0
    ensures Scaled(Divided(h, b), b) == h
  {
    forall i | 0 <= i < |h| ensures h[i] / b * b == h[i] {
    }
  }

  /** The first loop of SpaceToDepth: each spatial dimension is split by the block size. */
  method SplitBlocks(dims: seq<nat>, b: nat) returns (r: Option<seq<nat>>)
    requires |dims| >= 1 && b > 0
    ensures r.Some? <==> forall i :: 1 <= i < |dims| ==> dims[i] % b == 0
    ensures r.Some? ==> r.value == SplitShape(dims, b, |dims| - 1)
  {
    var shape := [dims[0]];
    for i := 0 to |dims| - 1
      invariant shape == SplitShape(dims, b, i)
      invariant forall j :: 1 <= j < 1 + i ==> dims[j] % b == 0
    {
      if dims[1 + i] % b != 0 {
        return None;
      }
      SplitOneMore(dims, b, i);
      shape := shape + [dims[1 + i] / b, b];
    }
    return Some(shape);
  }

  /** SpaceToDepth: fails exactly when the block size does not divide some spatial dimension. */
  method SpaceToDepth(dims: seq<nat>, b: nat) returns (r: Option<(seq<nat>, Shuffle)>)
    requires |dims| >= 1 && b > 0
    ensures r.Some? <==> forall i :: 1 <= i < |dims| ==> dims[i] % b == 0
    ensures r.Some? ==> SpacePlan(dims, b, r.value.0, r.value.1)
  {
    var n := |dims| - 1;
    var first := SplitBlocks(dims, b);
    if first.None? {
      return None;
    }
    var h := Divided(dims[1..], b);
    DivisibleScalesBack(dims[1..], b);
    assert dims[1..1 + n] == dims[1..];
    var perm := FillGatherPerm(n);
    PermsAreInverse(n);
    GatherSelect(Repeat(b, n), dims[0], h);
    var mid := Select(first.value, perm);
    var channels := mid[n];
    for i := 0 to n
      invariant channels == dims[0] * Pow(b, i)
    {
      assert mid[i] == b;
      Commute(dims[0], Pow(b, i), b);
      channels := channels * mid[i];
    }
    return Some((h, Shuffle(first.value, perm, [channels] + mid[n + 1..])));
  }

  lemma Commute(x: nat, v: nat, b: nat)
    ensures x * v * b == x * (b * v)
  {
  }

  // ---- Round trips ----

  lemma ScaledIsInjective(h: seq<nat>, g: seq<nat>, b: nat)
    requires b > 0 && Scaled(h, b) == Scaled(g, b)
    ensures h == g
  {
    assert |h| == |Scaled(h, b)| == |g|;
    forall i | 0 <= i < |h| ensures h[i] == g[i] {
      assert Scaled(h, b)[i] == Scaled(g, b)[i];
      CancelRight(h[i], g[i], b);
    }
  }

  /** SpaceToDepth accepts what DepthToSpace produces, and gives back shape and buffer. */
  lemma SpaceUndoesDepth<T>(t: Tensor<T>, b: nat, c: nat, h: seq<nat>, depth: Shuffle, space: Shuffle)
    requires t.Valid() && |t.shape| >= 1 && b > 0 && DepthPlan(t.shape, b, c, depth)
    requires SpacePlan(depth.second, b, h, space)
    ensures Fits(depth, t.shape) && Fits(space, depth.second)
    ensures Apply(space, Apply(depth, t)) == t
  {
    ScaledIsInjective(h, t.shape[1..], b);
    DepthPlanFits(t.shape, b, c, depth);
    SpacePlanFits(depth.second, b, h, space);
    var flat := Reshape(t, depth.first);
    assert Reshape(Apply(depth, t), space.first) == Transposed(flat, depth.perm);
    PermsAreInverse(|t.shape| - 1);
    TransposeUndo(flat, depth.perm, space.perm);
    assert space.second == [t.shape[0]] + t.shape[1..] == t.shape;
  }

  lemma DepthOutputIsDivisible(dims: seq<nat>, b: nat, c: nat, depth: Shuffle)
    requires |dims| >= 1 && b > 0 && DepthPlan(dims, b, c, depth)
    ensures forall i :: 1 <= i < |depth.second| ==> depth.second[i] % b == 0
  {
    forall i | 1 <= i < |depth.second| ensures depth.second[i] % b == 0 {
      assert depth.second[i] == dims[1..][i - 1] * b;
      MultipleHasNoRemainder(b, dims[i]);
      assert b * dims[i] == dims[i] * b;
    }
  }

  /** DepthToSpace accepts what SpaceToDepth produces, and gives back shape and buffer. */
  lemma DepthUndoesSpace<T>(t: Tensor<T>, b: nat, c: nat, h: seq<nat>, space: Shuffle, depth: Shuffle)
    requires t.Valid() && |t.shape| >= 1 && b > 0 && SpacePlan(t.shape, b, h, space)
    requires DepthPlan(space.second, b, c, depth)
    ensures Fits(space, t.shape) && Fits(depth, space.second)
    ensures Apply(depth, Apply(space, t)) == t
  {
    PowPositive(b, |h|);
    CancelRight(c, t.shape[0], Pow(b, |h|));
    SpacePlanFits(t.shape, b, h, space);
    assert space.second[1..] == h;
    DepthPlanFits(space.second, b, t.shape[0], depth);
    var flat := Reshape(t, space.first);
    assert Reshape(Apply(space, t), depth.first) == Transposed(flat, space.perm);
    PermsAreInverse(|h|);
    TransposeUndo(flat, space.perm, depth.perm);
    assert depth.second == [t.shape[0]] + t.shape[1..] == t.shape;
  }

  lemma SpaceOutputIsDivisible(dims: seq<nat>, b: nat, h: seq<nat>, space: Shuffle)
    requires |dims| >= 1 && b > 0 && SpacePlan(dims, b, h, space)
    ensures Pow(b, |space.second| - 1) > 0 && space.second[0] % Pow(b, |space.second| - 1) == 0
  {
    PowPositive(b, |h|);
    ExactMultiple(dims[0], Pow(b, |h|), space.second[0]);
  }
}
