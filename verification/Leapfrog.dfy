/**
 * Hamiltonian Monte Carlo of example/bayesian-methods/algos.py over the reals: the fused leapfrog loop of step_HMC,
 * its accept/reject step and the sample pool of HMC. Parameters and momenta are flattened to one vector each; the
 * gradient is any function of the parameters.
 */
module Leapfrog {
  import opened Basics

  type Vector = seq<real>

  /** x + a * y, elementwise. */
  function AddScaled(x: Vector, a: real, y: Vector): (r: Vector)
    requires |x| == |y|
    ensures |r| == |x| && forall i :: 0 <= i < |x| ==> r[i] == x[i] + a * y[i]
  {
    seq(|x|, i requires 0 <= i < |x| => x[i] + a * y[i])
  }

  function Negated(x: Vector): (r: Vector)
    ensures |r| == |x| && forall i :: 0 <= i < |x| ==> r[i] == -x[i]
  {
    seq(|x|, i requires 0 <= i < |x| => -x[i])
  }

  /** Position and momentum. */
  datatype Phase = Phase(q: Vector, p: Vector)

  ghost predicate Gradient(grad: Vector -> Vector) {
    forall q: Vector :: |grad(q)| == |q|
  }

  ghost predicate Valid(z: Phase) {
    |z.q| == |z.p|
  }

  // ---- The textbook integrator ----

  ghost function HalfKick(grad: Vector -> Vector, eps: real, z: Phase): (r: Phase)
    requires Gradient(grad) && Valid(z)
    ensures Valid(r) && |r.q| == |z.q|
  {
    Phase(z.q, AddScaled(z.p, -(eps / 2.0), grad(z.q)))
  }

  ghost function Drift(eps: real, z: Phase): (r: Phase)
    requires Valid(z)
    ensures Valid(r) && |r.q| == |z.q|
  {
    Phase(AddScaled(z.q, eps, z.p), z.p)
  }

  /** One symmetric kick-drift-kick step. */
  ghost function KickDriftKick(grad: Vector -> Vector, eps: real, z: Phase): (r: Phase)
    requires Gradient(grad) && Valid(z)
    ensures Valid(r) && |r.q| == |z.q|
  {
    HalfKick(grad, eps, Drift(eps, HalfKick(grad, eps, z)))
  }

  ghost function Steps(grad: Vector -> Vector, eps: real, n: nat, z: Phase): (r: Phase)
    requires Gradient(grad) && Valid(z)
    ensures Valid(r) && |r.q| == |z.q|
  {
    if n == 0 then z else KickDriftKick(grad, eps, Steps(grad, eps, n - 1, z))
  }

  ghost function Flip(z: Phase): (r: Phase)
    ensures |r.q| == |z.q| && |r.p| == |z.p|
  {
    Phase(z.q, Negated(z.p))
  }

  /** The proposal: n steps and a change of sign of the momentum. */
  ghost function Proposal(grad: Vector -> Vector, eps: real, n: nat, z: Phase): (r: Phase)
    requires Gradient(grad) && Valid(z)
    ensures Valid(r) && |r.q| == |z.q|
  {
    Flip(Steps(grad, eps, n, z))
  }

  // ---- The proposal is its own inverse ----

  lemma HalfKickReverses(grad: Vector -> Vector, eps: real, z: Phase)
    requires Gradient(grad) && Valid(z)
    ensures Same(HalfKick(grad, eps, Flip(HalfKick(grad, eps, z))), Flip(z))
  {
    assert HalfKick(grad, eps, Flip(HalfKick(grad, eps, z))) == Flip(z);
  }

  lemma DriftReverses(eps: real, z: Phase)
    requires Valid(z)
    ensures Same(Drift(eps, Flip(Drift(eps, z))), Flip(z))
  {
    var back := AddScaled(AddScaled(z.q, eps, z.p), eps, Negated(z.p));
    forall i | 0 <= i < |z.q| ensures back[i] == z.q[i] {
      assert eps * -z.p[i] == -(eps * z.p[i]);
    }
    assert back == z.q;
  }

  lemma FlipFlip(z: Phase)
    ensures Same(Flip(Flip(z)), z)
  {
    assert Flip(Flip(z)) == z;
  }

  lemma StepReverses(grad: Vector -> Vector, eps: real, z: Phase)
    requires Gradient(grad) && Valid(z)
    ensures Same(KickDriftKick(grad, eps, Flip(KickDriftKick(grad, eps, z))), Flip(z))
  {
    var kicked := HalfKick(grad, eps, z);
    HalfKickReverses(grad, eps, Drift(eps, kicked));
    DriftReverses(eps, kicked);
    HalfKickReverses(grad, eps, z);
  }

  ghost predicate IsStep(grad: Vector -> Vector, eps: real, z: Phase, w: Phase)
    requires Gradient(grad)
  {
    Valid(z) && Same(w, KickDriftKick(grad, eps, z))
  }

  lemma StepBack(grad: Vector -> Vector, eps: real, z: Phase, w: Phase)
    requires Gradient(grad) && IsStep(grad, eps, z, w)
    ensures IsStep(grad, eps, Flip(w), Flip(z))
  {
    StepReverses(grad, eps, z);
  }

  /** Consecutive states are one step apart. */
  ghost predicate IsTrajectory(grad: Vector -> Vector, eps: real, t: seq<Phase>)
    requires Gradient(grad)
  {
    forall k :: 0 <= k < |t| - 1 ==> IsStep(grad, eps, t[k], t[k + 1])
  }

  /** The states in reverse order, with momenta flipped. */
  ghost function Backwards(t: seq<Phase>): (r: seq<Phase>)
    ensures |r| == |t| && forall k :: 0 <= k < |t| ==> Same(r[k], Flip(t[|t| - 1 - k]))
  {
    seq(|t|, k requires 0 <= k < |t| => Flip(t[|t| - 1 - k]))
  }

  lemma BackwardsStep(grad: Vector -> Vector, eps: real, t: seq<Phase>, k: nat)
    requires Gradient(grad) && IsTrajectory(grad, eps, t) && k + 1 < |t|
    ensures IsStep(grad, eps, Backwards(t)[k], Backwards(t)[k + 1])
  {
    var j := |t| - 2 - k;
    assert IsStep(grad, eps, t[j], t[j + 1]);
    StepBack(grad, eps, t[j], t[j + 1]);
  }

  /** A trajectory read backwards with momenta flipped is a trajectory. */
  lemma BackwardsIsTrajectory(grad: Vector -> Vector, eps: real, t: seq<Phase>)
    requires Gradient(grad) && IsTrajectory(grad, eps, t)
    ensures IsTrajectory(grad, eps, Backwards(t))
  {
    forall k | 0 <= k < |t| - 1 ensures IsStep(grad, eps, Backwards(t)[k], Backwards(t)[k + 1]) {
      BackwardsStep(grad, eps, t, k);
    }
  }

  lemma {:induction false} TrajectoryIsSteps(grad: Vector -> Vector, eps: real, t: seq<Phase>, k: nat)
    requires Gradient(grad) && IsTrajectory(grad, eps, t) && k < |t| && Valid(t[0])
    ensures Same(t[k], Steps(grad, eps, k, t[0]))
  {
    if k > 0 {
      TrajectoryIsSteps(grad, eps, t, k - 1);
      assert IsStep(grad, eps, t[k - 1], t[k - 1 + 1]);
    }
  }

  lemma {:induction false} StepsTrajectory(grad: Vector -> Vector, eps: real, n: nat, z: Phase) returns (t: seq<Phase>)
    requires Gradient(grad) && Valid(z)
    ensures |t| == n + 1 && Same(t[0], z) && IsTrajectory(grad, eps, t) && Valid(t[n])
  {
    if n == 0 {
      t := [z];
    } else {
      var s := StepsTrajectory(grad, eps, n - 1, z);
      t := s + [KickDriftKick(grad, eps, s[n - 1])];
      forall k | 0 <= k < |t| - 1 ensures IsStep(grad, eps, t[k], t[k + 1]) {
        if k < n - 1 { assert IsStep(grad, eps, s[k], s[k + 1]); }
      }
    }
  }

  lemma StepsReverse(grad: Vector -> Vector, eps: real, n: nat, z: Phase)
    requires Gradient(grad) && Valid(z)
    ensures Same(Steps(grad, eps, n, Flip(Steps(grad, eps, n, z))), Flip(z))
  {
    var t := StepsTrajectory(grad, eps, n, z);
    var r := Backwards(t);
    BackwardsIsTrajectory(grad, eps, t);
    assert Same(r[0], Flip(t[n])) && Same(r[n], Flip(t[0]));
    TrajectoryIsSteps(grad, eps, t, n);
    TrajectoryIsSteps(grad, eps, r, n);
  }

  /** For every gradient function, step size and number of steps, proposing twice returns to the start. */
  lemma ProposalIsInvolution(grad: Vector -> Vector, eps: real, n: nat, z: Phase)
    requires Gradient(grad) && Valid(z)
    ensures Proposal(grad, eps, n, Proposal(grad, eps, n, z)) == z
  {
    StepsReverse(grad, eps, n, z);
    FlipFlip(z);
    assert Same(Proposal(grad, eps, n, Proposal(grad, eps, n, z)), z);
  }

  // ---- The fused loop ----

  /** Two half kicks at the same position are one full kick. */
  lemma HalvesMakeWhole(p: Vector, eps: real, g: Vector)
    requires |p| == |g|
    ensures AddScaled(AddScaled(p, -(eps / 2.0), g), -(eps / 2.0), g) == AddScaled(p, -eps, g)
  {
  }

  /** x[:] = x + a * y, in place. */
  method AddInPlace(x: array<real>, a: real, y: seq<real>)
    requires x.Length == |y|
    modifies x
    ensures x[..] == AddScaled(old(x[..]), a, y)
  {
    for i := 0 to x.Length
      invariant forall j :: 0 <= j < i ==> x[j] == old(x[j]) + a * y[j]
      invariant forall j :: i <= j < x.Length ==> x[j] == old(x[j])
    {
      x[i] := x[i] + a * y[i];
    }
  }

  method NegateInPlace(x: array<real>)
    modifies x
    ensures x[..] == Negated(old(x[..]))
  {
    for i := 0 to x.Length
      invariant forall j :: 0 <= j < i ==> x[j] == -old(x[j])
      invariant forall j :: i <= j < x.Length ==> x[j] == old(x[j])
    {
      x[i] := -x[i];
    }
  }

  /** What the fused loop does: the proposal, except that L == 0 leaves only the first half kick. */
  ghost function Moved(grad: Vector -> Vector, eps: real, L: nat, z: Phase): (r: Phase)
    requires Gradient(grad) && Valid(z)
    ensures Valid(r) && |r.q| == |z.q|
  {
    if L == 0 then HalfKick(grad, eps, z) else Proposal(grad, eps, L, z)
  }

  /**
   * Lines 62-86: half a kick, then L drifts each followed by a full kick, the last by half a kick and a change of
   * sign. For L >= 1 this is the proposal; for L == 0 the loop body never runs and only the first half kick is left.
   */
  method Integrate(grad: Vector -> Vector, eps: real, L: nat, q: array<real>, p: array<real>)
    requires Gradient(grad) && q.Length == p.Length && q != p
    modifies q, p
    ensures L >= 1 ==> Phase(q[..], p[..]) == Proposal(grad, eps, L, Phase(old(q[..]), old(p[..])))
    ensures L == 0 ==> Phase(q[..], p[..]) == HalfKick(grad, eps, Phase(old(q[..]), old(p[..])))
  {
    ghost var z := Phase(q[..], p[..]);
    AddInPlace(p, -(eps / 2.0), grad(q[..]));
    for i := 0 to L
      invariant i < L || L == 0 ==> Phase(q[..], p[..]) == HalfKick(grad, eps, Steps(grad, eps, i, z))
      invariant i == L && L > 0 ==> Phase(q[..], p[..]) == Proposal(grad, eps, L, z)
    {
      ghost var drifted := Drift(eps, HalfKick(grad, eps, Steps(grad, eps, i, z)));
      AddInPlace(q, eps, p[..]);
      var g := grad(q[..]);
      assert Phase(q[..], p[..]) == drifted && Steps(grad, eps, i + 1, z) == HalfKick(grad, eps, drifted);
      if i != L - 1 {
        HalvesMakeWhole(p[..], eps, g);
        AddInPlace(p, -eps, g);
      } else {
        AddInPlace(p, -(eps / 2.0), g);
        NegateInPlace(p);
      }
    }
  }

  // ---- In coordinates ----

  /** One leapfrog step written out: half a kick, a drift, half a kick at the new position. */
  ghost predicate OneStep(grad: Vector -> Vector, eps: real, a: Phase, b: Phase)
    requires Gradient(grad)
  {
    && |a.q| == |a.p| == |b.q| == |b.p|
    && (forall i :: 0 <= i < |a.q| ==> b.q[i] == a.q[i] + eps * (a.p[i] - eps / 2.0 * grad(a.q)[i]))
    && (forall i :: 0 <= i < |a.q| ==> b.p[i] == a.p[i] - eps / 2.0 * grad(a.q)[i] - eps / 2.0 * grad(b.q)[i])
  }

  lemma StepInCoordinates(grad: Vector -> Vector, eps: real, z: Phase)
    requires Gradient(grad) && Valid(z)
    ensures OneStep(grad, eps, z, KickDriftKick(grad, eps, z))
  {
    var a := HalfKick(grad, eps, z);
    var b := Drift(eps, a);
    var c := HalfKick(grad, eps, b);
    forall i | 0 <= i < |z.q|
      ensures c.q[i] == z.q[i] + eps * (z.p[i] - eps / 2.0 * grad(z.q)[i])
      ensures c.p[i] == z.p[i] - eps / 2.0 * grad(z.q)[i] - eps / 2.0 * grad(c.q)[i]
    {
      assert a.p[i] == z.p[i] + -(eps / 2.0) * grad(z.q)[i];
      assert b.q[i] == z.q[i] + eps * a.p[i];
      assert c.p[i] == a.p[i] + -(eps / 2.0) * grad(b.q)[i];
    }
  }

  /** A path of n leapfrog steps from z. */
  ghost predicate IsPath(grad: Vector -> Vector, eps: real, n: nat, z: Phase, t: seq<Phase>)
    requires Gradient(grad)
  {
    |t| == n + 1 && t[0] == z && forall k :: 0 <= k < n ==> OneStep(grad, eps, t[k], t[k + 1])
  }

  lemma {:induction false} StepsArePath(grad: Vector -> Vector, eps: real, n: nat, z: Phase) returns (t: seq<Phase>)
    requires Gradient(grad) && Valid(z)
    ensures IsPath(grad, eps, n, z, t) && Same(t[n], Steps(grad, eps, n, z))
  {
    if n == 0 {
      t := [z];
    } else {
      t := StepsArePath(grad, eps, n - 1, z);
      StepInCoordinates(grad, eps, Steps(grad, eps, n - 1, z));
      t := t + [Steps(grad, eps, n, z)];
    }
  }

  /** The loop's end, with the momentum's sign changed back, is the end of a path of L leapfrog steps. */
  method IntegrateAlongPath(grad: Vector -> Vector, eps: real, L: nat, q: array<real>, p: array<real>)
    returns (ghost t: seq<Phase>)
    requires Gradient(grad) && q.Length == p.Length && q != p && L >= 1
    modifies q, p
    ensures IsPath(grad, eps, L, Phase(old(q[..]), old(p[..])), t)
    ensures t[L].q == q[..] && |t[L].p| == p.Length && forall i :: 0 <= i < p.Length ==> p[i] == -t[L].p[i]
  {
    t := StepsArePath(grad, eps, L, Phase(q[..], p[..]));
    Integrate(grad, eps, L, q, p);
  }

  // ---- The chain ----

  /** The random choices of a run: momentum draws, and the outcome of each acceptance test. */
  datatype Randomness = Randomness(draw: nat -> Vector, accept: (nat, Phase, Phase) -> bool)

  ghost predicate Draws(rand: Randomness, dim: nat) {
    forall i :: |rand.draw(i)| == dim
  }

  /** Whether step i from q moves to the end of its trajectory. */
  ghost predicate Accepts(grad: Vector -> Vector, eps: real, L: nat, rand: Randomness, i: nat, q: Vector)
    requires Gradient(grad) && Draws(rand, |q|)
  {
    var start := Phase(q, rand.draw(i));
    rand.accept(i, start, Moved(grad, eps, L, start))
  }

  /** The parameters after n steps of the chain. */
  ghost function Chain(grad: Vector -> Vector, eps: real, L: nat, rand: Randomness, q: Vector, n: nat): (r: Vector)
    requires Gradient(grad) && Draws(rand, |q|)
    ensures |r| == |q|
  {
    if n == 0 then q
    else
      var before := Chain(grad, eps, L, rand, q, n - 1);
      if Accepts(grad, eps, L, rand, n - 1, before)
      then Moved(grad, eps, L, Phase(before, rand.draw(n - 1))).q
      else before
  }

  ghost function Accepted(grad: Vector -> Vector, eps: real, L: nat, rand: Randomness, q: Vector, n: nat): nat
    requires Gradient(grad) && Draws(rand, |q|)
  {
    if n == 0 then 0
    else
      var before := Chain(grad, eps, L, rand, q, n - 1);
      Accepted(grad, eps, L, rand, q, n - 1) + if Accepts(grad, eps, L, rand, n - 1, before) then 1 else 0
  }

  /** step_HMC: on rejection the executor's parameters are put back to where the step began. */
  method StepHMC(
    grad: Vector -> Vector, eps: real, L: nat, rand: Randomness, i: nat, exe: array<real>)
    returns (sample: Vector, accepted: bool)
    requires Gradient(grad) && Draws(rand, exe.Length)
    modifies exe
    ensures accepted <==> Accepts(grad, eps, L, rand, i, old(exe[..]))
    ensures var start := Phase(old(exe[..]), rand.draw(i));
      accepted <==> rand.accept(i, start, Moved(grad, eps, L, start))
    ensures sample == if accepted then Moved(grad, eps, L, Phase(old(exe[..]), rand.draw(i))).q else old(exe[..])
    ensures exe[..] == sample
  {
    var init := exe[..];
    var drawn := rand.draw(i);
    var p := new real[exe.Length](j requires 0 <= j < |drawn| => drawn[j]);
    assert p[..] == drawn;
    Integrate(grad, eps, L, exe, p);
    accepted := rand.accept(i, Phase(init, drawn), Phase(exe[..], p[..]));
    if accepted {
      sample := exe[..];
    } else {
      sample := init;
      Restore(exe, init);
    }
  }

  ghost predicate AcceptedAt(grad: Vector -> Vector, eps: real, L: nat, rand: Randomness, q: Vector, i: nat)
    requires Gradient(grad) && Draws(rand, |q|)
  {
    Accepts(grad, eps, L, rand, i, Chain(grad, eps, L, rand, q, i))
  }

  /** The numbers below n at which a property holds. */
  ghost function Where(f: nat -> bool, n: nat): set<nat> {
    set i: nat | i < n && f(i)
  }

  lemma WhereNext(f: nat -> bool, n: nat)
    ensures |Where(f, 0)| == 0 && |Where(f, n + 1)| == |Where(f, n)| + if f(n) then 1 else 0
  {
    if f(n) {
      assert Where(f, n + 1) == Where(f, n) + {n};
    } else {
      assert Where(f, n + 1) == Where(f, n);
    }
    assert Where(f, 0) == {};
  }

  /** The count of accepted steps is the number of steps at which the proposal was accepted. */
  lemma {:induction false} AcceptedCounts(
    grad: Vector -> Vector, eps: real, L: nat, rand: Randomness, q: Vector, n: nat, f: nat -> bool)
    requires Gradient(grad) && Draws(rand, |q|)
    requires forall i: nat :: f(i) <==> AcceptedAt(grad, eps, L, rand, q, i)
    ensures Accepted(grad, eps, L, rand, q, n) == |Where(f, n)|
  {
    if n > 0 {
      AcceptedCounts(grad, eps, L, rand, q, n - 1, f);
      WhereNext(f, n - 1);
      assert f(n - 1) <==> AcceptedAt(grad, eps, L, rand, q, n - 1);
    } else {
      WhereNext(f, 0);
    }
  }

  /** Going from n to n + 1 steps of the chain. */
  lemma ChainStep(
    grad: Vector -> Vector, eps: real, L: nat, rand: Randomness, q: Vector, n: nat, before: Vector, sample: Vector,
    accepted: bool)
    requires Gradient(grad) && Draws(rand, |q|) && before == Chain(grad, eps, L, rand, q, n)
    requires accepted <==> Accepts(grad, eps, L, rand, n, before)
    requires sample == if accepted then Moved(grad, eps, L, Phase(before, rand.draw(n))).q else before
    ensures sample == Chain(grad, eps, L, rand, q, n + 1)
    ensures Accepted(grad, eps, L, rand, q, n + 1) == Accepted(grad, eps, L, rand, q, n) + if accepted then 1 else 0
  {
  }

  method Restore(exe: array<real>, params: Vector)
    requires exe.Length == |params|
    modifies exe
    ensures exe[..] == params
  {
    for i := 0 to exe.Length
      invariant exe[..i] == params[..i]
    {
      exe[i] := params[i];
      assert exe[..i + 1] == exe[..i] + [params[i]];
    }
    assert exe[..] == exe[..exe.Length];
  }

  /** The pool after n steps of the chain. */
  ghost predicate EveryTenth(
    grad: Vector -> Vector, eps: real, L: nat, rand: Randomness, q: Vector, n: nat, pool: seq<Vector>)
    requires Gradient(grad) && Draws(rand, |q|)
  {
    && |pool| == n / 10
    && forall j :: 0 <= j < |pool| ==> Same(pool[j], Chain(grad, eps, L, rand, q, 10 * (j + 1)))
  }

  lemma NextTenth(
    grad: Vector -> Vector, eps: real, L: nat, rand: Randomness, q: Vector, n: nat, pool: seq<Vector>,
    sample: Vector)
    requires Gradient(grad) && Draws(rand, |q|) && EveryTenth(grad, eps, L, rand, q, n, pool)
    requires sample == Chain(grad, eps, L, rand, q, n + 1)
    ensures EveryTenth(grad, eps, L, rand, q, n + 1, if (n + 1) % 10 == 0 then pool + [sample] else pool)
  {
    if (n + 1) % 10 == 0 {
      assert 10 * (|pool| + 1) == n + 1;
    }
  }

  /** Where a run stands after n steps of the chain. */
  ghost predicate AfterSteps(
    grad: Vector -> Vector, eps: real, L: nat, rand: Randomness, q: Vector, n: nat,
    current: Vector, pool: seq<Vector>, acceptNum: nat)
    requires Gradient(grad) && Draws(rand, |q|)
  {
    && Same(current, Chain(grad, eps, L, rand, q, n))
    && EveryTenth(grad, eps, L, rand, q, n, pool)
    && acceptNum == Accepted(grad, eps, L, rand, q, n)
  }

  lemma OneMoreStep(
    grad: Vector -> Vector, eps: real, L: nat, rand: Randomness, q: Vector, n: nat,
    before: Vector, pool: seq<Vector>, acceptNum: nat, sample: Vector, accepted: bool)
    requires Gradient(grad) && Draws(rand, |q|) && |before| == |q|
    requires AfterSteps(grad, eps, L, rand, q, n, before, pool, acceptNum)
    requires accepted <==> Accepts(grad, eps, L, rand, n, before)
    requires sample == if accepted then Moved(grad, eps, L, Phase(before, rand.draw(n))).q else before
    ensures AfterSteps(grad, eps, L, rand, q, n + 1, sample,
      if (n + 1) % 10 == 0 then pool + [sample] else pool, acceptNum + if accepted then 1 else 0)
  {
    ChainStep(grad, eps, L, rand, q, n, before, sample, accepted);
    NextTenth(grad, eps, L, rand, q, n, pool, sample);
  }

  /** HMC: the pool holds every tenth state of the chain, and the executor ends at the last one. */
  method HMC(
    grad: Vector -> Vector, eps: real, L: nat, rand: Randomness, sampleNum: nat, exe: array<real>)
    returns (pool: seq<Vector>, acceptNum: nat)
    requires Gradient(grad) && Draws(rand, exe.Length)
    modifies exe
    ensures AfterSteps(grad, eps, L, rand, old(exe[..]), sampleNum, exe[..], pool, acceptNum)
  {
    pool, acceptNum := [], 0;
    ghost var start := exe[..];
    for i := 0 to sampleNum
      invariant AfterSteps(grad, eps, L, rand, start, i, exe[..], pool, acceptNum)
    {
      ghost var before := exe[..];
      var sample, accepted := StepHMC(grad, eps, L, rand, i, exe);
      OneMoreStep(grad, eps, L, rand, start, i, before, pool, acceptNum, sample, accepted);
      acceptNum := acceptNum + if accepted then 1 else 0;
      if (i + 1) % 10 == 0 {
        pool := pool + [sample];
      }
    }
  }
}
