/**
 * sample_test_acc of example/bayesian-methods/utils.py: the predictions of a network averaged over a pool of weighted
 * parameter samples, batch by batch. Numbers are reals; the network is any function of parameters and a data row.
 */
module SampleAverage {
  import opened Basics

  type Value = seq<real>
  type Params = map<string, Value>
  type Output = seq<real>

  /** A pool entry: a list [weight, parameters], or parameters alone. */
  datatype Sample = Weighted(amount: real, param: Params) | Plain(param: Params)

  function Weight(s: Sample): real {
    match s
    case Weighted(w, _) => w
    case Plain(_) => 1.0
  }

  // ---- Weighted sums of vectors ----

  function Zeros(n: nat): Output {
    seq(n, _ => 0.0)
  }

  /** The in-place update of one row: pred += ratio * out. */
  function AddScaled(pred: Output, ratio: real, out: Output): (r: Output)
    requires |pred| == |out|
    ensures |r| == |pred| && forall l :: 0 <= l < |r| ==> r[l] == Plus(pred[l], ratio, out[l])
  {
    seq(|pred|, l requires 0 <= l < |pred| => Plus(pred[l], ratio, out[l]))
  }

  function Plus(p: real, ratio: real, o: real): real {
    p + ratio * o
  }

  function Sum(s: seq<real>): real {
    if s == [] then 0.0 else Sum(s[..|s| - 1]) + s[|s| - 1]
  }

  /** What Sum is: nothing for no terms, and one term more adds that term. */
  lemma SumLaw(s: seq<real>, x: real)
    ensures Sum([]) == 0.0 && Sum(s + [x]) == Sum(s) + x
  {
    assert (s + [x])[..|s|] == s;
  }

  ghost predicate Shaped(outs: seq<Output>, labels: nat) {
    forall k :: 0 <= k < |outs| ==> |outs[k]| == labels
  }

  /** The scaled outputs added up in pool order, starting from zeros. */
  function Blend(ratios: seq<real>, outs: seq<Output>, labels: nat): (r: Output)
    requires |ratios| == |outs| && Shaped(outs, labels)
    ensures |r| == labels
  {
    if outs == [] then Zeros(labels) else
    var n := |outs| - 1;
    AddScaled(Blend(ratios[..n], outs[..n], labels), ratios[n], outs[n])
  }

  /** The weighted sum of label l over the outputs. */
  function WeightedSum(weights: seq<real>, outs: seq<Output>, labels: nat, l: nat): real
    requires |weights| == |outs| && Shaped(outs, labels) && l < labels
  {
    if outs == [] then 0.0 else
    var n := |outs| - 1;
    WeightedSum(weights[..n], outs[..n], labels, l) + weights[n] * outs[n][l]
  }

  /** The terms of the weighted sum of label l. */
  ghost function Terms(weights: seq<real>, outs: seq<Output>, labels: nat, l: nat): (r: seq<real>)
    requires |weights| == |outs| && Shaped(outs, labels) && l < labels
    ensures |r| == |outs| && forall k :: 0 <= k < |outs| ==> r[k] == weights[k] * outs[k][l]
  {
    seq(|outs|, k requires 0 <= k < |outs| => weights[k] * outs[k][l])
  }

  lemma {:induction false} WeightedSumIsSum(weights: seq<real>, outs: seq<Output>, labels: nat, l: nat)
    requires |weights| == |outs| && Shaped(outs, labels) && l < labels
    ensures WeightedSum(weights, outs, labels, l) == Sum(Terms(weights, outs, labels, l))
  {
    if outs != [] {
      var n := |outs| - 1;
      WeightedSumIsSum(weights[..n], outs[..n], labels, l);
      var a, b := Terms(weights, outs, labels, l), Terms(weights[..n], outs[..n], labels, l);
      forall k | 0 <= k < n ensures a[k] == b[k] {
        assert weights[..n][k] == weights[k] && outs[..n][k] == outs[k];
      }
      assert a[..n] == b;
    }
  }

  /** The ratios of the weights: each is its weight over the total. */
  ghost predicate Ratios(weights: seq<real>, total: real, ratios: seq<real>) {
    |ratios| == |weights| && forall k :: 0 <= k < |weights| ==> Times(ratios[k], total) == weights[k]
  }

  /** Blending by the ratios is the weighted average: times the total it is the weighted sum. */
  lemma {:induction false} BlendIsWeightedAverage(
    weights: seq<real>, total: real, ratios: seq<real>, outs: seq<Output>, labels: nat, l: nat)
    requires Ratios(weights, total, ratios) && |outs| == |weights| && Shaped(outs, labels) && l < labels
    ensures Times(Blend(ratios, outs, labels)[l], total) == WeightedSum(weights, outs, labels, l)
  {
    if outs != [] {
      var n := |outs| - 1;
      BlendIsWeightedAverage(weights[..n], total, ratios[..n], outs[..n], labels, l);
      var before, r, o := Blend(ratios[..n], outs[..n], labels)[l], ratios[n], outs[n][l];
      assert (before + r * o) * total == before * total + (r * total) * o;
    }
  }

  lemma {:induction false} RatiosAddUp(weights: seq<real>, total: real, ratios: seq<real>)
    requires Ratios(weights, total, ratios)
    ensures Times(Sum(ratios), total) == Sum(weights)
  {
    if weights != [] {
      var n := |weights| - 1;
      RatiosAddUp(weights[..n], total, ratios[..n]);
    }
  }

  /** The ratios sum to one. */
  lemma RatiosSumToOne(weights: seq<real>, ratios: seq<real>)
    requires Sum(weights) != 0.0 && Ratios(weights, Sum(weights), ratios)
    ensures Sum(ratios) == 1.0
  {
    RatiosAddUp(weights, Sum(weights), ratios);
    Cancel(Sum(ratios), Sum(weights));
  }

  function Times(x: real, y: real): real {
    x * y
  }

  lemma Cancel(x: real, t: real)
    requires Times(x, t) == t && t != 0.0
    ensures x == 1.0
  {
    assert (x - 1.0) * t == 0.0;
  }

  lemma {:induction false} SumOfAddScaled(pred: Output, ratio: real, out: Output)
    requires |pred| == |out|
    ensures Sum(AddScaled(pred, ratio, out)) == Sum(pred) + ratio * Sum(out)
  {
    if pred != [] {
      var n := |pred| - 1;
      SumOfAddScaled(pred[..n], ratio, out[..n]);
      assert AddScaled(pred, ratio, out)[..n] == AddScaled(pred[..n], ratio, out[..n]);
      Distribute(ratio, Sum(out[..n]), out[n]);
    }
  }

  lemma Distribute(ratio: real, a: real, b: real)
    ensures ratio * (a + b) == ratio * a + ratio * b
  {
  }

  lemma {:induction false} SumOfZeros(n: nat)
    ensures Sum(Zeros(n)) == 0.0
  {
    if n > 0 {
      SumOfZeros(n - 1);
      assert Zeros(n)[..n - 1] == Zeros(n - 1);
    }
  }

  ghost predicate Nonnegative(s: seq<real>) {
    forall l :: 0 <= l < |s| ==> s[l] >= 0.0
  }

  ghost predicate Distribution(s: seq<real>) {
    Nonnegative(s) && Sum(s) == 1.0
  }

  lemma ScaledNonnegative(pred: Output, ratio: real, out: Output)
    requires |pred| == |out| && Nonnegative(pred) && ratio >= 0.0 && Nonnegative(out)
    ensures Nonnegative(AddScaled(pred, ratio, out))
  {
    forall l | 0 <= l < |pred| ensures Plus(pred[l], ratio, out[l]) >= 0.0 {
      assert ratio * out[l] >= 0.0;
    }
  }

  lemma {:induction false} BlendOfDistributions(ratios: seq<real>, outs: seq<Output>, labels: nat)
    requires |ratios| == |outs| && Shaped(outs, labels) && Nonnegative(ratios)
    requires forall k :: 0 <= k < |outs| ==> Distribution(outs[k])
    ensures Nonnegative(Blend(ratios, outs, labels)) && Sum(Blend(ratios, outs, labels)) == Sum(ratios)
  {
    if outs == [] {
      SumOfZeros(labels);
    } else {
      var n := |outs| - 1;
      BlendOfDistributions(ratios[..n], outs[..n], labels);
      SumOfAddScaled(Blend(ratios[..n], outs[..n], labels), ratios[n], outs[n]);
      ScaledNonnegative(Blend(ratios[..n], outs[..n], labels), ratios[n], outs[n]);
    }
  }

  /** With positive weights the average of distributions is a distribution. */
  lemma AverageIsDistribution(weights: seq<real>, ratios: seq<real>, outs: seq<Output>, labels: nat)
    requires weights != [] && |outs| == |weights| && Shaped(outs, labels)
    requires forall k :: 0 <= k < |weights| ==> weights[k] > 0.0
    requires Ratios(weights, Sum(weights), ratios)
    requires forall k :: 0 <= k < |outs| ==> Distribution(outs[k])
    ensures Distribution(Blend(ratios, outs, labels))
  {
    PositiveSum(weights);
    RatiosSumToOne(weights, ratios);
    forall k | 0 <= k < |ratios| ensures ratios[k] >= 0.0 {
      PositiveQuotient(ratios[k], Sum(weights), weights[k]);
    }
    BlendOfDistributions(ratios, outs, labels);
  }

  lemma {:induction false} PositiveSum(weights: seq<real>)
    requires weights != [] && forall k :: 0 <= k < |weights| ==> weights[k] > 0.0
    ensures Sum(weights) > 0.0
  {
    var n := |weights| - 1;
    if n > 0 {
      PositiveSum(weights[..n]);
    }
  }

  lemma PositiveQuotient(r: real, total: real, w: real)
    requires total > 0.0 && w > 0.0 && r * total == w
    ensures r > 0.0
  {
  }

  // ---- The batches of NDArrayIter ----

  type Row = seq<real>

  /** The rows of the batch at a cursor: past the end it is filled up with rows from the start. */
  function BatchAt(rows: seq<Row>, cursor: nat, size: nat): (r: seq<Row>)
    requires cursor < |rows| && size <= |rows|
    ensures |r| == size
    ensures forall i :: 0 <= i < size && cursor + i < |rows| ==> r[i] == rows[cursor + i]
  {
    if cursor + size <= |rows| then rows[cursor..cursor + size]
    else rows[cursor..] + rows[..cursor + size - |rows|]
  }

  function Pad(n: nat, cursor: nat, size: nat): nat {
    if cursor + size > n then cursor + size - n else 0
  }

  // ---- The executor ----

  type Network = (Params, Row) -> Output

  /** What the network gives for every row of a batch. */
  function Outputs(net: Network, params: Params, batch: seq<Row>): seq<Output> {
    seq(|batch|, i requires 0 <= i < |batch| => net(params, batch[i]))
  }

  /** One row after a pass: the row before it plus the scaled output for the instance. */
  ghost predicate RowDone(before: Output, after: Output, ratio: real, out: Output) {
    |out| == |before| && after == AddScaled(before, ratio, out)
  }

  ghost predicate PassDone(
    net: Network, params: Params, rows: seq<Row>, ratio: real, before: seq<Output>, after: seq<Output>)
  {
    && |before| == |after| == |rows|
    && forall i :: 0 <= i < |rows| ==> RowDone(before[i], after[i], ratio, net(params, rows[i]))
  }

  /** The slice update pred[at..] += ratio * outs. */
  method AddBatch(pred: seq<Output>, at: nat, ratio: real, outs: seq<Output>, labels: nat) returns (r: seq<Output>)
    requires at + |outs| <= |pred| && Shaped(pred, labels) && Shaped(outs, labels)
    ensures |r| == |pred| && Shaped(r, labels)
    ensures forall i :: 0 <= i < |outs| ==> RowDone(pred[at + i], r[at + i], ratio, outs[i])
    ensures forall i :: 0 <= i < at || at + |outs| <= i < |pred| ==> r[i] == pred[i]
  {
    r := pred;
    for i := 0 to |outs|
      invariant |r| == |pred| && Shaped(r, labels)
      invariant forall j :: 0 <= j < i ==> RowDone(pred[at + j], r[at + j], ratio, outs[j])
      invariant forall j :: 0 <= j < at || at + i <= j < |pred| ==> r[j] == pred[j]
    {
      r := r[at + i := AddScaled(r[at + i], ratio, outs[i])];
    }
  }

  class Executor {
    var params: Params
    var data: seq<Row>

    /** copy_params_from: overwrites the named parameters, and refuses a name the executor does not have. */
    method CopyParamsFrom(source: Params) returns (ok: bool)
      modifies this`params
      ensures ok <==> source.Keys <= old(params.Keys)
      ensures ok ==> params == old(params) + source
      ensures params.Keys == old(params.Keys)
    {
      ok := source.Keys <= params.Keys;
      if ok {
        params := params + source;
      }
    }

    /** One walk of the iterator: every instance's prediction gains the scaled output for that instance, once. */
    method AddPass(net: Network, rows: seq<Row>, size: nat, labels: nat, ratio: real, pred: seq<Output>)
      returns (r: seq<Output>)
      requires 0 < size <= |rows| == |pred| && Shaped(pred, labels) && forall p, x :: |net(p, x)| == labels
      modifies this`data
      ensures |r| == |pred| && Shaped(r, labels)
      ensures PassDone(net, params, rows, ratio, pred, r)
    {
      r := pred;
      var instance, cursor := 0, 0;
      while cursor < |rows|
        invariant 0 <= instance <= |rows| && instance == if cursor <= |rows| then cursor else |rows|
        invariant |r| == |pred| && Shaped(r, labels)
        invariant forall i :: 0 <= i < instance ==> RowDone(pred[i], r[i], ratio, net(params, rows[i]))
        invariant forall i :: instance <= i < |rows| ==> r[i] == pred[i]
      {
        data := BatchAt(rows, cursor, size);
        var outs := Outputs(net, params, data);
        var count := size - Pad(|rows|, cursor, size);
        ghost var before := r;
        r := AddBatch(r, instance, ratio, outs[..count], labels);
        forall i | instance <= i < instance + count ensures RowDone(pred[i], r[i], ratio, net(params, rows[i])) {
          assert RowDone(before[instance + (i - instance)], r[instance + (i - instance)], ratio, outs[i - instance]);
        }
        instance := instance + count;
        cursor := cursor + size;
      }
    }
  }

  // ---- The pool ----

  /** The parameters in force for sample k: each sample overwrites the parameters it names and leaves the others. */
  function InForce(params: Params, pool: seq<Sample>, k: nat): (r: Params)
    requires k <= |pool|
  {
    if k == 0 then params else InForce(params, pool, k - 1) + pool[k - 1].param
  }

  /** The outputs of all samples for one row. */
  function PoolOutputs(net: Network, params: Params, pool: seq<Sample>, n: nat, row: Row): (r: seq<Output>)
    requires n <= |pool|
    ensures |r| == n
  {
    seq(n, k requires 0 <= k < n => net(InForce(params, pool, k + 1), row))
  }

  function Weights(pool: seq<Sample>): (r: seq<real>)
    ensures |r| == |pool|
  {
    seq(|pool|, k requires 0 <= k < |pool| => Weight(pool[k]))
  }

  /** The weights the pool gives: the amount of a weighted sample, one for a plain one. */
  ghost predicate HasWeights(pool: seq<Sample>, ws: seq<real>) {
    |ws| == |pool| && forall k :: 0 <= k < |pool| ==> ws[k] == if pool[k].Weighted? then pool[k].amount else 1.0
  }

  lemma WeightsAreGiven(pool: seq<Sample>, ws: seq<real>)
    ensures HasWeights(pool, ws) <==> ws == Weights(pool)
  {
    assert forall k :: 0 <= k < |pool| ==> Weights(pool)[k] == if pool[k].Weighted? then pool[k].amount else 1.0;
  }

  ghost predicate Known(params: Params, pool: seq<Sample>) {
    forall k :: 0 <= k < |pool| ==> pool[k].param.Keys <= params.Keys
  }

  lemma {:induction false} InForceKeepsNames(params: Params, pool: seq<Sample>, k: nat)
    requires k <= |pool| && Known(params, pool[..k])
    ensures InForce(params, pool, k).Keys == params.Keys
  {
    if k > 0 {
      assert pool[..k][k - 1] == pool[k - 1];
      assert pool[..k][..k - 1] == pool[..k - 1];
      InForceKeepsNames(params, pool, k - 1);
    }
  }

  /** A sample that names every parameter is in force unmixed. */
  lemma CompleteSampleStandsAlone(params: Params, pool: seq<Sample>, k: nat)
    requires k < |pool| && Known(params, pool) && pool[k].param.Keys == params.Keys
    ensures InForce(params, pool, k + 1) == pool[k].param
  {
    InForceKeepsNames(params, pool, k);
  }

  /** A parameter has the value of the last sample so far that names it, or its old value when none does. */
  lemma {:induction false} LastNamingSampleRules(params: Params, pool: seq<Sample>, k: nat, j: nat, name: string)
    requires k < |pool| && j <= k && forall m :: j < m <= k ==> name !in pool[m].param
    ensures name in pool[j].param ==>
      name in InForce(params, pool, k + 1) && InForce(params, pool, k + 1)[name] == pool[j].param[name]
    ensures j == 0 && name !in pool[0].param && name in params ==>
      name in InForce(params, pool, k + 1) && InForce(params, pool, k + 1)[name] == params[name]
  {
    if j < k {
      LastNamingSampleRules(params, pool, k - 1, j, name);
    }
    assert InForce(params, pool, k + 1) == InForce(params, pool, k) + pool[k].param;
  }

  /** The loop that adds up the weights. */
  method Denominator(pool: seq<Sample>) returns (d: real)
    ensures d == Sum(Weights(pool))
    ensures forall ws :: HasWeights(pool, ws) ==> d == Sum(ws)
  {
    d := 0.0;
    for k := 0 to |pool|
      invariant d == Sum(Weights(pool)[..k])
    {
      assert Weights(pool)[..k + 1][..k] == Weights(pool)[..k];
      d := d + Weight(pool[k]);
    }
    assert Weights(pool)[..|pool|] == Weights(pool);
    forall ws | HasWeights(pool, ws) ensures d == Sum(ws) {
      WeightsAreGiven(pool, ws);
    }
  }

  /** Every instance has blended the first n samples. */
  ghost predicate Blended(
    net: Network, params: Params, pool: seq<Sample>, rows: seq<Row>, labels: nat, ratios: seq<real>, pred: seq<Output>)
  {
    && |ratios| <= |pool| && |pred| == |rows|
    && forall i :: 0 <= i < |rows| ==> InstanceBlended(net, params, pool, rows[i], labels, ratios, pred[i])
  }

  ghost predicate InstanceBlended(
    net: Network, params: Params, pool: seq<Sample>, row: Row, labels: nat, ratios: seq<real>, pred: Output)
    requires |ratios| <= |pool|
  {
    var outs := PoolOutputs(net, params, pool, |ratios|, row);
    Shaped(outs, labels) && pred == Blend(ratios, outs, labels)
  }

  lemma InstanceBlendsNext(
    net: Network, params: Params, pool: seq<Sample>, row: Row, labels: nat, ratios: seq<real>, ratio: real,
    before: Output, after: Output)
    requires |ratios| < |pool| && InstanceBlended(net, params, pool, row, labels, ratios, before)
    requires RowDone(before, after, ratio, net(InForce(params, pool, |ratios| + 1), row))
    ensures InstanceBlended(net, params, pool, row, labels, ratios + [ratio], after)
  {
    var n := |ratios|;
    var ratios', outs' := ratios + [ratio], PoolOutputs(net, params, pool, n + 1, row);
    assert ratios'[..n] == ratios;
    assert outs'[..n] == PoolOutputs(net, params, pool, n, row);
  }

  /** One sample has been blended into every instance. */
  lemma BlendsNext(
    net: Network, params: Params, pool: seq<Sample>, rows: seq<Row>, labels: nat, ratios: seq<real>, ratio: real,
    before: seq<Output>, after: seq<Output>)
    requires Blended(net, params, pool, rows, labels, ratios, before) && |ratios| < |pool| && |after| == |rows|
    requires PassDone(net, InForce(params, pool, |ratios| + 1), rows, ratio, before, after)
    ensures Blended(net, params, pool, rows, labels, ratios + [ratio], after)
  {
    forall i | 0 <= i < |rows| ensures InstanceBlended(net, params, pool, rows[i], labels, ratios + [ratio], after[i]) {
      InstanceBlendsNext(net, params, pool, rows[i], labels, ratios, ratio, before[i], after[i]);
    }
  }

  lemma NextRatio(weights: seq<real>, total: real, ratios: seq<real>, ratio: real)
    requires |ratios| < |weights| && Ratios(weights[..|ratios|], total, ratios)
    requires total != 0.0 && ratio == weights[|ratios|] / total
    ensures Ratios(weights[..|ratios| + 1], total, ratios + [ratio])
  {
    assert Times(ratio, total) == weights[|ratios|];
  }

  lemma NothingBlended(net: Network, params: Params, pool: seq<Sample>, rows: seq<Row>, labels: nat)
    ensures Blended(net, params, pool, rows, labels, [], seq(|rows|, _ => Zeros(labels)))
  {
  }

  lemma KnownNext(params: Params, pool: seq<Sample>, k: nat)
    requires k < |pool| && Known(params, pool[..k])
    ensures Known(params, pool[..k + 1]) <==> pool[k].param.Keys <= params.Keys
    ensures Known(params, pool) ==> pool[k].param.Keys <= params.Keys
  {
    assert pool[..k + 1] == pool[..k] + [pool[k]];
  }

  /** Writing the old parameters back over any that have the same names. */
  lemma OverwriteAll(current: Params, before: Params)
    requires current.Keys == before.Keys
    ensures current + before == before
  {
  }

  /**
   * The sampling branch: afterwards every instance's prediction blends the outputs of all samples by ratios that
   * are the weights over their total, and the executor has its parameters and data back. It fails exactly when a
   * sample names a parameter the executor does not have.
   */
  method Predict(exe: Executor, net: Network, pool: seq<Sample>, rows: seq<Row>, size: nat, labels: nat)
    returns (r: Option<seq<Output>>, ghost ratios: seq<real>)
    requires 0 < size <= |rows| && forall p, x :: |net(p, x)| == labels
    requires pool == [] || Sum(Weights(pool)) != 0.0
    modifies exe
    ensures r.Some? <==> Known(old(exe.params), pool)
    ensures r.Some? ==> exe.params == old(exe.params) && exe.data == old(exe.data)
    ensures r.Some? ==> Ratios(Weights(pool), Sum(Weights(pool)), ratios)
    ensures r.Some? ==> forall ws :: HasWeights(pool, ws) ==> Ratios(ws, Sum(ws), ratios)
    ensures r.Some? ==> Blended(net, old(exe.params), pool, rows, labels, ratios, r.value)
  {
    ratios := [];
    var pred := seq(|rows|, _ => Zeros(labels));
    var oldParams, oldData := exe.params, exe.data;
    var denominator := Denominator(pool);
    NothingBlended(net, oldParams, pool, rows, labels);
    for k := 0 to |pool|
      invariant Shaped(pred, labels) && |ratios| == k && Known(oldParams, pool[..k])
      invariant exe.params == InForce(oldParams, pool, k)
      invariant Ratios(Weights(pool)[..k], denominator, ratios)
      invariant Blended(net, oldParams, pool, rows, labels, ratios, pred)
    {
      InForceKeepsNames(oldParams, pool, k);
      KnownNext(oldParams, pool, k);
      var ratio := Weight(pool[k]) / denominator;
      var ok := exe.CopyParamsFrom(pool[k].param);
      if !ok {
        return None, ratios;
      }
      ghost var before := pred;
      pred := exe.AddPass(net, rows, size, labels, ratio, pred);
      BlendsNext(net, oldParams, pool, rows, labels, ratios, ratio, before, pred);
      NextRatio(Weights(pool), denominator, ratios, ratio);
      ratios := ratios + [ratio];
    }
    assert pool[..|pool|] == pool && Weights(pool)[..|pool|] == Weights(pool);
    InForceKeepsNames(oldParams, pool, |pool|);
    OverwriteAll(exe.params, oldParams);
    forall ws | HasWeights(pool, ws) ensures Ratios(ws, Sum(ws), ratios) {
      WeightsAreGiven(pool, ws);
    }
    var restored := exe.CopyParamsFrom(oldParams);
    exe.data := oldData; // the copied argument dictionary holds the data argument as well
    r := Some(pred);
  }

  /**
   * What Predict leaves for an instance: the weighted average of the outputs of the samples, and a distribution over
   * the labels when the weights are positive and every output is one.
   */
  lemma PredictionMeaning(
    net: Network, params: Params, pool: seq<Sample>, rows: seq<Row>, labels: nat, ratios: seq<real>,
    pred: seq<Output>, i: nat)
    requires pool != [] && Ratios(Weights(pool), Sum(Weights(pool)), ratios)
    requires Blended(net, params, pool, rows, labels, ratios, pred) && i < |rows|
    ensures var outs := PoolOutputs(net, params, pool, |pool|, rows[i]);
      && Shaped(outs, labels) && |pred[i]| == labels
      && (forall l :: 0 <= l < labels ==>
        Times(pred[i][l], Sum(Weights(pool))) == WeightedSum(Weights(pool), outs, labels, l))
      && ((forall k :: 0 <= k < |pool| ==> Weight(pool[k]) > 0.0 && Distribution(outs[k])) ==> Distribution(pred[i]))
  {
    var outs := PoolOutputs(net, params, pool, |pool|, rows[i]);
    assert InstanceBlended(net, params, pool, rows[i], labels, ratios, pred[i]);
    forall l | 0 <= l < labels
      ensures Times(pred[i][l], Sum(Weights(pool))) == WeightedSum(Weights(pool), outs, labels, l)
    {
      BlendIsWeightedAverage(Weights(pool), Sum(Weights(pool)), ratios, outs, labels, l);
    }
    if forall k :: 0 <= k < |pool| ==> Weight(pool[k]) > 0.0 && Distribution(outs[k]) {
      AverageIsDistribution(Weights(pool), ratios, outs, labels);
    }
  }

  /** The same by the weights the pool gives: a prediction times their sum is the sum of weight times output. */
  lemma PredictionByGivenWeights(
    net: Network, params: Params, pool: seq<Sample>, rows: seq<Row>, labels: nat, ratios: seq<real>,
    pred: seq<Output>, ws: seq<real>, i: nat, l: nat)
    requires pool != [] && HasWeights(pool, ws) && Ratios(ws, Sum(ws), ratios)
    requires Blended(net, params, pool, rows, labels, ratios, pred) && i < |rows| && l < labels
    ensures var outs := PoolOutputs(net, params, pool, |pool|, rows[i]);
      && Shaped(outs, labels) && |pred[i]| == labels
      && pred[i][l] * Sum(ws) == Sum(Terms(ws, outs, labels, l))
  {
    WeightsAreGiven(pool, ws);
    PredictionMeaning(net, params, pool, rows, labels, ratios, pred, i);
    WeightedSumIsSum(ws, PoolOutputs(net, params, pool, |pool|, rows[i]), labels, l);
  }
}
