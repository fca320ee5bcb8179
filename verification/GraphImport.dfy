/**
 * The environment building of 3rdparty/onnx-tensorrt/ModelImporter.cpp: graph inputs are bound first,
 * then each node, in topological order, reads names from the map and writes new ones.
 * Operator importers are pure functions.
 */
module GraphImport {
  import opened Basics
  import opened Toposort

  /** A TensorOrWeights returned for one output: a value, or one of the two null forms. */
  datatype Slot<V> = Value(v: V) | NullTensor | NullWeights

  type Importer<!V> = (Node, seq<V>) -> Option<seq<Slot<V>>>

  datatype ImportError = BadInputs | NotSortable | MissingInput | NodeFailed | NameTaken | Crashed

  type Env<V> = map<string, V>

  function Lookup<V>(env: Env<V>, names: seq<string>): seq<V>
    requires forall i :: 0 <= i < |names| ==> names[i] in env
  {
    seq(|names|, i requires 0 <= i < |names| => env[names[i]])
  }

  /** importNode: unknown operators, failing importers and surplus outputs are errors. */
  function ImportNode<V>(registry: map<string, Importer<V>>, node: Node, vals: seq<V>): Option<seq<Slot<V>>> {
    if node.op !in registry then None
    else
      var outs := registry[node.op](node, vals);
      if outs.Some? && |outs.value| <= |node.outputs| then outs else None
  }

  /** The log line dereferences the first output of every node that declares one. */
  predicate CanLog<V>(node: Node, outs: seq<Slot<V>>) {
    node.outputs == [] || (outs != [] && !outs[0].NullTensor?)
  }

  // ---- The meaning of a graph: an environment that satisfies every node ----

  ghost predicate Reads<V>(node: Node, env: Env<V>) {
    forall i :: 0 <= i < |node.inputs| ==> node.inputs[i] in env
  }

  /** What the node computes from the values env gives its inputs; None when it cannot be imported. */
  ghost function Outcome<V>(registry: map<string, Importer<V>>, node: Node, env: Env<V>): (r: Option<seq<Slot<V>>>)
    ensures r.Some? ==> |r.value| <= |node.outputs|
  {
    if !Reads(node, env) then None
    else
      var outs := ImportNode(registry, node, Lookup(env, node.inputs));
      if outs.Some? && CanLog(node, outs.value) then outs else None
  }

  /** Output j of the node is bound to a value when its inputs are read from env. */
  ghost predicate Binds<V>(registry: map<string, Importer<V>>, node: Node, env: Env<V>, j: int) {
    Outcome(registry, node, env).Some? && 0 <= j < |Outcome(registry, node, env).value| &&
    Outcome(registry, node, env).value[j].Value?
  }

  ghost predicate NodeHolds<V>(registry: map<string, Importer<V>>, inputs: Env<V>, node: Node, env: Env<V>) {
    && Outcome(registry, node, env).Some?
    && forall j :: Binds(registry, node, env, j) ==>
         && node.outputs[j] in env && env[node.outputs[j]] == Outcome(registry, node, env).value[j].v
         && node.outputs[j] !in inputs
  }

  ghost predicate Extends<V>(env: Env<V>, base: Env<V>) {
    forall x :: x in base ==> x in env && env[x] == base[x]
  }

  ghost predicate Explained<V>(
    registry: map<string, Importer<V>>, inputs: Env<V>, nodes: seq<Node>, done: seq<nat>, env: Env<V>, x: string)
  {
    x in inputs ||
    exists v, j :: v in done && v < |nodes| && Binds(registry, nodes[v], env, j) && nodes[v].outputs[j] == x
  }

  /** env holds the inputs and what the nodes in `done` compute, and nothing else. */
  ghost predicate Satisfies<V>(
    registry: map<string, Importer<V>>, inputs: Env<V>, nodes: seq<Node>, done: seq<nat>, env: Env<V>)
  {
    && Extends(env, inputs)
    && (forall v :: v in done && v < |nodes| ==> NodeHolds(registry, inputs, nodes[v], env))
    && (forall x :: x in env ==> Explained(registry, inputs, nodes, done, env, x))
  }

  function AllNodes(nodes: seq<Node>): seq<nat> {
    seq(|nodes|, i => i)
  }

  ghost predicate Sortable(nodes: seq<Node>) {
    UniqueOutputs(nodes) && !HasCycle(nodes)
  }

  /** The specification of importModel: env is the meaning of the graph, whatever order the nodes are listed in. */
  ghost predicate Means<V>(registry: map<string, Importer<V>>, inputs: Env<V>, nodes: seq<Node>, env: Env<V>) {
    Sortable(nodes) && Satisfies(registry, inputs, nodes, AllNodes(nodes), env)
  }

  // ---- What a node computes, from the values of its inputs in the order listed ----

  ghost predicate ReadsValues<V>(node: Node, env: Env<V>, vals: seq<V>) {
    && |vals| == |node.inputs|
    && forall i :: 0 <= i < |vals| ==> node.inputs[i] in env && vals[i] == env[node.inputs[i]]
  }

  /** The importer of the node's operator returned outs for vals, and after binds each value to its output name. */
  ghost predicate Computes<V>(
    registry: map<string, Importer<V>>, node: Node, before: Env<V>, after: Env<V>, vals: seq<V>, outs: seq<Slot<V>>)
  {
    && ReadsValues(node, before, vals)
    && node.op in registry && registry[node.op](node, vals) == Some(outs) && |outs| <= |node.outputs|
    && (node.outputs == [] || (outs != [] && !outs[0].NullTensor?))
    && forall j :: 0 <= j < |outs| && outs[j].Value? ==> node.outputs[j] in after && after[node.outputs[j]] == outs[j].v
  }

  ghost predicate Computed<V(!new)>(registry: map<string, Importer<V>>, node: Node, before: Env<V>, after: Env<V>) {
    exists vals, outs :: Computes(registry, node, before, after, vals, outs)
  }

  /**
   * When a node can be imported: the importer of its operator returns outputs for the values of its inputs, not more
   * than the node declares, and the first one, if any is declared, can be logged.
   */
  lemma OutcomeLaw<V>(
    registry: map<string, Importer<V>>, node: Node, env: Env<V>, vals: seq<V>, outs: seq<Slot<V>>)
    requires ReadsValues(node, env, vals)
    ensures Outcome(registry, node, env) == Some(outs) <==>
      && node.op in registry && registry[node.op](node, vals) == Some(outs) && |outs| <= |node.outputs|
      && (node.outputs == [] || (outs != [] && !outs[0].NullTensor?))
  {
    assert vals == Lookup(env, node.inputs);
  }

  /** Every node has been computed from the environment into it. */
  ghost predicate AllComputed<V(!new)>(registry: map<string, Importer<V>>, nodes: seq<Node>, env: Env<V>) {
    forall v :: 0 <= v < |nodes| ==> Computed(registry, nodes[v], env, env)
  }

  /** In the meaning of a graph every node has been computed. */
  lemma MeaningComputes<V(!new)>(
    registry: map<string, Importer<V>>, inputs: Env<V>, nodes: seq<Node>, env: Env<V>, v: nat)
    requires Means(registry, inputs, nodes, env) && v < |nodes|
    ensures Computed(registry, nodes[v], env, env)
  {
    assert AllNodes(nodes)[v] == v;
    assert NodeHolds(registry, inputs, nodes[v], env);
    var vals, outs := Lookup(env, nodes[v].inputs), Outcome(registry, nodes[v], env).value;
    forall j | 0 <= j < |outs| && outs[j].Value?
      ensures nodes[v].outputs[j] in env && env[nodes[v].outputs[j]] == outs[j].v
    {
      assert Binds(registry, nodes[v], env, j);
    }
    assert Computes(registry, nodes[v], env, env, vals, outs);
  }

  // ---- Growing the environment ----

  lemma SameOutcome<V>(registry: map<string, Importer<V>>, node: Node, small: Env<V>, big: Env<V>)
    requires Extends(big, small) && Reads(node, small)
    ensures Outcome(registry, node, small) == Outcome(registry, node, big)
  {
    assert Lookup(small, node.inputs) == Lookup(big, node.inputs);
  }

  /** Binding a fresh name disturbs no node that has already been evaluated. */
  lemma BindFresh<V>(registry: map<string, Importer<V>>, inputs: Env<V>, node: Node, env: Env<V>, big: Env<V>)
    requires NodeHolds(registry, inputs, node, env) && Extends(big, env)
    ensures NodeHolds(registry, inputs, node, big)
    ensures forall j :: Binds(registry, node, big, j) <==> Binds(registry, node, env, j)
  {
    SameOutcome(registry, node, env, big);
  }

  /** The outputs bound so far by the node being evaluated: the first n slots. */
  ghost predicate Inserted<V>(node: Node, outs: seq<Slot<V>>, n: nat, before: Env<V>, env: Env<V>)
    requires n <= |outs| <= |node.outputs|
  {
    && Extends(env, before)
    && (forall j :: 0 <= j < n && outs[j].Value? ==>
          node.outputs[j] !in before && node.outputs[j] in env && env[node.outputs[j]] == outs[j].v)
    && (forall x :: x in env ==> x in before || exists j :: 0 <= j < n && outs[j].Value? && node.outputs[j] == x)
  }

  lemma NodeDone<V>(registry: map<string, Importer<V>>, inputs: Env<V>, nodes: seq<Node>, done: seq<nat>, u: nat,
                    outs: seq<Slot<V>>, before: Env<V>, env: Env<V>)
    requires Satisfies(registry, inputs, nodes, done, before) && u < |nodes|
    requires Outcome(registry, nodes[u], before) == Some(outs)
    requires Inserted(nodes[u], outs, |outs|, before, env)
    ensures Satisfies(registry, inputs, nodes, done + [u], env)
  {
    SameOutcome(registry, nodes[u], before, env);
    forall v | v in done + [u] && v < |nodes| ensures NodeHolds(registry, inputs, nodes[v], env) {
      if v in done {
        BindFresh(registry, inputs, nodes[v], before, env);
      }
    }
    forall x | x in env ensures Explained(registry, inputs, nodes, done + [u], env, x) {
      if x in before {
        ExplainedGrows(registry, inputs, nodes, done, u, before, env, x);
      } else {
        var j :| 0 <= j < |outs| && outs[j].Value? && nodes[u].outputs[j] == x;
        assert Binds(registry, nodes[u], env, j) && u in done + [u];
      }
    }
  }

  lemma ExplainedGrows<V>(registry: map<string, Importer<V>>, inputs: Env<V>, nodes: seq<Node>, done: seq<nat>, u: nat,
                          before: Env<V>, env: Env<V>, x: string)
    requires Satisfies(registry, inputs, nodes, done, before) && Extends(env, before) && x in before
    ensures Explained(registry, inputs, nodes, done + [u], env, x)
  {
    if x !in inputs {
      assert Explained(registry, inputs, nodes, done, before, x);
      var v, j :| v in done && v < |nodes| && Binds(registry, nodes[v], before, j) && nodes[v].outputs[j] == x;
      BindFresh(registry, inputs, nodes[v], before, env);
      assert v in done + [u] && Binds(registry, nodes[v], env, j);
    }
  }

  // ---- A partial environment agrees with every meaning of the graph ----

  /** A name the next node reads, if it has a meaning, has already been bound. */
  lemma InputIsReady<V>(registry: map<string, Importer<V>>, inputs: Env<V>, nodes: seq<Node>, order: seq<nat>, k: nat,
                        env: Env<V>, e: Env<V>, x: string)
    requires IsTopologicalOrder(nodes, order) && k < |order| && order[k] < |nodes|
    requires Satisfies(registry, inputs, nodes, order[..k], env)
    requires Satisfies(registry, inputs, nodes, AllNodes(nodes), e) && Extends(e, env)
    requires x in nodes[order[k]].inputs && x in e
    ensures x in env
  {
    if x !in inputs {
      assert Explained(registry, inputs, nodes, AllNodes(nodes), e, x);
      var v, j :| v in AllNodes(nodes) && v < |nodes| && Binds(registry, nodes[v], e, j) && nodes[v].outputs[j] == x;
      assert DependsOn(nodes, order[k], v);
      BoundOnceEvaluated(registry, inputs, nodes, order[..k], env, e, v, j);
    }
  }

  lemma BoundOnceEvaluated<V>(registry: map<string, Importer<V>>, inputs: Env<V>, nodes: seq<Node>, done: seq<nat>,
                              env: Env<V>, e: Env<V>, v: nat, j: int)
    requires Satisfies(registry, inputs, nodes, done, env) && Extends(e, env)
    requires v in done && v < |nodes| && Binds(registry, nodes[v], e, j)
    ensures nodes[v].outputs[j] in env
  {
    assert NodeHolds(registry, inputs, nodes[v], env);
    SameOutcome(registry, nodes[v], env, e);
    assert Binds(registry, nodes[v], env, j);
  }

  /** The next node computes in the partial environment what it computes in the meaning. */
  lemma NextNodeAgrees<V>(registry: map<string, Importer<V>>, inputs: Env<V>, nodes: seq<Node>, order: seq<nat>, k: nat,
                          env: Env<V>, e: Env<V>)
    requires IsTopologicalOrder(nodes, order) && k < |order| && order[k] < |nodes|
    requires Satisfies(registry, inputs, nodes, order[..k], env)
    requires Satisfies(registry, inputs, nodes, AllNodes(nodes), e) && Extends(e, env)
    ensures Reads(nodes[order[k]], env)
    ensures Outcome(registry, nodes[order[k]], env) == Outcome(registry, nodes[order[k]], e)
    ensures NodeHolds(registry, inputs, nodes[order[k]], e)
  {
    var node := nodes[order[k]];
    assert AllNodes(nodes)[order[k]] == order[k];
    assert NodeHolds(registry, inputs, node, e);
    forall i | 0 <= i < |node.inputs| ensures node.inputs[i] in env {
      InputIsReady(registry, inputs, nodes, order, k, env, e, node.inputs[i]);
    }
    SameOutcome(registry, node, env, e);
  }

  /** A name that a node not yet evaluated writes is not bound, unless it is a graph input. */
  lemma OutputIsFresh<V>(registry: map<string, Importer<V>>, inputs: Env<V>, nodes: seq<Node>, order: seq<nat>, k: nat,
                         env: Env<V>, j: nat)
    requires UniqueOutputs(nodes) && IsTopologicalOrder(nodes, order) && k < |order| && order[k] < |nodes|
    requires Satisfies(registry, inputs, nodes, order[..k], env)
    requires j < |nodes[order[k]].outputs| && nodes[order[k]].outputs[j] !in inputs
    ensures nodes[order[k]].outputs[j] !in env
  {
    var x := nodes[order[k]].outputs[j];
    forall v, i | v in order[..k] && v < |nodes| && Binds(registry, nodes[v], env, i)
      ensures nodes[v].outputs[i] != x
    {
      assert v != order[k];
    }
    assert !Explained(registry, inputs, nodes, order[..k], env, x);
  }

  /** With every node evaluated, the partial environment is the meaning. */
  lemma CompleteIsMeaning<V>(registry: map<string, Importer<V>>, inputs: Env<V>, nodes: seq<Node>, order: seq<nat>,
                             env: Env<V>, e: Env<V>)
    requires IsTopologicalOrder(nodes, order)
    requires Satisfies(registry, inputs, nodes, order, env)
    requires Satisfies(registry, inputs, nodes, AllNodes(nodes), e) && Extends(e, env)
    ensures env == e
  {
    forall x | x in e ensures x in env {
      if x !in inputs {
        assert Explained(registry, inputs, nodes, AllNodes(nodes), e, x);
        var v, j :| v in AllNodes(nodes) && v < |nodes| && Binds(registry, nodes[v], e, j) && nodes[v].outputs[j] == x;
        BoundOnceEvaluated(registry, inputs, nodes, order, env, e, v, j);
      }
    }
  }

  lemma SatisfiesSameNodes<V>(
    registry: map<string, Importer<V>>, inputs: Env<V>, nodes: seq<Node>, a: seq<nat>, b: seq<nat>, env: Env<V>)
    requires Satisfies(registry, inputs, nodes, a, env)
    requires forall v: nat :: v in a <==> v in b
    ensures Satisfies(registry, inputs, nodes, b, env)
  {
    forall x | x in env ensures Explained(registry, inputs, nodes, b, env, x) {
      assert Explained(registry, inputs, nodes, a, env, x);
    }
  }

  // ---- importModel ----

  /** Output i cannot be bound: its name is taken, by the environment or by an earlier output of the node. */
  ghost predicate Clash<V>(node: Node, outs: seq<Slot<V>>, before: Env<V>, i: int) {
    && 0 <= i < |outs| && |outs| <= |node.outputs| && outs[i].Value?
    && (node.outputs[i] in before || exists j :: 0 <= j < i && node.outputs[j] == node.outputs[i])
  }

  /** Binds the outputs of one node, lines 287-296; false when a name is already bound. */
  method InsertOutputs<V>(node: Node, outs: seq<Slot<V>>, before: Env<V>) returns (ok: bool, env: Env<V>)
    requires |outs| <= |node.outputs|
    ensures ok ==> Inserted(node, outs, |outs|, before, env)
    ensures !ok ==> exists i :: Clash(node, outs, before, i)
  {
    env := before;
    for i := 0 to |outs|
      invariant Inserted(node, outs, i, before, env)
    {
      if outs[i].Value? {
        if node.outputs[i] in env {
          assert Clash(node, outs, before, i);
          return false, env;
        }
        env := env[node.outputs[i] := outs[i].v];
      }
    }
    return true, env;
  }

  /** In a graph that has a meaning no node clashes, and binding its outputs stays within the meaning. */
  lemma StepAgrees<V>(registry: map<string, Importer<V>>, inputs: Env<V>, nodes: seq<Node>, order: seq<nat>, k: nat,
                      outs: seq<Slot<V>>, env: Env<V>, e: Env<V>)
    requires IsTopologicalOrder(nodes, order) && k < |order| && order[k] < |nodes|
    requires Satisfies(registry, inputs, nodes, order[..k], env)
    requires Means(registry, inputs, nodes, e) && Extends(e, env)
    requires Outcome(registry, nodes[order[k]], env) == Some(outs)
    ensures forall i :: !Clash(nodes[order[k]], outs, env, i)
    ensures forall env' :: Inserted(nodes[order[k]], outs, |outs|, env, env') ==> Extends(e, env')
  {
    var node := nodes[order[k]];
    NextNodeAgrees(registry, inputs, nodes, order, k, env, e);
    assert Outcome(registry, node, e) == Some(outs);
    forall i | 0 <= i < |outs| && outs[i].Value?
      ensures !Clash(node, outs, env, i) && node.outputs[i] in e && e[node.outputs[i]] == outs[i].v
    {
      assert Binds(registry, node, e, i);
      OutputIsFresh(registry, inputs, nodes, order, k, env, i);
    }
  }

  // ---- Importers that produce every declared output ----

  ghost predicate Total<V(!new)>(registry: map<string, Importer<V>>, node: Node) {
    && node.op in registry
    && forall vals: seq<V> :: |vals| == |node.inputs| ==> Produces(node, registry[node.op](node, vals))
  }

  ghost predicate Produces<V>(node: Node, outs: Option<seq<Slot<V>>>) {
    outs.Some? && |outs.value| == |node.outputs| && forall j :: 0 <= j < |outs.value| ==> outs.value[j].Value?
  }

  /** Every name a node reads is a graph input or some node's output. */
  ghost predicate Closed<V>(nodes: seq<Node>, inputs: Env<V>) {
    forall u, x :: 0 <= u < |nodes| && x in nodes[u].inputs ==>
      x in inputs || exists v :: 0 <= v < |nodes| && x in nodes[v].outputs
  }

  ghost predicate OutputsAvoidInputs<V>(nodes: seq<Node>, inputs: Env<V>) {
    forall v, x :: 0 <= v < |nodes| && x in nodes[v].outputs ==> x !in inputs
  }

  ghost predicate AllTotal<V(!new)>(registry: map<string, Importer<V>>, nodes: seq<Node>) {
    forall v :: 0 <= v < |nodes| ==> Total(registry, nodes[v])
  }

  lemma TotalNodeProduces<V(!new)>(registry: map<string, Importer<V>>, node: Node, env: Env<V>)
    requires Total(registry, node) && Reads(node, env)
    ensures Produces(node, Outcome(registry, node, env))
  {
    assert |Lookup(env, node.inputs)| == |node.inputs|;
    assert Produces(node, registry[node.op](node, Lookup(env, node.inputs)));
  }

  /** With total importers and a closed graph the next node finds all its inputs. */
  lemma TotalNextReads<V(!new)>(
    registry: map<string, Importer<V>>, inputs: Env<V>, nodes: seq<Node>, order: seq<nat>, k: nat, env: Env<V>)
    requires IsTopologicalOrder(nodes, order) && k < |order| && order[k] < |nodes|
    requires Satisfies(registry, inputs, nodes, order[..k], env)
    requires AllTotal(registry, nodes) && Closed(nodes, inputs)
    ensures Reads(nodes[order[k]], env)
  {
    var node := nodes[order[k]];
    forall i | 0 <= i < |node.inputs| ensures node.inputs[i] in env {
      var x := node.inputs[i];
      if x !in inputs {
        var v: nat :| v < |nodes| && x in nodes[v].outputs;
        assert DependsOn(nodes, order[k], v);
        assert NodeHolds(registry, inputs, nodes[v], env);
        TotalNodeProduces(registry, nodes[v], env);
        var j :| 0 <= j < |nodes[v].outputs| && nodes[v].outputs[j] == x;
        assert Binds(registry, nodes[v], env, j);
      }
    }
  }

  lemma TotalNeverClashes<V(!new)>(
    registry: map<string, Importer<V>>, inputs: Env<V>, nodes: seq<Node>, order: seq<nat>, k: nat,
    outs: seq<Slot<V>>, env: Env<V>, i: int)
    requires UniqueOutputs(nodes) && IsTopologicalOrder(nodes, order) && k < |order| && order[k] < |nodes|
    requires Satisfies(registry, inputs, nodes, order[..k], env) && OutputsAvoidInputs(nodes, inputs)
    ensures !Clash(nodes[order[k]], outs, env, i)
  {
    if Clash(nodes[order[k]], outs, env, i) {
      OutputIsFresh(registry, inputs, nodes, order, k, env, i);
      assert false;
    }
  }

  lemma TotalMeaningAvoidsInputs<V(!new)>(
    registry: map<string, Importer<V>>, inputs: Env<V>, nodes: seq<Node>, env: Env<V>)
    requires AllTotal(registry, nodes) && Means(registry, inputs, nodes, env)
    ensures OutputsAvoidInputs(nodes, inputs)
  {
    forall v, x | 0 <= v < |nodes| && x in nodes[v].outputs ensures x !in inputs {
      assert AllNodes(nodes)[v] == v;
      assert NodeHolds(registry, inputs, nodes[v], env);
      TotalNodeProduces(registry, nodes[v], env);
      var j :| 0 <= j < |nodes[v].outputs| && nodes[v].outputs[j] == x;
      assert Binds(registry, nodes[v], env, j);
    }
  }

  /** One round of the loop over the topological order, lines 277-305. */
  method EvaluateNode<V(!new)>(
    registry: map<string, Importer<V>>, node: Node, env: Env<V>)
    returns (r: Result<Env<V>, ImportError>)
    ensures r == Err(MissingInput) <==> !Reads(node, env)
    ensures r != Err(NotSortable) && r != Err(BadInputs)
    ensures r.Ok? ==>
              && Outcome(registry, node, env).Some?
              && Inserted(node, Outcome(registry, node, env).value, |Outcome(registry, node, env).value|, env, r.value)
    ensures r.Ok? ==> Computed(registry, node, env, r.value)
    ensures r.Err? && Outcome(registry, node, env).Some? ==>
              exists i :: Clash(node, Outcome(registry, node, env).value, env, i)
  {
    for i := 0 to |node.inputs|
      invariant forall j :: 0 <= j < i ==> node.inputs[j] in env
    {
      if node.inputs[i] !in env {
        return Err(MissingInput);
      }
    }
    var outs := ImportNode(registry, node, Lookup(env, node.inputs));
    if outs.None? {
      return Err(NodeFailed);
    }
    var inserted, grown := InsertOutputs(node, outs.value, env);
    if !inserted {
      return Err(NameTaken);
    }
    if !CanLog(node, outs.value) {
      return Err(Crashed);
    }
    assert Computes(registry, node, env, grown, Lookup(env, node.inputs), outs.value);
    return Ok(grown);
  }

  lemma RoundAgrees<V>(
    registry: map<string, Importer<V>>, inputs: Env<V>, nodes: seq<Node>, order: seq<nat>, k: nat, env: Env<V>,
    e: Env<V>)
    requires IsTopologicalOrder(nodes, order) && k < |order| && order[k] < |nodes|
    requires Satisfies(registry, inputs, nodes, order[..k], env)
    requires Means(registry, inputs, nodes, e) && Extends(e, env)
    ensures Outcome(registry, nodes[order[k]], env).Some?
    ensures
      var outs := Outcome(registry, nodes[order[k]], env).value;
      && (forall i :: !Clash(nodes[order[k]], outs, env, i))
      && (forall env' :: Inserted(nodes[order[k]], outs, |outs|, env, env') ==> Extends(e, env'))
  {
    NextNodeAgrees(registry, inputs, nodes, order, k, env, e);
    StepAgrees(registry, inputs, nodes, order, k, Outcome(registry, nodes[order[k]], env).value, env, e);
  }

  lemma TotalRound<V(!new)>(
    registry: map<string, Importer<V>>, inputs: Env<V>, nodes: seq<Node>, order: seq<nat>, k: nat, env: Env<V>)
    requires UniqueOutputs(nodes) && IsTopologicalOrder(nodes, order) && k < |order| && order[k] < |nodes|
    requires Satisfies(registry, inputs, nodes, order[..k], env)
    requires AllTotal(registry, nodes) && Closed(nodes, inputs)
    ensures Reads(nodes[order[k]], env) && Outcome(registry, nodes[order[k]], env).Some?
    ensures OutputsAvoidInputs(nodes, inputs) ==>
              forall i :: !Clash(nodes[order[k]], Outcome(registry, nodes[order[k]], env).value, env, i)
  {
    TotalNextReads(registry, inputs, nodes, order, k, env);
    TotalNodeProduces(registry, nodes[order[k]], env);
    if OutputsAvoidInputs(nodes, inputs) {
      forall i ensures !Clash(nodes[order[k]], Outcome(registry, nodes[order[k]], env).value, env, i) {
        TotalNeverClashes(registry, inputs, nodes, order, k, Outcome(registry, nodes[order[k]], env).value, env, i);
      }
    }
  }

  /**
   * importModel from the bound graph inputs on. It succeeds exactly on graphs that have a meaning, with that
   * meaning; with total importers those are the sortable closed graphs in which no output reuses an input name.
   */
  method ImportNodes<V(!new)>(registry: map<string, Importer<V>>, inputs: Env<V>, nodes: seq<Node>)
    returns (r: Result<Env<V>, ImportError>)
    ensures r.Ok? ==> Means(registry, inputs, nodes, r.value)
    ensures r.Ok? ==> AllComputed(registry, nodes, r.value)
    ensures forall e :: Means(registry, inputs, nodes, e) ==> r == Ok(e)
    ensures r == Err(NotSortable) <==> !Sortable(nodes)
    ensures r != Err(BadInputs)
    ensures AllTotal(registry, nodes) && Closed(nodes, inputs) ==> r != Err(MissingInput)
    ensures AllTotal(registry, nodes) ==>
              (r.Ok? <==> Sortable(nodes) && Closed(nodes, inputs) && OutputsAvoidInputs(nodes, inputs))
  {
    var ok, order := Sort(nodes);
    if !ok {
      return Err(NotSortable);
    }
    var env := inputs;
    for k := 0 to |order|
      invariant Satisfies(registry, inputs, nodes, order[..k], env)
      invariant forall e :: Means(registry, inputs, nodes, e) ==> Extends(e, env)
    {
      assert order[k] in order;
      var next := EvaluateNode(registry, nodes[order[k]], env);
      forall e | Means(registry, inputs, nodes, e) ensures next.Ok? && Extends(e, next.value) {
        RoundAgrees(registry, inputs, nodes, order, k, env, e);
      }
      if next.Err? {
        if AllTotal(registry, nodes) && Closed(nodes, inputs) {
          TotalRound(registry, inputs, nodes, order, k, env);
        }
        return next;
      }
      ghost var outs := Outcome(registry, nodes[order[k]], env).value;
      NodeDone(registry, inputs, nodes, order[..k], order[k], outs, env, next.value);
      assert order[..k] + [order[k]] == order[..k + 1];
      env := next.value;
    }
    assert order[..|order|] == order;
    FinishImport(registry, inputs, nodes, order, env);
    return Ok(env);
  }

  lemma FinishImport<V(!new)>(
    registry: map<string, Importer<V>>, inputs: Env<V>, nodes: seq<Node>, order: seq<nat>, env: Env<V>)
    requires Sortable(nodes) && IsTopologicalOrder(nodes, order) && Satisfies(registry, inputs, nodes, order, env)
    requires forall e :: Means(registry, inputs, nodes, e) ==> Extends(e, env)
    ensures Means(registry, inputs, nodes, env)
    ensures forall e :: Means(registry, inputs, nodes, e) ==> e == env
    ensures Closed(nodes, inputs) && AllComputed(registry, nodes, env)
    ensures AllTotal(registry, nodes) ==> OutputsAvoidInputs(nodes, inputs)
  {
    forall e | Means(registry, inputs, nodes, e) ensures e == env {
      CompleteIsMeaning(registry, inputs, nodes, order, env, e);
    }
    forall v: nat ensures v in order <==> v in AllNodes(nodes) {
      if v < |nodes| { assert AllNodes(nodes)[v] == v; }
    }
    SatisfiesSameNodes(registry, inputs, nodes, order, AllNodes(nodes), env);
    MeaningIsClosed(registry, inputs, nodes, env);
    forall v | 0 <= v < |nodes| ensures Computed(registry, nodes[v], env, env) {
      MeaningComputes(registry, inputs, nodes, env, v);
    }
    if AllTotal(registry, nodes) {
      TotalMeaningAvoidsInputs(registry, inputs, nodes, env);
    }
  }

  /** In a graph that has a meaning every name a node reads is a graph input or some node's output. */
  lemma MeaningIsClosed<V>(registry: map<string, Importer<V>>, inputs: Env<V>, nodes: seq<Node>, env: Env<V>)
    requires Means(registry, inputs, nodes, env)
    ensures Closed(nodes, inputs)
  {
    forall u, x | 0 <= u < |nodes| && x in nodes[u].inputs
      ensures x in inputs || exists v :: 0 <= v < |nodes| && x in nodes[v].outputs
    {
      assert AllNodes(nodes)[u] == u;
      assert NodeHolds(registry, inputs, nodes[u], env);
      assert Reads(nodes[u], env);
      assert Explained(registry, inputs, nodes, AllNodes(nodes), env, x);
    }
  }

  // ---- The listing order does not matter ----

  /** `other` lists the same nodes, position i holding what was at position sigma[i]. */
  ghost predicate Reordered(nodes: seq<Node>, other: seq<Node>, sigma: seq<nat>) {
    && |other| == |nodes| == |sigma|
    && Distinct(sigma)
    && (forall i :: 0 <= i < |sigma| ==> sigma[i] < |nodes| && other[i] == nodes[sigma[i]])
    && (forall v: nat :: v < |nodes| ==> v in sigma)
  }

  lemma ReorderedPath(nodes: seq<Node>, other: seq<Node>, sigma: seq<nat>, p: seq<nat>)
    requires Reordered(nodes, other, sigma) && IsPath(other, p)
    ensures IsPath(nodes, seq(|p|, k requires 0 <= k < |p| => sigma[p[k]]))
  {
    var q := seq(|p|, k requires 0 <= k < |p| => sigma[p[k]]);
    forall k | 0 <= k < |q| - 1 ensures DependsOn(nodes, q[k], q[k + 1]) {
      assert DependsOn(other, p[k], p[k + 1]);
    }
  }

  lemma ReorderedSortable(nodes: seq<Node>, other: seq<Node>, sigma: seq<nat>)
    requires Reordered(nodes, other, sigma) && Sortable(nodes)
    ensures Sortable(other)
  {
    assert UniqueOutputs(other) by {
      forall u, i, v, j |
        0 <= u < |other| && 0 <= v < |other| && 0 <= i < |other[u].outputs| && 0 <= j < |other[v].outputs| &&
        other[u].outputs[i] == other[v].outputs[j]
        ensures u == v && i == j
      {
        assert nodes[sigma[u]].outputs[i] == nodes[sigma[v]].outputs[j];
      }
    }
    forall p | IsCycle(other, p) ensures false {
      ReorderedPath(nodes, other, sigma, p);
      assert IsCycle(nodes, seq(|p|, k requires 0 <= k < |p| => sigma[p[k]]));
    }
  }

  lemma ReorderedHolds<V>(
    registry: map<string, Importer<V>>, inputs: Env<V>, nodes: seq<Node>, other: seq<Node>, sigma: seq<nat>,
    env: Env<V>)
    requires Reordered(nodes, other, sigma) && Satisfies(registry, inputs, nodes, AllNodes(nodes), env)
    ensures forall v :: v in AllNodes(other) && v < |other| ==> NodeHolds(registry, inputs, other[v], env)
  {
    forall v | v in AllNodes(other) && v < |other| ensures NodeHolds(registry, inputs, other[v], env) {
      assert AllNodes(nodes)[sigma[v]] == sigma[v];
      assert sigma[v] in AllNodes(nodes);
    }
  }

  lemma ReorderedSatisfies<V>(
    registry: map<string, Importer<V>>, inputs: Env<V>, nodes: seq<Node>, other: seq<Node>, sigma: seq<nat>,
    env: Env<V>)
    requires Reordered(nodes, other, sigma) && Satisfies(registry, inputs, nodes, AllNodes(nodes), env)
    ensures Satisfies(registry, inputs, other, AllNodes(other), env)
  {
    ReorderedHolds(registry, inputs, nodes, other, sigma, env);
    forall x | x in env ensures Explained(registry, inputs, other, AllNodes(other), env, x) {
      assert Explained(registry, inputs, nodes, AllNodes(nodes), env, x);
      if x !in inputs {
        var v, j :| v in AllNodes(nodes) && v < |nodes| && Binds(registry, nodes[v], env, j)
          && nodes[v].outputs[j] == x;
        assert v in sigma;
        var i :| 0 <= i < |sigma| && sigma[i] == v;
        assert AllNodes(other)[i] == i;
        assert Binds(registry, other[i], env, j) && other[i].outputs[j] == x;
      }
    }
  }

  lemma InverseReordering(nodes: seq<Node>, other: seq<Node>, sigma: seq<nat>) returns (tau: seq<nat>)
    requires Reordered(nodes, other, sigma)
    ensures Reordered(other, nodes, tau)
  {
    tau := seq(|nodes|, v requires 0 <= v < |nodes| => IndexOf(sigma, v));
    assert forall i :: 0 <= i < |sigma| ==> tau[sigma[i]] == i;
    forall i: nat | i < |other| ensures i in tau { assert tau[sigma[i]] == i; }
  }

  /** Whatever the importers do, a graph means the same for every order in which its nodes are listed. */
  lemma MeaningIgnoresListingOrder<V>(
    registry: map<string, Importer<V>>, inputs: Env<V>, nodes: seq<Node>, other: seq<Node>, sigma: seq<nat>,
    env: Env<V>)
    requires Reordered(nodes, other, sigma)
    ensures Means(registry, inputs, nodes, env) <==> Means(registry, inputs, other, env)
  {
    var tau := InverseReordering(nodes, other, sigma);
    if Means(registry, inputs, nodes, env) {
      ReorderedSortable(nodes, other, sigma);
      ReorderedSatisfies(registry, inputs, nodes, other, sigma, env);
    }
    if Means(registry, inputs, other, env) {
      ReorderedSortable(other, nodes, tau);
      ReorderedSatisfies(registry, inputs, other, nodes, tau, env);
    }
  }

  /**
   * Importing two listings of the same nodes: both fail or both succeed with the same environment, and no graph has
   * more than one meaning.
   */
  method ImportBothListings<V(!new)>(
    registry: map<string, Importer<V>>, inputs: Env<V>, nodes: seq<Node>, other: seq<Node>, ghost sigma: seq<nat>)
    returns (a: Result<Env<V>, ImportError>, b: Result<Env<V>, ImportError>)
    requires Reordered(nodes, other, sigma)
    ensures a.Ok? || b.Ok? ==> a == b
    ensures a == Err(NotSortable) <==> b == Err(NotSortable)
    ensures forall e, f :: Means(registry, inputs, nodes, e) && Means(registry, inputs, other, f) ==> e == f
  {
    a := ImportNodes(registry, inputs, nodes);
    b := ImportNodes(registry, inputs, other);
    ghost var tau := InverseReordering(nodes, other, sigma);
    if Sortable(nodes) {
      ReorderedSortable(nodes, other, sigma);
    }
    if Sortable(other) {
      ReorderedSortable(other, nodes, tau);
    }
    forall e ensures Means(registry, inputs, nodes, e) <==> Means(registry, inputs, other, e) {
      MeaningIgnoresListingOrder(registry, inputs, nodes, other, sigma, e);
    }
  }

  // ---- importInputs ----

  /** A graph input: its name, and the network tensor importInput makes for it when it has no weights. */
  datatype GraphInput<V> = GraphInput(name: string, tensor: Option<V>)

  /** Weights by name, with the result of converting them; None when the conversion or its checks fail. */
  datatype NamedWeights<V> = NamedWeights(name: string, converted: Option<V>)

  ghost predicate DistinctNames<V>(weights: seq<NamedWeights<V>>) {
    forall i, j :: 0 <= i < j < |weights| ==> weights[i].name != weights[j].name
  }

  /** The weights of that name if there are any, else the tensor of the input itself. */
  function SourceOf<V>(input: GraphInput<V>, weights: seq<NamedWeights<V>>): Option<V> {
    if weights == [] then input.tensor
    else if weights[0].name == input.name then weights[0].converted
    else SourceOf(input, weights[1..])
  }

  /** The name-to-weights map of lines 94-107; None when a name is repeated. */
  method IndexWeights<V>(weights: seq<NamedWeights<V>>) returns (r: Option<map<string, Option<V>>>)
    ensures r.Some? <==> DistinctNames(weights)
    ensures r.Some? ==> forall x :: x in r.value <==> exists i :: 0 <= i < |weights| && weights[i].name == x
    ensures r.Some? ==> forall i :: 0 <= i < |weights| ==> r.value[weights[i].name] == weights[i].converted
  {
    var m: map<string, Option<V>> := map[];
    for i := 0 to |weights|
      invariant DistinctNames(weights[..i])
      invariant forall x :: x in m ==> exists j :: 0 <= j < i && weights[j].name == x
      invariant forall j :: 0 <= j < i ==> weights[j].name in m && m[weights[j].name] == weights[j].converted
    {
      if weights[i].name in m {
        return None;
      }
      m := m[weights[i].name := weights[i].converted];
    }
    assert weights[..|weights|] == weights;
    return Some(m);
  }

  /** What importInputs accepts: one kind of weights, no repeated name, and every input has a value. */
  ghost predicate InputsAcceptable<V>(
    graphInputs: seq<GraphInput<V>>, initializers: seq<NamedWeights<V>>, descriptors: seq<NamedWeights<V>>)
  {
    && DistinctNames(initializers) && DistinctNames(descriptors)
    && (descriptors == [] || initializers == [])
    && (forall i, j :: 0 <= i < j < |graphInputs| ==> graphInputs[i].name != graphInputs[j].name)
    && (forall i :: 0 <= i < |graphInputs| ==> SourceOf(graphInputs[i], initializers + descriptors).Some?)
  }

  function Chosen<V>(
    input: GraphInput<V>, initial: map<string, Option<V>>, described: map<string, Option<V>>): Option<V>
  {
    if input.name in initial then initial[input.name]
    else if input.name in described then described[input.name]
    else input.tensor
  }

  /** env binds the first n graph inputs, each once, to their sources. */
  ghost predicate BindsInputs<V>(graphInputs: seq<GraphInput<V>>, n: nat, weights: seq<NamedWeights<V>>, env: Env<V>)
    requires n <= |graphInputs|
  {
    && (forall x :: x in env ==> exists j :: 0 <= j < n && graphInputs[j].name == x)
    && (forall j, k :: 0 <= j < k < n ==> graphInputs[j].name != graphInputs[k].name)
    && (forall j :: 0 <= j < n ==>
          graphInputs[j].name in env && SourceOf(graphInputs[j], weights) == Some(env[graphInputs[j].name]))
  }

  /** Input i has no value, or its name was already taken by an earlier input. */
  ghost predicate CannotBind<V>(graphInputs: seq<GraphInput<V>>, i: nat, weights: seq<NamedWeights<V>>)
    requires i < |graphInputs|
  {
    SourceOf(graphInputs[i], weights).None? || exists j :: 0 <= j < i && graphInputs[j].name == graphInputs[i].name
  }

  /** The loop over graph.input(), lines 108-133. */
  method BindInputs<V>(
    graphInputs: seq<GraphInput<V>>, initial: map<string, Option<V>>, described: map<string, Option<V>>,
    ghost weights: seq<NamedWeights<V>>)
    returns (r: Option<Env<V>>)
    requires forall i :: 0 <= i < |graphInputs| ==>
      Chosen(graphInputs[i], initial, described) == SourceOf(graphInputs[i], weights)
    ensures r.Some? ==> BindsInputs(graphInputs, |graphInputs|, weights, r.value)
    ensures r.None? ==> exists i :: 0 <= i < |graphInputs| && CannotBind(graphInputs, i, weights)
  {
    var env: Env<V> := map[];
    for i := 0 to |graphInputs|
      invariant BindsInputs(graphInputs, i, weights, env)
    {
      var source := Chosen(graphInputs[i], initial, described);
      if source.None? || graphInputs[i].name in env {
        assert CannotBind(graphInputs, i, weights);
        return None;
      }
      env := env[graphInputs[i].name := source.value];
    }
    return Some(env);
  }

  /** importInputs: either list of weights may be given, not both; each input name is bound once. */
  method ImportInputs<V>(
    graphInputs: seq<GraphInput<V>>, initializers: seq<NamedWeights<V>>, descriptors: seq<NamedWeights<V>>)
    returns (r: Option<Env<V>>)
    ensures r.Some? <==> InputsAcceptable(graphInputs, initializers, descriptors)
    ensures r.Some? ==> BindsInputs(graphInputs, |graphInputs|, initializers + descriptors, r.value)
  {
    var initial := IndexWeights(initializers);
    if initial.None? || (descriptors != [] && initializers != []) {
      return None;
    }
    var described := IndexWeights(descriptors);
    if described.None? {
      return None;
    }
    forall i | 0 <= i < |graphInputs|
      ensures Chosen(graphInputs[i], initial.value, described.value) ==
        SourceOf(graphInputs[i], initializers + descriptors)
    {
      if descriptors == [] {
        assert initializers + descriptors == initializers;
        IndexedSource(graphInputs[i], initializers, initial.value);
      } else {
        assert initializers + descriptors == descriptors;
        IndexedSource(graphInputs[i], descriptors, described.value);
      }
    }
    r := BindInputs(graphInputs, initial.value, described.value, initializers + descriptors);
  }

  lemma {:induction false} IndexedSource<V>(
    input: GraphInput<V>, weights: seq<NamedWeights<V>>, m: map<string, Option<V>>)
    requires forall i :: 0 <= i < |weights| ==> weights[i].name in m && m[weights[i].name] == weights[i].converted
    ensures (exists i :: 0 <= i < |weights| && weights[i].name == input.name) ==>
      SourceOf(input, weights) == m[input.name]
    ensures (forall i :: 0 <= i < |weights| ==> weights[i].name != input.name) ==>
      SourceOf(input, weights) == input.tensor
  {
    if weights != [] {
      IndexedSource(input, weights[1..], m);
      if i :| 1 <= i < |weights| && weights[i].name == input.name {
        assert weights[1..][i - 1].name == input.name;
      }
    }
  }

  /** importModel: bind the graph inputs, sort, evaluate. */
  method ImportModel<V(!new)>(registry: map<string, Importer<V>>, nodes: seq<Node>, graphInputs: seq<GraphInput<V>>,
                              initializers: seq<NamedWeights<V>>, descriptors: seq<NamedWeights<V>>)
    returns (r: Result<Env<V>, ImportError>, ghost inputs: Env<V>)
    ensures r == Err(BadInputs) <==> !InputsAcceptable(graphInputs, initializers, descriptors)
    ensures r != Err(BadInputs) ==> BindsInputs(graphInputs, |graphInputs|, initializers + descriptors, inputs)
    ensures r.Ok? ==> Means(registry, inputs, nodes, r.value)
    ensures r.Ok? ==> AllComputed(registry, nodes, r.value)
    ensures r != Err(BadInputs) ==> forall e :: Means(registry, inputs, nodes, e) ==> r == Ok(e)
  {
    inputs := map[];
    var bound := ImportInputs(graphInputs, initializers, descriptors);
    if bound.None? {
      return Err(BadInputs), map[];
    }
    inputs := bound.value;
    r := ImportNodes(registry, bound.value, nodes);
  }
}
