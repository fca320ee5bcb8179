/**
 * The three-colour depth-first sort of 3rdparty/onnx-tensorrt/toposort.hpp, proved against the
 * graph it is given: success is exactly uniqueness of output names plus absence of cycles.
 */
module Toposort {
  import opened Basics

  datatype Node = Node(op: string, inputs: seq<string>, outputs: seq<string>)

  datatype NodeState = Unvisited | Active | Visited

  // ---- The graph ----

  /** Node u reads a name that node v writes. */
  ghost predicate DependsOn(nodes: seq<Node>, u: nat, v: nat) {
    u < |nodes| && v < |nodes| && exists x :: x in nodes[u].inputs && x in nodes[v].outputs
  }

  /** No output name is written twice, by two nodes or by one. */
  ghost predicate UniqueOutputs(nodes: seq<Node>) {
    forall u, i, v, j ::
      (0 <= u < |nodes| && 0 <= v < |nodes| && 0 <= i < |nodes[u].outputs| && 0 <= j < |nodes[v].outputs| &&
       nodes[u].outputs[i] == nodes[v].outputs[j]) ==> u == v && i == j
  }

  ghost predicate IsPath(nodes: seq<Node>, p: seq<nat>) {
    && (forall k :: 0 <= k < |p| ==> p[k] < |nodes|)
    && forall k :: 0 <= k < |p| - 1 ==> DependsOn(nodes, p[k], p[k + 1])
  }

  ghost predicate IsCycle(nodes: seq<Node>, p: seq<nat>) {
    |p| >= 2 && IsPath(nodes, p) && p[0] == p[|p| - 1]
  }

  ghost predicate HasCycle(nodes: seq<Node>) {
    exists p :: IsCycle(nodes, p)
  }

  ghost predicate Distinct<T>(s: seq<T>) {
    forall i, j :: 0 <= i < j < |s| ==> s[i] != s[j]
  }

  /** Every dependency of a listed node is listed before it. */
  ghost predicate ProducersFirst(nodes: seq<Node>, order: seq<nat>) {
    forall k, v: nat :: 0 <= k < |order| && DependsOn(nodes, order[k], v) ==> v in order[..k]
  }

  /** Each node exactly once, each after all the nodes it reads from. */
  ghost predicate IsTopologicalOrder(nodes: seq<Node>, order: seq<nat>) {
    && Distinct(order)
    && (forall v: nat :: v in order <==> v < |nodes|)
    && ProducersFirst(nodes, order)
  }

  lemma {:induction false} OrderFallsAlongPath(nodes: seq<Node>, order: seq<nat>, p: seq<nat>, i: nat) returns (j: nat)
    requires IsTopologicalOrder(nodes, order) && IsPath(nodes, p) && |p| >= 1
    requires i < |order| && order[i] == p[0]
    ensures j < |order| && order[j] == p[|p| - 1] && (|p| >= 2 ==> j < i)
    decreases |p|
  {
    if |p| == 1 {
      j := i;
    } else {
      assert DependsOn(nodes, p[0], p[0 + 1]);
      var m :| 0 <= m < i && order[..i][m] == p[1];
      assert IsPath(nodes, p[1..]) by {
        forall k | 0 <= k < |p[1..]| - 1 ensures DependsOn(nodes, p[1..][k], p[1..][k + 1]) {
          assert DependsOn(nodes, p[k + 1], p[k + 1 + 1]);
        }
      }
      j := OrderFallsAlongPath(nodes, order, p[1..], m);
    }
  }

  lemma OrderedMeansAcyclic(nodes: seq<Node>, order: seq<nat>)
    requires IsTopologicalOrder(nodes, order)
    ensures !HasCycle(nodes)
  {
    forall p | IsCycle(nodes, p) ensures false {
      assert p[0] in order;
      var i :| 0 <= i < |order| && order[i] == p[0];
      var j := OrderFallsAlongPath(nodes, order, p, i);
    }
  }

  // ---- Building node_map ----

  /** Output j of node v comes before output k of node n in listing order. */
  predicate Earlier(v: int, j: int, n: int, k: int) {
    v < n || (v == n && j < k)
  }

  /** `pos` locates every output name listed before output k of node n, and no other name. */
  ghost predicate Located(nodes: seq<Node>, n: nat, k: nat, pos: map<string, (nat, nat)>) {
    && (forall v, j :: 0 <= v < |nodes| && 0 <= j < |nodes[v].outputs| && Earlier(v, j, n, k) ==>
          nodes[v].outputs[j] in pos && pos[nodes[v].outputs[j]] == (v, j))
    && (forall x :: x in pos ==>
          && pos[x].0 < |nodes| && pos[x].1 < |nodes[pos[x].0].outputs|
          && Earlier(pos[x].0, pos[x].1, n, k) && nodes[pos[x].0].outputs[pos[x].1] == x)
  }

  /** node_map as the search uses it: exactly the names some node writes, each with its only writer. */
  ghost predicate IsNodeMap(nodes: seq<Node>, m: map<string, nat>) {
    && (forall v, x :: 0 <= v < |nodes| && x in nodes[v].outputs ==> x in m && m[x] == v)
    && (forall x :: x in m ==> m[x] < |nodes| && x in nodes[m[x]].outputs)
  }

  ghost predicate WritersOf(m: map<string, nat>, pos: map<string, (nat, nat)>) {
    m.Keys == pos.Keys && forall x :: x in m ==> m[x] == pos[x].0
  }

  lemma LocateNext(nodes: seq<Node>, n: nat, k: nat, pos: map<string, (nat, nat)>)
    requires n < |nodes| && k < |nodes[n].outputs| && Located(nodes, n, k, pos) && nodes[n].outputs[k] !in pos
    ensures Located(nodes, n, k + 1, pos[nodes[n].outputs[k] := (n, k)])
  {
  }

  lemma LocatedRow(nodes: seq<Node>, n: nat, pos: map<string, (nat, nat)>)
    requires n < |nodes| && Located(nodes, n, |nodes[n].outputs|, pos)
    ensures Located(nodes, n + 1, 0, pos)
  {
  }

  method BuildNodeMap(nodes: seq<Node>) returns (r: Option<map<string, nat>>)
    ensures r.Some? <==> UniqueOutputs(nodes)
    ensures r.Some? ==> IsNodeMap(nodes, r.value)
  {
    var m: map<string, nat> := map[];
    ghost var pos: map<string, (nat, nat)> := map[];
    for i := 0 to |nodes|
      invariant Located(nodes, i, 0, pos) && WritersOf(m, pos)
    {
      for j := 0 to |nodes[i].outputs|
        invariant Located(nodes, i, j, pos) && WritersOf(m, pos)
      {
        var output := nodes[i].outputs[j];
        if output in m {
          ClashingOutput(nodes, i, j, pos);
          return None;
        }
        LocateNext(nodes, i, j, pos);
        pos := pos[output := (i, j)];
        m := m[output := i];
      }
      LocatedRow(nodes, i, pos);
    }
    AllOutputsLocated(nodes, m, pos);
    return Some(m);
  }

  lemma ClashingOutput(nodes: seq<Node>, n: nat, k: nat, pos: map<string, (nat, nat)>)
    requires n < |nodes| && k < |nodes[n].outputs| && Located(nodes, n, k, pos) && nodes[n].outputs[k] in pos
    ensures !UniqueOutputs(nodes)
  {
    var (v, j) := pos[nodes[n].outputs[k]];
    assert nodes[v].outputs[j] == nodes[n].outputs[k];
  }

  lemma AllOutputsLocated(nodes: seq<Node>, m: map<string, nat>, pos: map<string, (nat, nat)>)
    requires Located(nodes, |nodes|, 0, pos) && WritersOf(m, pos)
    ensures UniqueOutputs(nodes) && IsNodeMap(nodes, m)
  {
    forall v, j | 0 <= v < |nodes| && 0 <= j < |nodes[v].outputs|
      ensures nodes[v].outputs[j] in pos && pos[nodes[v].outputs[j]] == (v, j)
    {
      assert Earlier(v, j, |nodes|, 0);
    }
  }

  // ---- The search ----

  lemma MappedInputIsDependency(nodes: seq<Node>, m: map<string, nat>, u: nat, x: string)
    requires IsNodeMap(nodes, m) && u < |nodes| && x in nodes[u].inputs && x in m
    ensures DependsOn(nodes, u, m[x])
  {
  }

  lemma ExtendPath(nodes: seq<Node>, stack: seq<nat>, idx: nat)
    requires IsPath(nodes, stack) && idx < |nodes|
    requires stack != [] ==> DependsOn(nodes, stack[|stack| - 1], idx)
    ensures IsPath(nodes, stack + [idx])
  {
    var p := stack + [idx];
    forall k | 0 <= k < |p| - 1 ensures DependsOn(nodes, p[k], p[k + 1]) {
      if k + 1 < |stack| { assert DependsOn(nodes, stack[k], stack[k + 1]); }
    }
  }

  /** Reaching an active node again closes a cycle. */
  lemma ActiveNodeClosesCycle(nodes: seq<Node>, stack: seq<nat>, idx: nat)
    requires IsPath(nodes, stack + [idx]) && idx in stack
    ensures HasCycle(nodes)
  {
    var whole := stack + [idx];
    var j :| 0 <= j < |stack| && stack[j] == idx;
    var p := whole[j..];
    forall k | 0 <= k < |p| - 1 ensures DependsOn(nodes, p[k], p[k + 1]) {
      assert DependsOn(nodes, whole[j + k], whole[j + k + 1]);
    }
    assert IsCycle(nodes, p);
  }

  /** The calls in progress are the active nodes, and form a path; the order is closed under dependency. */
  ghost predicate Consistent(nodes: seq<Node>, states: seq<NodeState>, order: seq<nat>, stack: seq<nat>) {
    && |states| == |nodes|
    && IsPath(nodes, stack)
    && (forall v :: 0 <= v < |nodes| ==> (states[v].Active? <==> v in stack))
    && (forall v :: 0 <= v < |nodes| ==> (states[v].Visited? <==> v in order))
    && (forall k :: 0 <= k < |order| ==> order[k] < |nodes|)
    && Distinct(order)
    && ProducersFirst(nodes, order)
  }

  lemma Enter(nodes: seq<Node>, states: seq<NodeState>, order: seq<nat>, stack: seq<nat>, idx: nat)
    requires Consistent(nodes, states, order, stack) && idx < |nodes| && states[idx].Unvisited?
    requires stack != [] ==> DependsOn(nodes, stack[|stack| - 1], idx)
    ensures Consistent(nodes, states[idx := Active], order, stack + [idx])
  {
    ExtendPath(nodes, stack, idx);
  }

  lemma Leave(
    nodes: seq<Node>, nodeMap: map<string, nat>, states: seq<NodeState>, order: seq<nat>, stack: seq<nat>,
    idx: nat)
    requires Consistent(nodes, states, order, stack + [idx]) && IsNodeMap(nodes, nodeMap) && idx !in stack
    requires forall x :: x in (stack + [idx]) && x < |nodes| ==> states[x].Active?
    requires idx < |nodes|
    requires forall x :: x in nodes[idx].inputs && x in nodeMap ==> nodeMap[x] in order
    ensures Consistent(nodes, states[idx := Visited], order + [idx], stack)
  {
    var inner := stack + [idx];
    assert idx == inner[|stack|] && forall v :: v in inner <==> v in stack || v == idx;
    assert IsPath(nodes, stack) by {
      forall k | 0 <= k < |stack| ensures stack[k] < |nodes| { assert inner[k] == stack[k]; }
      forall k | 0 <= k < |stack| - 1 ensures DependsOn(nodes, stack[k], stack[k + 1]) {
        assert DependsOn(nodes, inner[k], inner[k + 1]);
      }
    }
    assert states[idx].Active?;
    AppendNode(nodes, nodeMap, order, idx);
  }

  lemma AppendNode(nodes: seq<Node>, nodeMap: map<string, nat>, order: seq<nat>, idx: nat)
    requires ProducersFirst(nodes, order) && IsNodeMap(nodes, nodeMap) && idx < |nodes|
    requires forall x :: x in nodes[idx].inputs && x in nodeMap ==> nodeMap[x] in order
    ensures ProducersFirst(nodes, order + [idx])
  {
    var longer := order + [idx];
    forall k, v: nat | 0 <= k < |longer| && DependsOn(nodes, longer[k], v) ensures v in longer[..k] {
      if k < |order| {
        assert longer[..k] == order[..k];
      } else {
        var x :| x in nodes[idx].inputs && x in nodes[v].outputs;
        assert nodeMap[x] == v;
        assert longer[..k] == order;
      }
    }
  }

  class Search {
    const nodes: seq<Node>
    const nodeMap: map<string, nat>
    var states: seq<NodeState>
    var order: seq<nat>

    constructor (nodes: seq<Node>, nodeMap: map<string, nat>)
      ensures this.nodes == nodes && this.nodeMap == nodeMap
      ensures states == seq(|nodes|, _ => Unvisited) && order == []
    {
      this.nodes := nodes;
      this.nodeMap := nodeMap;
      states := seq(|nodes|, _ => Unvisited);
      order := [];
    }

    ghost predicate Valid(stack: seq<nat>)
      reads this
    {
      IsNodeMap(nodes, nodeMap) && Consistent(nodes, states, order, stack)
    }

    ghost function Remaining(): set<nat>
      reads this
    {
      set v: nat | v < |states| && states[v].Unvisited?
    }

    /** get_post_order; `stack` records the calls in progress, which the source keeps on its call stack. */
    method GetPostOrder(idx: nat, ghost stack: seq<nat>) returns (ok: bool)
      requires Valid(stack) && idx < |nodes|
      requires stack != [] ==> DependsOn(nodes, stack[|stack| - 1], idx)
      modifies this`states, this`order
      ensures ok ==> Valid(stack) && idx in order && old(order) <= order && Remaining() <= old(Remaining())
      ensures !ok ==> HasCycle(nodes)
      decreases Remaining()
    {
      if states[idx].Active? {
        ExtendPath(nodes, stack, idx);
        ActiveNodeClosesCycle(nodes, stack, idx);
        return false;
      }
      if states[idx].Visited? {
        return true;
      }
      assert idx in Remaining() && idx !in stack;
      Enter(nodes, states, order, stack, idx);
      states := states[idx := Active];
      ghost var inner := stack + [idx];
      for j := 0 to |nodes[idx].inputs|
        invariant Valid(inner) && old(order) <= order && Remaining() <= old(Remaining()) - {idx}
        invariant forall i :: 0 <= i < j && nodes[idx].inputs[i] in nodeMap ==> nodeMap[nodes[idx].inputs[i]] in order
      {
        var input := nodes[idx].inputs[j];
        if input in nodeMap {
          MappedInputIsDependency(nodes, nodeMap, idx, input);
          var found := GetPostOrder(nodeMap[input], inner);
          if !found {
            return false;
          }
        }
      }
      Leave(nodes, nodeMap, states, order, stack, idx);
      states := states[idx := Visited];
      order := order + [idx];
      return true;
    }
  }

  /** toposort: the boolean result and the vector it fills. */
  method Sort(nodes: seq<Node>) returns (ok: bool, order: seq<nat>)
    ensures ok <==> UniqueOutputs(nodes) && !HasCycle(nodes)
    ensures ok ==> IsTopologicalOrder(nodes, order)
  {
    var nodeMap := BuildNodeMap(nodes);
    if nodeMap.None? {
      return false, [];
    }
    var search := new Search(nodes, nodeMap.value);
    for i := 0 to |nodes|
      invariant search.Valid([])
      invariant forall v :: 0 <= v < i ==> v in search.order
    {
      var found := search.GetPostOrder(i, []);
      if !found {
        return false, search.order;
      }
    }
    order := search.order;
    assert IsTopologicalOrder(nodes, order);
    OrderedMeansAcyclic(nodes, order);
    return true, order;
  }
}
