// Kahn's algorithm as the resolver runs it: predecessor counts updated in
// place and an ordered set of ready nodes from which the smallest is taken.
module TopologicalSort {
  import opened Graphs
  import opened GraphTheorems

  // The predecessors of i among the first `upto` nodes.
  ghost function Sources(edges: Edges, upto: nat, i: nat): set<nat> {
    set k | 0 <= k < upto && HasEdge(edges, k, i)
  }

  // The predecessors of i that have not been emitted.
  ghost function Waiting(edges: Edges, emitted: seq<nat>, i: nat): set<nat> {
    set k | k in Nodes(edges) && HasEdge(edges, k, i) && k !in emitted
  }

  ghost predicate CountsWaiting(edges: Edges, emitted: seq<nat>, counts: seq<nat>) {
    |counts| == |edges| && forall i | 0 <= i < |counts| :: counts[i] == |Waiting(edges, emitted, i)|
  }

  lemma NextSource(edges: Edges, from: nat, i: nat)
    ensures |Sources(edges, from + 1, i)| == |Sources(edges, from, i)| + if HasEdge(edges, from, i) then 1 else 0
  {
    if HasEdge(edges, from, i) {
      assert Sources(edges, from + 1, i) == Sources(edges, from, i) + {from};
    } else {
      assert Sources(edges, from + 1, i) == Sources(edges, from, i);
    }
  }

  lemma AllSources(edges: Edges, i: nat)
    ensures Sources(edges, |edges|, i) == Waiting(edges, [], i)
  {
  }

  lemma EmitWaiting(edges: Edges, emitted: seq<nat>, index: nat, i: nat)
    requires index in Nodes(edges) && index !in emitted
    ensures |Waiting(edges, emitted + [index], i)| == |Waiting(edges, emitted, i)| - if HasEdge(edges, index, i) then 1 else 0
  {
    if HasEdge(edges, index, i) {
      assert Waiting(edges, emitted + [index], i) == Waiting(edges, emitted, i) - {index};
    } else {
      assert Waiting(edges, emitted + [index], i) == Waiting(edges, emitted, i);
    }
  }

  lemma ReadyMeansNoneWaiting(edges: Edges, emitted: seq<nat>, i: nat)
    requires i < |edges|
    ensures IsReady(edges, Nodes(edges), emitted, i) <==> i !in emitted && |Waiting(edges, emitted, i)| == 0
  {
    if |Waiting(edges, emitted, i)| == 0 {
      forall k | k in Nodes(edges) && HasEdge(edges, k, i) ensures k in emitted {
        assert k !in Waiting(edges, emitted, i);
      }
    } else {
      var k :| k in Waiting(edges, emitted, i);
    }
  }

  // Emitting a ready node frees exactly those of its targets that now wait for nothing.
  lemma ReadyAfter(edges: Edges, emitted: seq<nat>, index: nat)
    requires WellFormed(edges) && Emittable(edges, Nodes(edges), emitted)
    requires IsReady(edges, Nodes(edges), emitted, index)
    ensures Ready(edges, Nodes(edges), emitted + [index])
         == Ready(edges, Nodes(edges), emitted) - {index}
          + set i | i in edges[index] && |Waiting(edges, emitted + [index], i)| == 0
  {
    var on := Nodes(edges);
    var longer := emitted + [index];
    forall i | i in on
      ensures IsReady(edges, on, longer, i) <==>
              (i != index && IsReady(edges, on, emitted, i)) || (i in edges[index] && |Waiting(edges, longer, i)| == 0)
    {
      ReadyMeansNoneWaiting(edges, emitted, i);
      ReadyMeansNoneWaiting(edges, longer, i);
      EmitWaiting(edges, emitted, index, i);
      assert i in edges[index] <==> HasEdge(edges, index, i);
      assert i in longer <==> i in emitted || i == index;
    }
  }

  method Topological(edges: Edges) returns (effective: seq<nat>)
    requires WellFormed(edges)
    ensures effective == Kahn(edges)
    ensures Acyclic(edges) <==> IsLinearExtension(edges, effective)
    ensures forall order | IsLinearExtension(edges, order) :: LexAtMost(effective, order)
  {
    var incoming := new nat[|edges|](i => 0);
    for from := 0 to |edges|
      invariant forall i | 0 <= i < |edges| :: incoming[i] == |Sources(edges, from, i)|
    {
      var targets := edges[from];
      while targets != {}
        invariant targets <= edges[from]
        invariant forall i | 0 <= i < |edges| ::
            incoming[i] == |Sources(edges, from, i)| + if i in edges[from] - targets then 1 else 0
      {
        var to := Min(targets);
        incoming[to] := incoming[to] + 1;
        targets := targets - {to};
      }
      forall i | 0 <= i < |edges| ensures incoming[i] == |Sources(edges, from + 1, i)| {
        NextSource(edges, from, i);
      }
    }
    forall i | 0 <= i < |edges| ensures incoming[i] == |Waiting(edges, [], i)| {
      AllSources(edges, i);
    }
    var ready := set i: nat | i < |edges| && incoming[i] == 0;
    effective := [];
    forall i | 0 <= i < |edges| ensures i in ready <==> IsReady(edges, Nodes(edges), [], i) {
      ReadyMeansNoneWaiting(edges, [], i);
    }
    while ready != {}
      invariant Emittable(edges, Nodes(edges), effective)
      invariant CountsWaiting(edges, effective, incoming[..])
      invariant ready == Ready(edges, Nodes(edges), effective)
      invariant KahnFrom(edges, Nodes(edges), effective) == Kahn(edges)
      decreases Pending(Nodes(edges), effective)
    {
      var index := Min(ready);
      ghost var emitted := effective;
      ReadyAfter(edges, effective, index);
      EmitOne(edges, Nodes(edges), effective, index);
      assert index in Pending(Nodes(edges), emitted) && index !in Pending(Nodes(edges), emitted + [index]);
      ready := ready - {index};
      effective := effective + [index];
      ready := Release(edges, emitted, index, incoming, ready);
    }
    KahnComplete(edges);
    forall order | IsLinearExtension(edges, order) ensures LexAtMost(effective, order) {
      KahnIsLeast(edges, order);
    }
  }

  // The inner loop: every target of an emitted node waits for one node fewer,
  // and those that wait for nothing become ready. The count never drops below zero.
  method Release(edges: Edges, ghost emitted: seq<nat>, index: nat, incoming: array<nat>, ready0: set<nat>)
    returns (ready: set<nat>)
    requires WellFormed(edges) && index < |edges| && index !in emitted
    requires CountsWaiting(edges, emitted, incoming[..])
    modifies incoming
    ensures CountsWaiting(edges, emitted + [index], incoming[..])
    ensures ready == ready0 + set i | i in edges[index] && |Waiting(edges, emitted + [index], i)| == 0
  {
    ready := ready0;
    var targets := edges[index];
    forall i | 0 <= i < |edges|
      ensures incoming[i] == |Waiting(edges, emitted + [index], i)| + if i in edges[index] then 1 else 0
    {
      assert incoming[i] == incoming[..][i];
      EmitWaiting(edges, emitted, index, i);
      assert i in edges[index] <==> HasEdge(edges, index, i);
    }
    while targets != {}
      invariant targets <= edges[index]
      invariant forall i | 0 <= i < |edges| ::
          incoming[i] == |Waiting(edges, emitted + [index], i)| + if i in targets then 1 else 0
      invariant ready == ready0 + set i | i in edges[index] - targets && |Waiting(edges, emitted + [index], i)| == 0
    {
      var to := Min(targets);
      incoming[to] := incoming[to] - 1;
      if incoming[to] == 0 {
        ready := ready + {to};
      }
      targets := targets - {to};
    }
  }
}
