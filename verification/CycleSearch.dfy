// The three-colour depth-first search that names a concrete cycle.
module CycleSearch {
  import opened Results
  import opened Graphs
  import opened GraphTheorems

  // 0: not visited, 1: on the current path, 2: finished.
  type Colour = c: nat | c <= 2

  class Search {
    const edges: Edges
    const states: array<Colour>
    var path: seq<nat>
    // The finished nodes, oldest first: every edge of a finished node leads to
    // one that finished before it.
    ghost var finished: seq<nat>

    ghost predicate Valid()
      reads this, states
    {
      && WellFormed(edges)
      && states.Length == |edges|
      && IsWalk(edges, path) && Distinct(path) && Bounded(path, |edges|)
      && (forall i | 0 <= i < |edges| :: states[i] == 1 <==> i in path)
      && Finishes(edges, finished)
      && (forall i | 0 <= i < |edges| :: states[i] == 2 <==> i in finished)
    }

    ghost function Unvisited(): set<nat>
      requires states.Length == |edges|
      reads this, states
    {
      set i: nat | i < |edges| && states[i] == 0
    }

    constructor (edges: Edges)
      requires WellFormed(edges)
      ensures Valid() && this.edges == edges && fresh(states)
      ensures path == [] && finished == []
    {
      this.edges := edges;
      states := new Colour[|edges|](i => 0);
      path := [];
      finished := [];
    }

    method Visit(index: nat) returns (found: Option<seq<nat>>)
      requires Valid() && index < |edges|
      requires path != [] ==> HasEdge(edges, path[|path| - 1], index)
      modifies this, states
      ensures found.None? ==> Valid() && path == old(path) && states[index] == 2
      ensures found.None? ==> old(finished) <= finished && Unvisited() <= old(Unvisited())
      ensures found.Some? ==> IsCycle(edges, found.value)
      decreases Unvisited()
    {
      if states[index] == 2 {
        return None;
      }
      if states[index] == 1 {
        var start :| 0 <= start < |path| && path[start] == index;
        ClosePath(edges, path, start, index);
        return Some(path[start..] + [index]);
      }
      ghost var before := path;
      assert index in Unvisited();
      states[index] := 1;
      path := path + [index];
      assert index !in Unvisited();
      var targets := edges[index];
      while targets != {}
        invariant targets <= edges[index]
        invariant Valid() && path == before + [index]
        invariant old(finished) <= finished
        invariant Unvisited() < old(Unvisited())
        invariant forall t | t in edges[index] - targets :: t in finished
      {
        var next := Min(targets);
        assert HasEdge(edges, index, next);
        found := Visit(next);
        if found.Some? {
          return;
        }
        targets := targets - {next};
      }
      Unwind(index, before);
      return None;
    }

    // The end of a visit: the node leaves the path and is finished.
    method Unwind(index: nat, ghost before: seq<nat>)
      requires Valid() && path == before + [index] && index < |edges|
      requires forall t | t in edges[index] :: t in finished
      modifies this, states
      ensures Valid() && path == before && states[index] == 2
      ensures finished == old(finished) + [index] && Unvisited() == old(Unvisited())
    {
      assert path[|path| - 1] == index;
      assert states[index] == 1;
      path := path[..|path| - 1];
      states[index] := 2;
      finished := finished + [index];
      FinishOne(edges, old(finished), index);
    }
  }

  ghost predicate Finishes(edges: Edges, finished: seq<nat>) {
    && Distinct(finished)
    && Bounded(finished, |edges|)
    && forall k, t | 0 <= k < |finished| && HasEdge(edges, finished[k], t) :: t in finished[..k]
  }

  lemma FinishOne(edges: Edges, finished: seq<nat>, index: nat)
    requires Finishes(edges, finished) && index < |edges| && index !in finished
    requires forall t | t in edges[index] :: t in finished
    ensures Finishes(edges, finished + [index])
  {
    var longer := finished + [index];
    forall k: nat, t: nat | k < |longer| && HasEdge(edges, longer[k], t) ensures t in longer[..k] {
      assert longer[..k] == if k < |finished| then finished[..k] else finished;
    }
  }

  lemma ClosePath(edges: Edges, path: seq<nat>, start: nat, index: nat)
    requires IsWalk(edges, path) && Distinct(path)
    requires start < |path| && path[start] == index && HasEdge(edges, path[|path| - 1], index)
    ensures IsCycle(edges, path[start..] + [index])
  {
    var c := path[start..] + [index];
    assert c[..|c| - 1] == path[start..];
    forall k | 0 <= k < |c| - 1 ensures HasEdge(edges, c[k], c[k + 1]) {
      if k < |c| - 2 {
        assert HasEdge(edges, path[start + k], path[start + k + 1]);
      }
    }
  }

  ghost function Reversed(s: seq<nat>): (r: seq<nat>)
    ensures |r| == |s| && forall i | 0 <= i < |s| :: r[i] == s[|s| - 1 - i]
  {
    seq(|s|, i requires 0 <= i < |s| => s[|s| - 1 - i])
  }

  // Finishing order read backwards is a linear extension.
  lemma FinishedIsAcyclic(edges: Edges, finished: seq<nat>)
    requires WellFormed(edges) && Finishes(edges, finished)
    requires forall i | 0 <= i < |edges| :: i in finished
    ensures Acyclic(edges)
  {
    var order := Reversed(finished);
    var n := |finished|;
    forall x ensures x in Elements(order) <==> x in Nodes(edges) {
      if x in order {
        var i :| 0 <= i < n && order[i] == x;
        assert finished[n - 1 - i] < |edges|;
      }
      if x in Nodes(edges) {
        assert x < |edges| && x in finished;
        var i :| 0 <= i < n && finished[i] == x;
        assert order[n - 1 - i] == x;
      }
    }
    assert Elements(order) == Nodes(edges);
    forall i, j | 0 <= i <= j < n ensures !HasEdge(edges, order[j], order[i]) {
      var earlier, later := n - 1 - j, n - 1 - i;
      assert finished[later] !in finished[..earlier];
    }
    LinearExtensionIsAcyclic(edges, order);
  }

  method Cycle(edges: Edges) returns (found: Option<seq<nat>>)
    requires WellFormed(edges)
    ensures found.None? <==> Acyclic(edges)
    ensures found.Some? ==> IsCycle(edges, found.value)
  {
    var search := new Search(edges);
    for index := 0 to |edges|
      invariant search.Valid() && search.edges == edges && search.path == [] && fresh(search) && fresh(search.states)
      invariant forall i | 0 <= i < index :: i in search.finished
    {
      found := search.Visit(index);
      if found.Some? {
        return;
      }
    }
    FinishedIsAcyclic(edges, search.finished);
    found := None;
  }
}
