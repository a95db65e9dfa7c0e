// Directed graphs over the indices of a selection, as the load-order resolver
// builds them: edges[a] holds every index that must load after a.
module Graphs {
  type Edges = seq<set<nat>>

  ghost predicate WellFormed(edges: Edges) {
    forall a, b | 0 <= a < |edges| && b in edges[a] :: b < |edges|
  }

  predicate HasEdge(edges: Edges, a: nat, b: nat) {
    a < |edges| && b in edges[a]
  }

  predicate IsNode(edges: Edges, i: nat) {
    i < |edges|
  }

  ghost function Nodes(edges: Edges): (r: set<nat>)
    ensures forall i: nat :: i in r <==> IsNode(edges, i)
  {
    set i: nat | i < |edges| && IsNode(edges, i)
  }

  // ---- Walks and cycles ----

  ghost predicate IsWalk(edges: Edges, w: seq<nat>) {
    forall k | 0 <= k < |w| - 1 :: HasEdge(edges, w[k], w[k + 1])
  }

  ghost predicate IsClosedWalk(edges: Edges, w: seq<nat>) {
    |w| >= 2 && w[0] == w[|w| - 1] && IsWalk(edges, w)
  }

  ghost predicate Distinct(s: seq<nat>) {
    forall i, j | 0 <= i < j < |s| :: s[i] != s[j]
  }

  // A closed walk that visits no node twice, apart from the node it returns to.
  ghost predicate IsCycle(edges: Edges, w: seq<nat>) {
    IsClosedWalk(edges, w) && Distinct(w[..|w| - 1])
  }

  ghost predicate Acyclic(edges: Edges) {
    forall w: seq<nat> :: !IsClosedWalk(edges, w)
  }

  // ---- Linear orders ----

  ghost function Elements(s: seq<nat>): set<nat> {
    set x | x in s
  }

  ghost predicate Arranges(s: seq<nat>, nodes: set<nat>) {
    Distinct(s) && Elements(s) == nodes
  }

  // No element comes at or before the position of one that must precede it.
  ghost predicate Respects(edges: Edges, s: seq<nat>) {
    forall i, j | 0 <= i <= j < |s| :: !HasEdge(edges, s[j], s[i])
  }

  ghost predicate IsLinearExtension(edges: Edges, s: seq<nat>) {
    Arranges(s, Nodes(edges)) && Respects(edges, s)
  }

  // Lexicographic comparison of two arrangements of the same nodes.
  ghost predicate LexAtMost(s: seq<nat>, t: seq<nat>) {
    s == t ||
    exists k :: 0 <= k < |s| && k < |t| && s[..k] == t[..k] && s[k] < t[k]
  }

  // ---- Smallest element of a set, as `BTreeSet::pop_first` takes it ----

  ghost predicate IsMin(m: nat, s: set<nat>) {
    m in s && forall x | x in s :: m <= x
  }

  lemma MinExists(s: set<nat>)
    requires s != {}
    ensures exists m :: IsMin(m, s)
    decreases s
  {
    var x :| x in s;
    if s == {x} {
      assert IsMin(x, s);
    } else {
      MinExists(s - {x});
      var m :| IsMin(m, s - {x});
      var best := if m < x then m else x;
      forall y | y in s ensures best <= y {
        assert y == x || y in s - {x};
      }
      assert IsMin(best, s);
    }
  }

  function Min(s: set<nat>): (m: nat)
    requires s != {}
    ensures IsMin(m, s)
  {
    MinExists(s);
    var m :| m in s && forall x | x in s :: m <= x;
    m
  }

  // ---- Kahn's algorithm, as a function on what has been emitted so far ----

  // The nodes of `on` that can be emitted next: not emitted yet, and every
  // predecessor inside `on` already emitted.
  ghost predicate IsReady(edges: Edges, on: set<nat>, emitted: seq<nat>, i: nat) {
    i in on && i !in emitted && forall k | k in on && HasEdge(edges, k, i) :: k in emitted
  }

  ghost function Ready(edges: Edges, on: set<nat>, emitted: seq<nat>): (r: set<nat>)
    ensures forall i :: i in r <==> IsReady(edges, on, emitted, i)
  {
    set i | i in on && IsReady(edges, on, emitted, i)
  }

  ghost function Pending(on: set<nat>, emitted: seq<nat>): set<nat> {
    set i | i in on && i !in emitted
  }

  ghost function KahnFrom(edges: Edges, on: set<nat>, emitted: seq<nat>): seq<nat>
    decreases Pending(on, emitted)
  {
    var ready := Ready(edges, on, emitted);
    if ready == {} then emitted
    else
      var next := Min(ready);
      assert next in Pending(on, emitted) && next !in Pending(on, emitted + [next]);
      KahnFrom(edges, on, emitted + [next])
  }

  // The order of `on` alone, ignoring every other node.
  ghost function KahnOn(edges: Edges, on: set<nat>): seq<nat> {
    KahnFrom(edges, on, [])
  }

  // The whole effective order.
  ghost function Kahn(edges: Edges): seq<nat> {
    KahnOn(edges, Nodes(edges))
  }
}
