// Orders of a requested list under a "must load before" relation, for any kind
// of reference: what the three resolvers have in common.
module Priorities {
  import opened Results
  import opened Sequences
  import opened Graphs
  import opened GraphTheorems

  // What can be wrong with a selection; positions refer to the requested list.
  datatype Fault =
    | TooMany
    | Repeated(index: nat)
    | InvalidReference(index: nat)
    | Unavailable(index: nat)
    | InvalidMetadata(index: nat)
    | MissingRequirement(index: nat)
    | WrongRelease(index: nat, dependency: nat)
    | CyclicOrder(cycle: seq<nat>)

  function AddEdge(edges: Edges, from: nat, to: nat): (r: Edges)
    requires from < |edges|
    ensures |r| == |edges|
    ensures forall i, j :: HasEdge(r, i, j) <==> HasEdge(edges, i, j) || (i == from && j == to)
    ensures WellFormed(edges) && to < |edges| ==> WellFormed(r)
  {
    edges[from := edges[from] + {to}]
  }

  lemma SameEdges(e: Edges, f: Edges)
    requires |e| == |f| && WellFormed(e) && WellFormed(f)
    requires forall i, j | 0 <= i < |e| && 0 <= j < |e| :: HasEdge(e, i, j) <==> HasEdge(f, i, j)
    ensures e == f
  {
    forall i | 0 <= i < |e| ensures e[i] == f[i] {
      forall j ensures j in e[i] <==> j in f[i] {
        if j in e[i] || j in f[i] {
          assert j < |e|;
          assert HasEdge(e, i, j) <==> HasEdge(f, i, j);
        }
      }
    }
  }

  ghost function EdgesOf<R>(requested: seq<R>, precedes: (R, R) -> bool): (edges: Edges)
    ensures |edges| == |requested| && WellFormed(edges)
    ensures forall i, j | 0 <= i < |requested| && 0 <= j < |requested| ::
              HasEdge(edges, i, j) <==> precedes(requested[i], requested[j])
  {
    seq(|requested|, i requires 0 <= i < |requested| =>
      set j: nat | j < |requested| && precedes(requested[i], requested[j]))
  }

  function Select<R>(requested: seq<R>, indices: seq<nat>): (r: seq<R>)
    requires Bounded(indices, |requested|)
    ensures |r| == |indices| && forall k | 0 <= k < |indices| :: r[k] == requested[indices[k]]
  {
    seq(|indices|, k requires 0 <= k < |indices| => requested[indices[k]])
  }

  lemma KahnBounded(edges: Edges)
    ensures Bounded(Kahn(edges), |edges|) && Emittable(edges, Nodes(edges), Kahn(edges))
  {
    KahnFromSound(edges, Nodes(edges), []);
    var r := Kahn(edges);
    forall k | 0 <= k < |r| ensures r[k] < |edges| { assert r[k] in Elements(r); }
  }

  // The effective order of a requested list.
  ghost function Order<R>(requested: seq<R>, precedes: (R, R) -> bool): seq<R> {
    KahnBounded(EdgesOf(requested, precedes));
    Select(requested, Kahn(EdgesOf(requested, precedes)))
  }

  ghost predicate Orderable<R>(requested: seq<R>, precedes: (R, R) -> bool) {
    Acyclic(EdgesOf(requested, precedes))
  }

  // ---- The effective order, in terms of the requested list ----

  lemma KahnIsPermutation(edges: Edges)
    requires WellFormed(edges) && Acyclic(edges)
    ensures IsLinearExtension(edges, Kahn(edges)) && |Kahn(edges)| == |edges|
    ensures Bounded(Kahn(edges), |edges|)
  {
    KahnComplete(edges);
    KahnBounded(edges);
    var r, s := Kahn(edges), Upto(|edges|);
    DistinctLength(r);
    DistinctLength(s);
    forall x ensures x in Elements(s) <==> x in Nodes(edges) {
      if x in Nodes(edges) { assert s[x] == x; }
    }
    assert Elements(s) == Elements(r);
  }

  // The same references, each as often; every "must load before" is met; and among all
  // orders that meet them it is the least, by the places in the request.
  lemma OrderMeaning<R>(requested: seq<R>, precedes: (R, R) -> bool)
    requires Orderable(requested, precedes)
    ensures var r := Order(requested, precedes);
            && |r| == |requested|
            && multiset(r) == multiset(requested)
            && forall i, j | 0 <= i <= j < |r| :: !precedes(r[j], r[i])
    ensures var edges := EdgesOf(requested, precedes);
            forall s: seq<nat> | IsLinearExtension(edges, s) :: LexAtMost(Kahn(edges), s)
  {
    var edges := EdgesOf(requested, precedes);
    forall s: seq<nat> | IsLinearExtension(edges, s) ensures LexAtMost(Kahn(edges), s) {
      KahnIsLeast(edges, s);
    }
    var k := Kahn(edges);
    var r := Order(requested, precedes);
    KahnIsPermutation(edges);
    forall i, j | 0 <= i <= j < |r| ensures !precedes(r[j], r[i]) {
      assert !HasEdge(edges, k[j], k[i]);
    }
    assert Elements(k) == Nodes(edges);
    SelectAll(requested, k);
  }

  lemma {:induction false} SelectAll<R>(requested: seq<R>, k: seq<nat>)
    requires Bounded(k, |requested|) && Distinct(k) && |k| == |requested|
    ensures multiset(Select(requested, k)) == multiset(requested)
    decreases |requested|
  {
    if requested == [] {
      assert Select(requested, k) == requested;
    } else {
      var n := |requested| - 1;
      LastIsListed(k, n);
      var m: nat :| m < |k| && k[m] == n;
      RestIsBounded(k, m, n);
      SelectAll(requested[..n], Without(k, m));
      SelectRest(requested, k, m);
      WithoutCounts(Select(requested, k), m);
      assert requested == requested[..n] + [requested[n]];
    }
  }

  lemma RestIsBounded(k: seq<nat>, m: nat, n: nat)
    requires Distinct(k) && Bounded(k, n + 1) && m < |k| && k[m] == n
    ensures Distinct(Without(k, m)) && Bounded(Without(k, m), n)
  {
    var rest := Without(k, m);
    WithoutIsDistinct(k, m);
    forall i | 0 <= i < |rest| ensures rest[i] < n {
      assert rest[i] in rest;
    }
  }

  // Leaving out the last one commutes with selecting.
  lemma SelectRest<R>(requested: seq<R>, k: seq<nat>, m: nat)
    requires Bounded(k, |requested|) && m < |k| && k[m] == |requested| - 1 && Bounded(Without(k, m), |requested| - 1)
    ensures Select(requested[..|requested| - 1], Without(k, m)) == Without(Select(requested, k), m)
  {
  }

  function Without<R>(s: seq<R>, m: nat): (r: seq<R>)
    requires m < |s|
    ensures |r| == |s| - 1 && forall i | 0 <= i < |r| :: r[i] == if i < m then s[i] else s[i + 1]
  {
    s[..m] + s[m + 1..]
  }

  lemma WithoutCounts<R>(s: seq<R>, m: nat)
    requires m < |s|
    ensures multiset(s) == multiset(Without(s, m)) + multiset{s[m]}
  {
    assert s == s[..m] + [s[m]] + s[m + 1..];
  }

  lemma WithoutIsDistinct(k: seq<nat>, m: nat)
    requires m < |k| && Distinct(k)
    ensures Distinct(Without(k, m)) && k[m] !in Without(k, m)
    ensures forall x | x in Without(k, m) :: x in k
  {
  }

  lemma LastIsListed(k: seq<nat>, n: nat)
    requires Distinct(k) && Bounded(k, n + 1) && |k| == n + 1
    ensures n in k
  {
    if n !in k {
      var below := Upto(n);
      DistinctLength(below);
      forall x | x in Elements(k) ensures x in Elements(below) {
        var i :| 0 <= i < |k| && k[i] == x;
        assert below[x] == x;
      }
      Pigeonhole(k, Elements(below));
    }
  }

  // ---- The effective order among all orders of the same references ----

  ghost predicate NoRepeats<R>(s: seq<R>) {
    forall i, j | 0 <= i < j < |s| :: s[i] != s[j]
  }

  ghost predicate SameMembers<R>(s: seq<R>, t: seq<R>) {
    |s| == |t| && multiset(s) == multiset(t)
  }

  lemma SameMembersIn<R>(s: seq<R>, t: seq<R>)
    requires SameMembers(s, t)
    ensures forall x :: x in s <==> x in t
  {
    forall x ensures x in s <==> x in t {
      assert x in s <==> x in multiset(s);
      assert x in t <==> x in multiset(t);
    }
  }

  lemma {:induction false} DistinctCounts<R>(s: seq<R>)
    ensures NoRepeats(s) <==> forall x | x in s :: multiset(s)[x] == 1
  {
    if s != [] {
      var n := |s| - 1;
      var init, last := s[..n], s[n];
      DistinctCounts(init);
      assert s == init + [last];
      assert multiset(s) == multiset(init) + multiset{last};
      if NoRepeats(s) {
        assert last !in init;
      } else if NoRepeats(init) {
        assert last in init;
        assert multiset(s)[last] >= 2;
        assert last in s;
      } else {
        var x :| x in init && multiset(init)[x] != 1;
        assert x in s && multiset(s)[x] >= multiset(init)[x] >= 1;
      }
    }
  }

  lemma SameMembersDistinct<R>(s: seq<R>, t: seq<R>)
    requires SameMembers(s, t) && NoRepeats(s)
    ensures NoRepeats(t)
  {
    DistinctCounts(s);
    DistinctCounts(t);
    SameMembersIn(s, t);
  }

  ghost predicate Obeys<R>(s: seq<R>, precedes: (R, R) -> bool) {
    forall i, j | 0 <= i <= j < |s| :: !precedes(s[j], s[i])
  }

  // Where r and s first differ, r has what is requested earlier.
  ghost predicate Ahead<R>(requested: seq<R>, r: seq<R>, s: seq<R>) {
    r == s || exists k :: 0 <= k < |r| && k < |s| && r[..k] == s[..k] && RequestedBefore(requested, r[k], s[k])
  }

  ghost predicate RequestedBefore<R>(requested: seq<R>, x: R, y: R) {
    exists i, j :: 0 <= i < j < |requested| && requested[i] == x && requested[j] == y
  }

  ghost function PlacesIn<R>(requested: seq<R>, s: seq<R>): (k: seq<nat>)
    requires forall x | x in s :: x in requested
    ensures |k| == |s| && forall i | 0 <= i < |k| :: k[i] < |requested| && requested[k[i]] == s[i]
  {
    if s == [] then []
    else
      var n := |s| - 1;
      assert s[n] in requested;
      var place: nat :| place < |requested| && requested[place] == s[n];
      PlacesIn(requested, s[..n]) + [place]
  }

  lemma PlacesAreLinear<R>(requested: seq<R>, s: seq<R>, precedes: (R, R) -> bool, k: seq<nat>)
    requires NoRepeats(requested) && SameMembers(s, requested) && Obeys(s, precedes)
    requires |k| == |s| && forall i | 0 <= i < |k| :: k[i] < |requested| && requested[k[i]] == s[i]
    ensures IsLinearExtension(EdgesOf(requested, precedes), k)
  {
    var edges := EdgesOf(requested, precedes);
    SameMembersIn(s, requested);
    SameMembersDistinct(requested, s);
    forall x ensures x in Elements(k) <==> x in Nodes(edges) {
      if x in Nodes(edges) {
        assert requested[x] in s;
        var i :| 0 <= i < |s| && s[i] == requested[x];
        assert k[i] == x;
      }
    }
    forall i, j | 0 <= i <= j < |k| ensures !HasEdge(edges, k[j], k[i]) {
      assert !precedes(s[j], s[i]);
    }
  }

  lemma SelectAhead<R>(requested: seq<R>, p: seq<nat>, q: seq<nat>)
    requires Bounded(p, |requested|) && Bounded(q, |requested|) && LexAtMost(p, q)
    ensures Ahead(requested, Select(requested, p), Select(requested, q))
  {
    if p != q {
      var r, s := Select(requested, p), Select(requested, q);
      var m :| 0 <= m < |p| && m < |q| && p[..m] == q[..m] && p[m] < q[m];
      forall i | 0 <= i < m ensures r[i] == s[i] {
        assert p[..m][i] == q[..m][i];
      }
      assert r[..m] == s[..m];
      assert RequestedBefore(requested, r[m], s[m]);
    }
  }

  // If any order meets every constraint, there is an effective order, and it is ahead of that one.
  lemma OrderIsFirst<R>(requested: seq<R>, precedes: (R, R) -> bool, s: seq<R>)
    requires NoRepeats(requested) && SameMembers(s, requested) && Obeys(s, precedes)
    ensures Orderable(requested, precedes) && Ahead(requested, Order(requested, precedes), s)
  {
    var edges := EdgesOf(requested, precedes);
    SameMembersIn(s, requested);
    var k := PlacesIn(requested, s);
    PlacesAreLinear(requested, s, precedes, k);
    LinearExtensionIsAcyclic(edges, k);
    KahnIsLeast(edges, k);
    KahnBounded(edges);
    SelectAhead(requested, Kahn(edges), k);
    assert Select(requested, k) == s;
  }

  // ---- Idempotence ----

  // Resolving an effective order again changes nothing and finds nothing to adjust.
  lemma OrderIsStable<R>(requested: seq<R>, precedes: (R, R) -> bool)
    requires Orderable(requested, precedes)
    ensures var r := Order(requested, precedes);
            Orderable(r, precedes) && Order(r, precedes) == r && Forward(EdgesOf(r, precedes))
  {
    var r := Order(requested, precedes);
    var edges := EdgesOf(r, precedes);
    OrderMeaning(requested, precedes);
    forall i: nat, j: nat | HasEdge(edges, i, j) ensures i < j {
      assert precedes(r[i], r[j]);
    }
    ForwardIsLinear(edges);
    LinearExtensionIsAcyclic(edges, Upto(|edges|));
    KahnKeepsForward(edges);
  }

  // ---- Adjustments ----

  type Adjustment = (nat, nat)

  // One adjustment for each edge that points against the requested order.
  method Adjustments(edges: Edges) returns (adjustments: seq<Adjustment>)
    requires WellFormed(edges)
    ensures forall a: nat, b: nat :: (a, b) in adjustments <==> HasEdge(edges, a, b) && a > b
  {
    adjustments := [];
    for from := 0 to |edges|
      invariant forall a: nat, b: nat :: (a, b) in adjustments <==> a < from && HasEdge(edges, a, b) && a > b
    {
      var targets := edges[from];
      while targets != {}
        invariant targets <= edges[from]
        invariant forall a: nat, b: nat :: (a, b) in adjustments <==>
            (a < from && HasEdge(edges, a, b) && a > b) || (a == from && b in edges[from] - targets && a > b)
      {
        var to := Min(targets);
        if from > to {
          adjustments := adjustments + [(from, to)];
        }
        targets := targets - {to};
      }
    }
  }

  // Nothing was adjusted exactly when the effective order is the requested one.
  lemma NoAdjustments<R>(requested: seq<R>, precedes: (R, R) -> bool, adjustments: seq<Adjustment>)
    requires Orderable(requested, precedes)
    requires forall i, j | 0 <= i < j < |requested| :: requested[i] != requested[j]
    requires forall a: nat, b: nat :: (a, b) in adjustments <==> HasEdge(EdgesOf(requested, precedes), a, b) && a > b
    ensures adjustments == [] <==> Order(requested, precedes) == requested
  {
    var edges := EdgesOf(requested, precedes);
    var k, r := Kahn(edges), Order(requested, precedes);
    KahnIsPermutation(edges);
    KahnKeepsForward(edges);
    if r == requested {
      forall i | 0 <= i < |k| ensures k[i] == i { assert requested[k[i]] == requested[i]; }
    }
    assert r == requested <==> k == Upto(|edges|);
    if adjustments == [] {
      forall a: nat, b: nat | HasEdge(edges, a, b) ensures a < b {
        assert (a, b) !in adjustments;
        NoSelfEdge(edges, a);
      }
    } else {
      var p := adjustments[0];
      assert (p.0, p.1) in adjustments;
    }
  }

  lemma NoSelfEdge(edges: Edges, a: nat)
    requires Acyclic(edges)
    ensures !HasEdge(edges, a, a)
  {
    var w := [a, a];
    assert !IsClosedWalk(edges, w);
    assert IsWalk(edges, w) <==> HasEdge(edges, w[0], w[1]);
  }

  // ---- Projection ----

  function Part<R, S>(s: seq<R>, part: R -> Option<S>): seq<S> {
    if s == [] then []
    else
      var rest := Part(s[..|s| - 1], part);
      match part(s[|s| - 1])
      case Some(x) => rest + [x]
      case None => rest
  }

  ghost function Positions<R, S>(s: seq<R>, part: R -> Option<S>): (pos: seq<nat>)
    ensures Increasing(pos) && Bounded(pos, |s|)
    ensures forall i :: i in Elements(pos) <==> 0 <= i < |s| && part(s[i]).Some?
    ensures |Part(s, part)| == |pos|
    ensures forall k | 0 <= k < |pos| :: pos[k] in Elements(pos) && part(s[pos[k]]) == Some(Part(s, part)[k])
  {
    if s == [] then []
    else
      var n := |s| - 1;
      var rest := Positions(s[..n], part);
      assert forall i | 0 <= i < n :: s[..n][i] == s[i];
      if part(s[n]).Some? then
        assert Elements(rest + [n]) == Elements(rest) + {n};
        rest + [n]
      else rest
  }

  lemma {:induction false} PartMember<R, S>(s: seq<R>, part: R -> Option<S>)
    ensures forall x :: x in Part(s, part) <==> exists r :: r in s && part(r) == Some(x)
  {
    if s != [] {
      var init, last := s[..|s| - 1], s[|s| - 1];
      PartMember(init, part);
      assert s == init + [last];
    }
  }

  lemma {:induction false} PartLength<R, S>(s: seq<R>, part: R -> Option<S>)
    ensures |Part(s, part)| <= |s|
  {
    if s != [] {
      PartLength(s[..|s| - 1], part);
    }
  }

  ghost predicate Splits<R, S>(s: seq<R>, precedes: (R, R) -> bool, part: R -> Option<S>, within: (S, S) -> bool) {
    forall a, b | a in s && b in s ::
      && (precedes(a, b) ==> (part(a).Some? <==> part(b).Some?))
      && (part(a).Some? && part(b).Some? ==> (precedes(a, b) <==> within(part(a).value, part(b).value)))
  }

  lemma PartEmbeds<R, S>(s: seq<R>, precedes: (R, R) -> bool, part: R -> Option<S>, within: (S, S) -> bool)
    requires Splits(s, precedes, part, within)
    ensures var edges, pos := EdgesOf(s, precedes), Positions(s, part);
            Embeds(EdgesOf(Part(s, part), within), edges, pos) && Separate(edges, Nodes(edges), Elements(pos))
  {
    var edges, pos := EdgesOf(s, precedes), Positions(s, part);
    var sub := EdgesOf(Part(s, part), within);
    forall i, j | 0 <= i < |pos| && 0 <= j < |pos| ensures HasEdge(sub, i, j) <==> HasEdge(edges, pos[i], pos[j]) {
      assert s[pos[i]] in s && s[pos[j]] in s;
    }
    forall k, i | k in Nodes(edges) && i in Elements(pos) && HasEdge(edges, k, i) ensures k in Elements(pos) {
      assert s[k] in s && s[i] in s;
    }
  }

  lemma {:induction false} PartOfSelect<R, S>(s: seq<R>, part: R -> Option<S>, k: seq<nat>, on: set<nat>)
    requires Bounded(k, |s|)
    requires forall i | 0 <= i < |s| :: i in on <==> part(s[i]).Some?
    ensures var kept := Filter(k, on);
            && Bounded(kept, |s|)
            && |Part(Select(s, k), part)| == |kept|
            && forall m | 0 <= m < |kept| :: part(s[kept[m]]) == Some(Part(Select(s, k), part)[m])
  {
    if k != [] {
      var n := |k| - 1;
      PartOfSelect(s, part, k[..n], on);
      assert Select(s, k)[..n] == Select(s, k[..n]);
    }
  }

  lemma PartIsOrderable<R, S>(s: seq<R>, precedes: (R, R) -> bool, part: R -> Option<S>, within: (S, S) -> bool)
    requires Splits(s, precedes, part, within) && Orderable(s, precedes)
    ensures Orderable(Part(s, part), within)
  {
    var edges, pos := EdgesOf(s, precedes), Positions(s, part);
    var sub := EdgesOf(Part(s, part), within);
    PartEmbeds(s, precedes, part, within);
    forall w: seq<nat> ensures !IsClosedWalk(sub, w) {
      if IsClosedWalk(sub, w) {
        assert HasEdge(sub, w[0], w[1]);
        forall k | 0 <= k < |w| ensures w[k] < |pos| {
          if k < |w| - 1 { assert HasEdge(sub, w[k], w[k + 1]); }
        }
        var image := Renumber(pos, w);
        forall k | 0 <= k < |image| - 1 ensures HasEdge(edges, image[k], image[k + 1]) {
          assert HasEdge(sub, w[k], w[k + 1]);
        }
        assert IsClosedWalk(edges, image);
      }
    }
  }

  // The effective order of a mixture, restricted to one part that shares no
  // constraint with the rest, is the effective order of that part alone.
  lemma OrderProjects<R, S>(s: seq<R>, precedes: (R, R) -> bool, part: R -> Option<S>, within: (S, S) -> bool)
    requires Splits(s, precedes, part, within)
    ensures Part(Order(s, precedes), part) == Order(Part(s, part), within)
  {
    var edges, pos := EdgesOf(s, precedes), Positions(s, part);
    var sub := EdgesOf(Part(s, part), within);
    PartEmbeds(s, precedes, part, within);
    KahnBounded(edges);
    KahnBounded(sub);
    KahnProjects(edges, Elements(pos));
    KahnFromRenumbers(sub, edges, pos, []);
    assert Renumber(pos, []) == [];
    PartOfSelect(s, part, Kahn(edges), Elements(pos));
    var lhs, rhs := Part(Order(s, precedes), part), Order(Part(s, part), within);
    forall m | 0 <= m < |lhs| ensures lhs[m] == rhs[m] {
      assert Filter(Kahn(edges), Elements(pos))[m] == pos[Kahn(sub)[m]];
    }
  }
}
