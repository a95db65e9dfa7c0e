// What the graph algorithms of the load-order resolver are worth: Kahn's order
// is the least linear extension exactly when the graph has no cycle, and it
// commutes with restriction to a part of the graph that nothing else points into.
module GraphTheorems {
  import opened Sequences
  import opened Graphs

  // ---- Finite sets and sequences ----

  lemma {:induction false} SubsetCardinality(a: set<nat>, b: set<nat>)
    requires a <= b
    ensures |a| <= |b|
    decreases |a|
  {
    if a != {} {
      var x :| x in a;
      SubsetCardinality(a - {x}, b - {x});
    }
  }

  lemma {:induction false} DistinctLength(s: seq<nat>)
    requires Distinct(s)
    ensures |Elements(s)| == |s|
  {
    if s != [] {
      var rest := s[..|s| - 1];
      DistinctLength(rest);
      assert s == rest + [s[|s| - 1]];
      assert Elements(s) == Elements(rest) + {s[|s| - 1]};
    }
  }

  lemma Pigeonhole(s: seq<nat>, nodes: set<nat>)
    requires Elements(s) <= nodes && |s| > |nodes|
    ensures !Distinct(s)
  {
    if Distinct(s) {
      DistinctLength(s);
      SubsetCardinality(Elements(s), nodes);
    }
  }

  // ---- Cycles and linear extensions ----

  // A linear extension climbs along every edge, so no walk returns.
  lemma {:induction false} WalkClimbs(edges: Edges, order: seq<nat>, w: seq<nat>, i: nat) returns (j: nat)
    requires WellFormed(edges) && IsLinearExtension(edges, order)
    requires IsWalk(edges, w) && |w| > 0 && i < |order| && order[i] == w[0]
    ensures i <= j < |order| && order[j] == w[|w| - 1] && (|w| > 1 ==> i < j)
    decreases |w|
  {
    if |w| == 1 {
      j := i;
    } else {
      assert HasEdge(edges, w[0], w[1]);
      assert w[1] in Nodes(edges);
      assert w[1] in Elements(order);
      var k :| 0 <= k < |order| && order[k] == w[1];
      assert i < k;
      var rest := w[1..];
      forall m | 0 <= m < |rest| - 1 ensures HasEdge(edges, rest[m], rest[m + 1]) {
        assert HasEdge(edges, w[m + 1], w[m + 2]);
      }
      j := WalkClimbs(edges, order, rest, k);
    }
  }

  lemma LinearExtensionIsAcyclic(edges: Edges, order: seq<nat>)
    requires WellFormed(edges) && IsLinearExtension(edges, order)
    ensures Acyclic(edges)
  {
    forall w: seq<nat> ensures !IsClosedWalk(edges, w) {
      if IsClosedWalk(edges, w) {
        assert HasEdge(edges, w[0], w[1]);
        assert w[0] in Nodes(edges);
        assert w[0] in Elements(order);
        var i :| 0 <= i < |order| && order[i] == w[0];
        var j := WalkClimbs(edges, order, w, i);
        assert false;
      }
    }
  }

  ghost predicate HasPredecessorIn(edges: Edges, nodes: set<nat>, i: nat) {
    exists k :: k in nodes && HasEdge(edges, k, i)
  }

  ghost predicate Stuck(edges: Edges, nodes: set<nat>) {
    forall i {:trigger HasPredecessorIn(edges, nodes, i)} | i in nodes :: HasPredecessorIn(edges, nodes, i)
  }

  // Where every node has a predecessor, walks of any length can be traced back.
  lemma {:induction false} TraceBack(edges: Edges, stuck: set<nat>, length: nat) returns (w: seq<nat>)
    requires stuck != {} && Stuck(edges, stuck)
    ensures |w| == length + 1 && Elements(w) <= stuck && IsWalk(edges, w)
  {
    if length == 0 {
      var i :| i in stuck;
      w := [i];
    } else {
      var rest := TraceBack(edges, stuck, length - 1);
      assert rest[0] in Elements(rest);
      assert HasPredecessorIn(edges, stuck, rest[0]);
      var k :| k in stuck && HasEdge(edges, k, rest[0]);
      w := [k] + rest;
      forall m | 0 <= m < |w| - 1 ensures HasEdge(edges, w[m], w[m + 1]) {
        if m > 0 {
          assert w[m] == rest[m - 1] && w[m + 1] == rest[m];
        }
      }
      assert Elements(w) <= stuck;
    }
  }

  lemma StuckHasClosedWalk(edges: Edges, stuck: set<nat>)
    requires stuck != {} && Stuck(edges, stuck)
    ensures !Acyclic(edges)
  {
    var w := TraceBack(edges, stuck, |stuck|);
    Pigeonhole(w, stuck);
    var i, j :| 0 <= i < j < |w| && w[i] == w[j];
    var c := w[i..j + 1];
    forall m | 0 <= m < |c| - 1 ensures HasEdge(edges, c[m], c[m + 1]) {
      assert HasEdge(edges, w[i + m], w[i + m + 1]);
    }
    assert IsClosedWalk(edges, c);
  }

  // ---- Kahn's order ----

  // What has been emitted is closed under predecessors inside `on`.
  ghost predicate Emittable(edges: Edges, on: set<nat>, emitted: seq<nat>) {
    && Distinct(emitted)
    && Elements(emitted) <= on
    && Respects(edges, emitted)
    && forall k, x | x in emitted && k in on && HasEdge(edges, k, x) :: k in emitted
  }

  lemma EmitOne(edges: Edges, on: set<nat>, emitted: seq<nat>, next: nat)
    requires Emittable(edges, on, emitted) && IsReady(edges, on, emitted, next)
    ensures Emittable(edges, on, emitted + [next])
  {
    var longer := emitted + [next];
    assert Elements(longer) == Elements(emitted) + {next};
    forall i, j | 0 <= i <= j < |longer| ensures !HasEdge(edges, longer[j], longer[i]) {
      assert longer[j] in on;
      if j == |emitted| && i < |emitted| {
        assert longer[i] in emitted && next !in emitted;
      } else if i == j == |emitted| {
        assert next !in emitted;
      }
    }
  }

  lemma {:induction false} KahnFromSound(edges: Edges, on: set<nat>, emitted: seq<nat>)
    requires Emittable(edges, on, emitted)
    ensures var r := KahnFrom(edges, on, emitted);
            Emittable(edges, on, r) && emitted <= r && Ready(edges, on, r) == {}
    decreases Pending(on, emitted)
  {
    var ready := Ready(edges, on, emitted);
    if ready != {} {
      var next := Min(ready);
      EmitOne(edges, on, emitted, next);
      assert next in Pending(on, emitted) && next !in Pending(on, emitted + [next]);
      KahnFromSound(edges, on, emitted + [next]);
    }
  }

  // Kahn's order leaves nothing out exactly when the graph is acyclic, and then
  // it is a linear extension.
  lemma KahnComplete(edges: Edges)
    requires WellFormed(edges)
    ensures Acyclic(edges) <==> Elements(Kahn(edges)) == Nodes(edges)
    ensures Acyclic(edges) ==> IsLinearExtension(edges, Kahn(edges))
  {
    var on := Nodes(edges);
    var r := Kahn(edges);
    KahnFromSound(edges, on, []);
    if Elements(r) == on {
      LinearExtensionIsAcyclic(edges, r);
    } else {
      var stuck := Pending(on, r);
      var x :| x in on && x !in Elements(r);
      assert x in stuck;
      forall i | i in stuck ensures HasPredecessorIn(edges, stuck, i) {
        assert !IsReady(edges, on, r, i);
        var k :| k in on && HasEdge(edges, k, i) && k !in r;
        assert k in stuck;
      }
      StuckHasClosedWalk(edges, stuck);
    }
  }

  // The next element of any linear extension is always ready.
  lemma NextIsReady(edges: Edges, order: seq<nat>, k: nat)
    requires IsLinearExtension(edges, order) && k < |order|
    ensures IsReady(edges, Nodes(edges), order[..k], order[k])
  {
    assert order[k] in Elements(order);
    forall p | p in Nodes(edges) && HasEdge(edges, p, order[k]) ensures p in order[..k] {
      assert p in Elements(order);
      var j :| 0 <= j < |order| && order[j] == p;
      assert j < k;
      assert order[..k][j] == p;
    }
  }

  lemma {:induction false} KahnFromLeast(edges: Edges, order: seq<nat>, k: nat)
    requires WellFormed(edges) && IsLinearExtension(edges, order) && k <= |order|
    requires Emittable(edges, Nodes(edges), order[..k])
    ensures LexAtMost(KahnFrom(edges, Nodes(edges), order[..k]), order)
    decreases |order| - k
  {
    var on := Nodes(edges);
    var emitted := order[..k];
    var ready := Ready(edges, on, emitted);
    KahnFromSound(edges, on, emitted);
    if k == |order| {
      assert emitted == order;
      forall i | i in on ensures i !in ready {
        assert i in Elements(order);
      }
    } else {
      NextIsReady(edges, order, k);
      var next := Min(ready);
      EmitOne(edges, on, emitted, next);
      KahnFromSound(edges, on, emitted + [next]);
      var r := KahnFrom(edges, on, emitted + [next]);
      assert r == KahnFrom(edges, on, emitted);
      if next == order[k] {
        assert emitted + [next] == order[..k + 1];
        KahnFromLeast(edges, order, k + 1);
      } else {
        assert r[..k + 1] == emitted + [next];
        assert r[..k] == r[..k + 1][..k] == emitted;
        assert r[k] == r[..k + 1][k] == next;
        assert r[..k] == order[..k] && r[k] < order[k];
      }
    }
  }

  // Among all orders that respect the edges, Kahn's is the lexicographically
  // least one: it departs from the requested priority only where an edge forces it.
  lemma KahnIsLeast(edges: Edges, order: seq<nat>)
    requires WellFormed(edges) && IsLinearExtension(edges, order)
    ensures IsLinearExtension(edges, Kahn(edges)) && LexAtMost(Kahn(edges), order)
  {
    LinearExtensionIsAcyclic(edges, order);
    KahnComplete(edges);
    assert order[..0] == [];
    KahnFromLeast(edges, order, 0);
  }

  // ---- Orders that need no change ----

  function Upto(n: nat): (r: seq<nat>)
    ensures |r| == n && forall i | 0 <= i < n :: r[i] == i
  {
    seq(n, i => i)
  }

  ghost predicate Forward(edges: Edges) {
    forall a, b | HasEdge(edges, a, b) :: a < b
  }

  lemma ForwardIsLinear(edges: Edges)
    requires WellFormed(edges) && Forward(edges)
    ensures IsLinearExtension(edges, Upto(|edges|))
  {
    var s := Upto(|edges|);
    forall x ensures x in Elements(s) <==> x in Nodes(edges) {
      if x in Nodes(edges) { assert s[x] == x; }
    }
    assert Elements(s) == Nodes(edges);
  }

  lemma PrefixUpto(s: seq<nat>, n: nat, k: nat)
    requires Distinct(s) && (forall x | x in s :: x < n)
    requires k < |s| && k < n && s[..k] == Upto(n)[..k]
    ensures s[k] >= k
  {
    forall i | 0 <= i < k ensures s[i] == i {
      assert s[i] == s[..k][i];
    }
    var x := if s[k] < k then s[k] else k;
    var y := s[x];
    assert x < k ==> y == x;
  }

  // The requested order comes back unchanged exactly when no edge points backwards.
  lemma KahnKeepsForward(edges: Edges)
    requires WellFormed(edges) && Acyclic(edges)
    ensures Kahn(edges) == Upto(|edges|) <==> Forward(edges)
  {
    KahnComplete(edges);
    var r, s := Kahn(edges), Upto(|edges|);
    if r == s {
      forall a: nat, b: nat | HasEdge(edges, a, b) ensures a < b {
        assert s[a] == a && s[b] == b;
      }
    }
    if Forward(edges) {
      ForwardIsLinear(edges);
      KahnIsLeast(edges, s);
      if r != s {
        var k :| 0 <= k < |r| && k < |s| && r[..k] == s[..k] && r[k] < s[k];
        forall x | x in r ensures x < |edges| { assert x in Elements(r); }
        PrefixUpto(r, |edges|, k);
        assert false;
      }
    }
  }

  // ---- Restriction to a part of the graph ----

  ghost function Filter(s: seq<nat>, on: set<nat>): seq<nat> {
    if s == [] then []
    else
      var rest := Filter(s[..|s| - 1], on);
      if s[|s| - 1] in on then rest + [s[|s| - 1]] else rest
  }

  lemma {:induction false} FilterMember(s: seq<nat>, on: set<nat>)
    ensures forall x :: x in Filter(s, on) <==> x in s && x in on
  {
    if s != [] {
      FilterMember(s[..|s| - 1], on);
      assert s == s[..|s| - 1] + [s[|s| - 1]];
    }
  }

  lemma FilterAppend(s: seq<nat>, x: nat, on: set<nat>)
    ensures Filter(s + [x], on) == if x in on then Filter(s, on) + [x] else Filter(s, on)
  {
    assert (s + [x])[..|s|] == s;
  }

  // Nothing in `all` outside `on` must come before a member of `on`.
  ghost predicate Separate(edges: Edges, all: set<nat>, on: set<nat>) {
    on <= all && forall k, i | k in all && i in on && HasEdge(edges, k, i) :: k in on
  }

  lemma ReadyCommutes(edges: Edges, all: set<nat>, on: set<nat>, emitted: seq<nat>)
    requires Separate(edges, all, on)
    ensures Ready(edges, on, Filter(emitted, on)) == Ready(edges, all, emitted) * on
  {
    FilterMember(emitted, on);
  }

  // Projection: choosing the smallest ready node over the whole graph and then
  // keeping only `on` is the same as running on `on` alone.
  lemma {:induction false} KahnFromProjects(edges: Edges, all: set<nat>, on: set<nat>, emitted: seq<nat>)
    requires Separate(edges, all, on)
    ensures Filter(KahnFrom(edges, all, emitted), on) == KahnFrom(edges, on, Filter(emitted, on))
    decreases Pending(all, emitted)
  {
    ReadyCommutes(edges, all, on, emitted);
    var ready := Ready(edges, all, emitted);
    if ready != {} {
      var next := Min(ready);
      assert next in Pending(all, emitted) && next !in Pending(all, emitted + [next]);
      KahnFromProjects(edges, all, on, emitted + [next]);
      FilterAppend(emitted, next, on);
      if next in on {
        assert next in ready * on;
        assert Min(ready * on) == next;
      }
    }
  }

  lemma KahnProjects(edges: Edges, on: set<nat>)
    requires Separate(edges, Nodes(edges), on)
    ensures Filter(Kahn(edges), on) == KahnOn(edges, on)
  {
    KahnFromProjects(edges, Nodes(edges), on, []);
  }

  // ---- Renumbering a part of the graph ----

  ghost predicate Bounded(s: seq<nat>, n: nat) {
    forall k | 0 <= k < |s| :: s[k] < n
  }

  ghost function Renumber(pos: seq<nat>, s: seq<nat>): (r: seq<nat>)
    requires Bounded(s, |pos|)
    ensures |r| == |s| && forall k | 0 <= k < |s| :: r[k] == pos[s[k]]
  {
    seq(|s|, k requires 0 <= k < |s| => pos[s[k]])
  }

  // sub is the part of edges on the nodes listed in pos, numbered from zero.
  ghost predicate Embeds(sub: Edges, edges: Edges, pos: seq<nat>) {
    && |sub| == |pos|
    && WellFormed(sub)
    && Increasing(pos)
    && (forall i, j :: 0 <= i < |pos| && 0 <= j < |pos| ==> (HasEdge(sub, i, j) <==> HasEdge(edges, pos[i], pos[j])))
  }

  lemma ReadyRenumbers(sub: Edges, edges: Edges, pos: seq<nat>, emitted: seq<nat>, i: nat)
    requires Embeds(sub, edges, pos) && Bounded(emitted, |pos|) && i < |pos|
    ensures IsReady(sub, Nodes(sub), emitted, i) <==> IsReady(edges, Elements(pos), Renumber(pos, emitted), pos[i])
  {
    var image := Renumber(pos, emitted);
    forall k | 0 <= k < |pos| ensures k in emitted <==> pos[k] in image {
      if k in emitted {
        var m :| 0 <= m < |emitted| && emitted[m] == k;
        assert image[m] == pos[k];
      }
      if pos[k] in image {
        var m :| 0 <= m < |image| && image[m] == pos[k];
        assert emitted[m] in emitted && pos[emitted[m]] == pos[k];
        assert emitted[m] == k;
      }
    }
    if IsReady(edges, Elements(pos), image, pos[i]) {
      forall k | k in Nodes(sub) && HasEdge(sub, k, i) ensures k in emitted {
        assert HasEdge(edges, pos[k], pos[i]) && pos[k] in Elements(pos);
      }
    }
    if IsReady(sub, Nodes(sub), emitted, i) {
      forall k | k in Elements(pos) && HasEdge(edges, k, pos[i]) ensures k in image {
        var m :| 0 <= m < |pos| && pos[m] == k;
        assert HasEdge(sub, m, i);
      }
    }
  }

  // The smallest ready node of the image is the image of the smallest ready node.
  lemma NextRenumbers(sub: Edges, edges: Edges, pos: seq<nat>, emitted: seq<nat>)
    requires Embeds(sub, edges, pos) && Bounded(emitted, |pos|)
    ensures var ready, image := Ready(sub, Nodes(sub), emitted), Ready(edges, Elements(pos), Renumber(pos, emitted));
            && (ready == {} <==> image == {})
            && (ready != {} ==> Min(ready) < |pos| && Min(image) == pos[Min(ready)])
  {
    var ready := Ready(sub, Nodes(sub), emitted);
    var image := Ready(edges, Elements(pos), Renumber(pos, emitted));
    forall i | 0 <= i < |pos| ensures i in ready <==> pos[i] in image {
      ReadyRenumbers(sub, edges, pos, emitted, i);
    }
    forall x | x in image ensures exists i :: 0 <= i < |pos| && pos[i] == x && i in ready {
      var i :| 0 <= i < |pos| && pos[i] == x;
    }
    if ready != {} {
      assert pos[Min(ready)] in image;
      forall x | x in image ensures pos[Min(ready)] <= x {
        var i :| 0 <= i < |pos| && pos[i] == x && i in ready;
      }
    }
  }

  lemma {:induction false} KahnFromRenumbers(sub: Edges, edges: Edges, pos: seq<nat>, emitted: seq<nat>)
    requires Embeds(sub, edges, pos) && Emittable(sub, Nodes(sub), emitted)
    ensures var r := KahnFrom(sub, Nodes(sub), emitted);
            && Bounded(r, |pos|)
            && Bounded(emitted, |pos|)
            && KahnFrom(edges, Elements(pos), Renumber(pos, emitted)) == Renumber(pos, r)
    decreases Pending(Nodes(sub), emitted)
  {
    forall k | 0 <= k < |emitted| ensures emitted[k] < |pos| { assert emitted[k] in Elements(emitted); }
    var ready := Ready(sub, Nodes(sub), emitted);
    NextRenumbers(sub, edges, pos, emitted);
    if ready != {} {
      var next := Min(ready);
      EmitOne(sub, Nodes(sub), emitted, next);
      assert next in Pending(Nodes(sub), emitted) && next !in Pending(Nodes(sub), emitted + [next]);
      KahnFromRenumbers(sub, edges, pos, emitted + [next]);
      assert Renumber(pos, emitted + [next]) == Renumber(pos, emitted) + [pos[next]];
    }
  }
}
