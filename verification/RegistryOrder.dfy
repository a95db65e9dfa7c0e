// Ordering a selection of registry releases.
module RegistryOrder {
  import opened Results
  import opened Graphs
  import opened TopologicalSort
  import opened CycleSearch
  import opened Dependencies
  import opened References
  import opened Priorities

  predicate ReleaseBefore(installed: seq<RegistryEntry>, a: ExactReference, b: ExactReference) {
    var entry := FindEntry(installed, b);
    entry.Some? && DependsAmong(entry.value.dependencies, a.modId)
  }

  ghost function ReleasesPrecede(installed: seq<RegistryEntry>): (f: (ExactReference, ExactReference) -> bool)
    ensures forall a, b :: f(a, b) <==> ReleaseBefore(installed, a, b)
  {
    (a, b) => ReleaseBefore(installed, a, b)
  }

  // The dependency d of the release at `index` is met inside the selection.
  ghost predicate Met(installed: seq<RegistryEntry>, requested: seq<ExactReference>, d: Dependency) {
    exists i :: 0 <= i < |requested| && MetBy(installed, requested[i], d)
  }

  ghost predicate MetBy(installed: seq<RegistryEntry>, reference: ExactReference, d: Dependency) {
    var entry := FindEntry(installed, reference);
    d.modId == reference.modId && entry.Some? && Matches(d, reference.modId, reference.releaseId, entry.value.versionLabel)
  }

  ghost predicate OneReleasePerMod(requested: seq<ExactReference>) {
    forall i, j | 0 <= i < j < |requested| :: requested[i].modId != requested[j].modId
  }

  ghost predicate Described(installed: seq<RegistryEntry>, reference: ExactReference) {
    var entry := FindEntry(installed, reference);
    entry.Some? && AllValid(reference.modId, entry.value.dependencies)
  }

  ghost predicate RequirementsMet(installed: seq<RegistryEntry>, requested: seq<ExactReference>, reference: ExactReference) {
    var entry := FindEntry(installed, reference);
    entry.Some? && forall d | d in entry.value.dependencies :: Met(installed, requested, d)
  }

  ghost predicate RegistryAccepts(installed: seq<RegistryEntry>, requested: seq<ExactReference>) {
    && |requested| <= MAX_MODS
    && OneReleasePerMod(requested)
    && (forall r | r in requested :: Described(installed, r))
    && (forall r | r in requested :: RequirementsMet(installed, requested, r))
    && Orderable(requested, ReleasesPrecede(installed))
  }

  // Every fault that is reported is really there.
  ghost predicate RegistryFault(installed: seq<RegistryEntry>, requested: seq<ExactReference>, fault: Fault) {
    match fault
    case TooMany => |requested| > MAX_MODS
    case Repeated(i) => i < |requested| && exists j :: 0 <= j < i && requested[j].modId == requested[i].modId
    case InvalidReference(_) => false
    case Unavailable(i) => i < |requested| && FindEntry(installed, requested[i]).None?
    case InvalidMetadata(i) =>
      i < |requested| && FindEntry(installed, requested[i]).Some? && !Described(installed, requested[i])
    case MissingRequirement(i) =>
      && i < |requested| && FindEntry(installed, requested[i]).Some?
      && exists d :: d in FindEntry(installed, requested[i]).value.dependencies && forall r | r in requested :: r.modId != d.modId
    case WrongRelease(i, j) =>
      && i < |requested| && j < |requested| && FindEntry(installed, requested[i]).Some?
      && exists d :: d in FindEntry(installed, requested[i]).value.dependencies && d.modId == requested[j].modId && !MetBy(installed, requested[j], d)
    case CyclicOrder(cycle) => IsCycle(EdgesOf(requested, ReleasesPrecede(installed)), cycle)
  }

  ghost predicate Selected(installed: seq<RegistryEntry>, requested: seq<ExactReference>, selected: seq<RegistryEntry>) {
    && |selected| == |requested|
    && forall i | 0 <= i < |selected| :: FindEntry(installed, requested[i]) == Some(selected[i])
  }

  ghost predicate PositionsOf(requested: seq<ExactReference>, positions: map<nat, nat>) {
    && (forall m | m in positions :: positions[m] < |requested| && requested[positions[m]].modId == m)
    && (forall i | 0 <= i < |requested| :: requested[i].modId in positions && positions[requested[i].modId] == i)
  }

  method SelectEntries(installed: seq<RegistryEntry>, requested: seq<ExactReference>)
    returns (r: Result<(map<nat, nat>, seq<RegistryEntry>), Fault>)
    ensures r.Ok? <==> OneReleasePerMod(requested) && forall x | x in requested :: Described(installed, x)
    ensures r.Ok? ==> PositionsOf(requested, r.value.0) && Selected(installed, requested, r.value.1)
    ensures r.Err? ==> RegistryFault(installed, requested, r.error)
  {
    var positions: map<nat, nat> := map[];
    var selected := [];
    for index := 0 to |requested|
      invariant PositionsOf(requested[..index], positions) && Selected(installed, requested[..index], selected)
      invariant forall x | x in requested[..index] :: Described(installed, x)
    {
      var reference := requested[index];
      assert reference in requested;
      assert requested[..index + 1] == requested[..index] + [reference];
      if reference.modId in positions {
        assert requested[positions[reference.modId]].modId == requested[index].modId;
        return Err(Repeated(index));
      }
      var entry := FindEntry(installed, reference);
      if entry.None? {
        return Err(Unavailable(index));
      }
      var valid := ValidDependencies(reference.modId, entry.value.dependencies);
      if !valid {
        return Err(InvalidMetadata(index));
      }
      positions := positions[reference.modId := index];
      selected := selected + [entry.value];
    }
    assert requested[..|requested|] == requested;
    return Ok((positions, selected));
  }

  predicate DependsAmong(among: seq<Dependency>, modId: nat) {
    exists d | d in among :: d.modId == modId
  }

  // The edges of the first `upto` releases, and of `among` dependencies of the next one.
  ghost predicate EdgesSoFar(requested: seq<ExactReference>, selected: seq<RegistryEntry>, edges: Edges, upto: nat, among: seq<Dependency>)
    requires |selected| == |requested|
  {
    && |edges| == |requested|
    && WellFormed(edges)
    && forall i, j | 0 <= i < |requested| && 0 <= j < |requested| ::
         (HasEdge(edges, i, j) <==> EdgeSoFar(requested[i], selected[j], j, upto, among))
  }

  predicate EdgeSoFar(a: ExactReference, entry: RegistryEntry, j: nat, upto: nat, among: seq<Dependency>) {
    (j < upto && DependsAmong(entry.dependencies, a.modId)) || (j == upto && DependsAmong(among, a.modId))
  }

  // One dependency: the position that meets it, or what is wrong with it.
  method CheckDependency(installed: seq<RegistryEntry>, requested: seq<ExactReference>, positions: map<nat, nat>,
      selected: seq<RegistryEntry>, index: nat, required: Dependency) returns (r: Result<nat, Fault>)
    requires PositionsOf(requested, positions) && Selected(installed, requested, selected) && OneReleasePerMod(requested)
    requires index < |requested| && required in selected[index].dependencies
    ensures r.Ok? <==> Met(installed, requested, required)
    ensures r.Ok? ==> r.value < |requested| && requested[r.value].modId == required.modId
    ensures r.Err? ==> RegistryFault(installed, requested, r.error)
  {
    if required.modId !in positions {
      return Err(MissingRequirement(index));
    }
    var dependency := positions[required.modId];
    var candidate := selected[dependency];
    if !Matches(required, candidate.reference.modId, candidate.reference.releaseId, candidate.versionLabel) {
      assert !MetBy(installed, requested[dependency], required);
      return Err(WrongRelease(index, dependency));
    }
    assert MetBy(installed, requested[dependency], required);
    return Ok(dependency);
  }

  lemma OneMoreEdge(requested: seq<ExactReference>, selected: seq<RegistryEntry>, edges: Edges,
                    upto: nat, among: seq<Dependency>, d: Dependency, from: nat)
    requires |selected| == |requested| && OneReleasePerMod(requested) && upto < |requested|
    requires EdgesSoFar(requested, selected, edges, upto, among)
    requires from < |requested| && requested[from].modId == d.modId
    ensures EdgesSoFar(requested, selected, AddEdge(edges, from, upto), upto, among + [d])
  {
    forall m ensures DependsAmong(among + [d], m) <==> DependsAmong(among, m) || m == d.modId {
      assert d in among + [d];
      if x :| x in among && x.modId == m { assert x in among + [d]; }
    }
    forall i | 0 <= i < |requested| ensures requested[i].modId == d.modId <==> i == from {
    }
  }

  method AddDependencies(installed: seq<RegistryEntry>, requested: seq<ExactReference>, positions: map<nat, nat>,
      selected: seq<RegistryEntry>, index: nat, edges0: Edges) returns (fault: Option<Fault>, edges: Edges)
    requires PositionsOf(requested, positions) && Selected(installed, requested, selected) && OneReleasePerMod(requested)
    requires index < |requested| && EdgesSoFar(requested, selected, edges0, index, [])
    ensures fault.None? <==> RequirementsMet(installed, requested, requested[index])
    ensures fault.None? ==> EdgesSoFar(requested, selected, edges, index + 1, [])
    ensures fault.Some? ==> RegistryFault(installed, requested, fault.value)
  {
    edges := edges0;
    var dependencies := selected[index].dependencies;
    for k := 0 to |dependencies|
      invariant EdgesSoFar(requested, selected, edges, index, dependencies[..k])
      invariant forall d | d in dependencies[..k] :: Met(installed, requested, d)
    {
      assert dependencies[k] in dependencies;
      assert dependencies[..k + 1] == dependencies[..k] + [dependencies[k]];
      var met := CheckDependency(installed, requested, positions, selected, index, dependencies[k]);
      if met.Err? {
        return Some(met.error), edges;
      }
      OneMoreEdge(requested, selected, edges, index, dependencies[..k], dependencies[k], met.value);
      edges := AddEdge(edges, met.value, index);
    }
    assert dependencies[..|dependencies|] == dependencies;
    fault := None;
  }

  method SelectionEdges(installed: seq<RegistryEntry>, requested: seq<ExactReference>)
    returns (r: Result<(seq<RegistryEntry>, Edges), Fault>)
    ensures r.Ok? <==> RegistryAccepts(installed, requested)
    ensures r.Ok? ==> Selected(installed, requested, r.value.0) && r.value.1 == EdgesOf(requested, ReleasesPrecede(installed))
    ensures r.Err? ==> RegistryFault(installed, requested, r.error)
  {
    if |requested| > MAX_MODS {
      return Err(TooMany);
    }
    var entries := SelectEntries(installed, requested);
    if entries.Err? {
      return Err(entries.error);
    }
    var (positions, selected) := entries.value;
    var edges: Edges := seq(|requested|, i => {});
    for index := 0 to |requested|
      invariant EdgesSoFar(requested, selected, edges, index, [])
      invariant forall j | 0 <= j < index :: RequirementsMet(installed, requested, requested[j])
    {
      var fault;
      fault, edges := AddDependencies(installed, requested, positions, selected, index, edges);
      if fault.Some? {
        assert requested[index] in requested;
        return Err(fault.value);
      }
    }
    SameEdges(edges, EdgesOf(requested, ReleasesPrecede(installed)));
    var cycle := Cycle(edges);
    if cycle.Some? {
      return Err(CyclicOrder(cycle.value));
    }
    return Ok((selected, edges));
  }

  // ---- The same in terms of what the records say ----

  ghost predicate Provides(installed: seq<RegistryEntry>, x: ExactReference, d: Dependency) {
    var entry := FindEntry(installed, x);
    entry.Some? && Admits(d, x.modId, x.releaseId, entry.value.versionLabel)
  }

  // The release in this place is described, by dependencies on other mods that are well
  // posed, and each of them is admitted by an earlier release.
  ghost predicate InPlaceAt(installed: seq<RegistryEntry>, s: seq<ExactReference>, j: nat)
    requires j < |s|
  {
    var entry := FindEntry(installed, s[j]);
    && entry.Some?
    && |entry.value.dependencies| <= 100
    && OncePerMod(entry.value.dependencies)
    && forall d | d in entry.value.dependencies :: WellPosed(d, s[j].modId) && exists i :: 0 <= i < j && Provides(installed, s[i], d)
  }

  ghost predicate Loadable(installed: seq<RegistryEntry>, s: seq<ExactReference>) {
    && |s| <= 256
    && OneReleasePerMod(s)
    && forall j | 0 <= j < |s| :: InPlaceAt(installed, s, j)
  }

  lemma DescribedMeaning(installed: seq<RegistryEntry>, x: ExactReference)
    requires FindEntry(installed, x).Some?
    ensures var dependencies := FindEntry(installed, x).value.dependencies;
            Described(installed, x) <==>
            |dependencies| <= 100 && OncePerMod(dependencies) && forall d | d in dependencies :: WellPosed(d, x.modId)
  {
    forall d ensures Valid(d, x.modId) <==> WellPosed(d, x.modId) {
      ValidMeaning(d, x.modId);
    }
  }

  lemma MetByMeaning(installed: seq<RegistryEntry>, x: ExactReference, d: Dependency)
    ensures MetBy(installed, x, d) <==> Provides(installed, x, d)
  {
    if FindEntry(installed, x).Some? {
      MatchesMeaning(d, x.modId, x.releaseId, FindEntry(installed, x).value.versionLabel);
    }
  }

  // An accepted list in an order that meets the dependencies is loadable,
  lemma AcceptedIsLoadable(installed: seq<RegistryEntry>, s: seq<ExactReference>)
    requires |s| <= MAX_MODS && OneReleasePerMod(s) && Obeys(s, ReleasesPrecede(installed))
    requires forall x | x in s :: Described(installed, x) && RequirementsMet(installed, s, x)
    ensures Loadable(installed, s)
  {
    forall j | 0 <= j < |s| ensures InPlaceAt(installed, s, j) {
      assert Described(installed, s[j]) && RequirementsMet(installed, s, s[j]);
      DescribedMeaning(installed, s[j]);
      forall d | d in FindEntry(installed, s[j]).value.dependencies ensures exists i :: 0 <= i < j && Provides(installed, s[i], d) {
        assert Met(installed, s, d);
        var i :| 0 <= i < |s| && MetBy(installed, s[i], d);
        MetByMeaning(installed, s[i], d);
        assert ReleaseBefore(installed, s[i], s[j]);
        assert i < j;
      }
    }
  }

  // and a loadable one is accepted.
  lemma LoadableIsAccepted(installed: seq<RegistryEntry>, s: seq<ExactReference>)
    requires Loadable(installed, s)
    ensures |s| <= MAX_MODS && OneReleasePerMod(s) && Obeys(s, ReleasesPrecede(installed))
    ensures forall x | x in s :: Described(installed, x) && RequirementsMet(installed, s, x)
  {
    forall j | 0 <= j < |s| ensures Described(installed, s[j]) && RequirementsMet(installed, s, s[j]) {
      assert InPlaceAt(installed, s, j);
      DescribedMeaning(installed, s[j]);
      forall d | d in FindEntry(installed, s[j]).value.dependencies ensures Met(installed, s, d) {
        var i :| 0 <= i < j && Provides(installed, s[i], d);
        MetByMeaning(installed, s[i], d);
      }
    }
    forall i, j | 0 <= i < |s| && 0 <= j < |s| && ReleaseBefore(installed, s[j], s[i]) ensures j < i {
      assert InPlaceAt(installed, s, i);
      var d :| d in FindEntry(installed, s[i]).value.dependencies && d.modId == s[j].modId;
      var k :| 0 <= k < i && Provides(installed, s[k], d);
      assert s[k].modId == s[j].modId;
    }
  }

  // Acceptance does not depend on how the list is written.
  lemma AcceptedAsMembers(installed: seq<RegistryEntry>, s: seq<ExactReference>, t: seq<ExactReference>)
    requires SameMembers(s, t) && OneReleasePerMod(s)
    requires forall x | x in s :: Described(installed, x) && RequirementsMet(installed, s, x)
    ensures OneReleasePerMod(t) && forall x | x in t :: Described(installed, x) && RequirementsMet(installed, t, x)
  {
    SameMembersIn(s, t);
    SameMembersDistinct(s, t);
    forall i, j | 0 <= i < j < |t| ensures t[i].modId != t[j].modId {
      assert t[i] in s && t[j] in s && t[i] != t[j];
    }
    forall x | x in t ensures RequirementsMet(installed, t, x) {
      forall d | d in FindEntry(installed, x).value.dependencies ensures Met(installed, t, d) {
        assert Met(installed, s, d);
        var i :| 0 <= i < |s| && MetBy(installed, s[i], d);
        assert s[i] in t;
        var j :| 0 <= j < |t| && t[j] == s[i];
        assert MetBy(installed, t[j], d);
      }
    }
  }

  // The effective order is loadable, and of all loadable orders the first.
  lemma RegistryOrderIsFirst(installed: seq<RegistryEntry>, requested: seq<ExactReference>)
    requires RegistryAccepts(installed, requested)
    ensures var r := Order(requested, ReleasesPrecede(installed));
            && SameMembers(r, requested) && Loadable(installed, r)
            && forall s | SameMembers(s, requested) && Loadable(installed, s) :: Ahead(requested, r, s)
  {
    var r := Order(requested, ReleasesPrecede(installed));
    OrderMeaning(requested, ReleasesPrecede(installed));
    AcceptedAsMembers(installed, requested, r);
    AcceptedIsLoadable(installed, r);
    forall s | SameMembers(s, requested) && Loadable(installed, s) ensures Ahead(requested, r, s) {
      LoadableIsAccepted(installed, s);
      OrderIsFirst(requested, ReleasesPrecede(installed), s);
    }
  }

  // A list that can be put into a loadable order is accepted.
  lemma LoadableIsEnough(installed: seq<RegistryEntry>, requested: seq<ExactReference>, s: seq<ExactReference>)
    requires SameMembers(s, requested) && Loadable(installed, s)
    ensures RegistryAccepts(installed, requested)
  {
    LoadableIsAccepted(installed, s);
    AcceptedAsMembers(installed, s, requested);
    OrderIsFirst(requested, ReleasesPrecede(installed), s);
  }

  ghost predicate AdjustsReleases(installed: seq<RegistryEntry>, requested: seq<ExactReference>, adjustments: seq<Adjustment>) {
    forall a: nat, b: nat :: (a, b) in adjustments <==>
      && b < a < |requested| && FindEntry(installed, requested[b]).Some?
      && exists d :: d in FindEntry(installed, requested[b]).value.dependencies && d.modId == requested[a].modId
  }

  method ResolveRegistry(installed: seq<RegistryEntry>, requested: seq<ExactReference>)
    returns (r: Result<(seq<ExactReference>, seq<Adjustment>), Fault>)
    ensures r.Ok? <==> RegistryAccepts(installed, requested)
    ensures r.Ok? ==> r.value.0 == Order(requested, ReleasesPrecede(installed))
    // The result is the first of all orders of the request in which each dependency is
    // admitted by an earlier release, and there is none when it fails.
    ensures r.Ok? ==> SameMembers(r.value.0, requested) && Loadable(installed, r.value.0)
    ensures r.Ok? ==> forall s | SameMembers(s, requested) && Loadable(installed, s) :: Ahead(requested, r.value.0, s)
    ensures r.Err? ==> forall s | SameMembers(s, requested) :: !Loadable(installed, s)
    ensures r.Ok? ==> AdjustsReleases(installed, requested, r.value.1) && (r.value.1 == [] <==> r.value.0 == requested)
    ensures r.Err? ==> RegistryFault(installed, requested, r.error)
  {
    var selection := SelectionEdges(installed, requested);
    if selection.Err? {
      forall s | SameMembers(s, requested) ensures !Loadable(installed, s) {
        if Loadable(installed, s) {
          LoadableIsEnough(installed, requested, s);
        }
      }
      return Err(selection.error);
    }
    RegistryOrderIsFirst(installed, requested);
    var ordered := OrderReleases(installed, requested, selection.value.1);
    return Ok(ordered);
  }

  method OrderReleases(installed: seq<RegistryEntry>, requested: seq<ExactReference>, edges: Edges)
    returns (r: (seq<ExactReference>, seq<Adjustment>))
    requires edges == EdgesOf(requested, ReleasesPrecede(installed)) && Acyclic(edges) && OneReleasePerMod(requested)
    ensures r.0 == Order(requested, ReleasesPrecede(installed))
    ensures AdjustsReleases(installed, requested, r.1) && (r.1 == [] <==> r.0 == requested)
  {
    var adjustments := Adjustments(edges);
    var indices := Topological(edges);
    KahnBounded(edges);
    NoAdjustments(requested, ReleasesPrecede(installed), adjustments);
    return (Select(requested, indices), adjustments);
  }
}
