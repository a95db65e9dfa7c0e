// Ordering a selection that mixes registry releases and local builds.
module MixedOrder {
  import opened Results
  import opened Sequences
  import opened Graphs
  import opened GraphTheorems
  import opened TopologicalSort
  import opened CycleSearch
  import opened Dependencies
  import opened References
  import opened Priorities
  import opened RegistryOrder
  import opened LocalOrder

  function AsRegistry(r: Reference): Option<ExactReference> {
    if r.Registry? then Some(r.exact) else None
  }

  function AsStored(r: Reference): Option<ModReference> {
    if r.Local? then Some(Stored(r.local)) else None
  }

  function ExactLocal(m: ModReference): Option<Reference> {
    var local := ToLocal(m);
    if local.Some? then Some(Local(local.value)) else None
  }

  function KeyOf(r: Reference): Option<string> {
    if r.Local? then Some(r.local.modId) else None
  }

  function PlaceKeys(requested: seq<Reference>): (keys: seq<Option<string>>)
    ensures |keys| == |requested| && forall i | 0 <= i < |keys| :: keys[i] == KeyOf(requested[i])
  {
    seq(|requested|, i requires 0 <= i < |requested| => KeyOf(requested[i]))
  }

  predicate Before(installed: seq<RegistryEntry>, locals: seq<LocalSource>, a: Reference, b: Reference) {
    match (a, b)
    case (Registry(x), Registry(y)) => ReleaseBefore(installed, x, y)
    case (Local(x), Local(y)) => BuildBefore(locals, Stored(x), Stored(y))
    case _ => false
  }

  ghost function Precede(installed: seq<RegistryEntry>, locals: seq<LocalSource>): (f: (Reference, Reference) -> bool)
    ensures forall a, b :: f(a, b) <==> Before(installed, locals, a, b)
  {
    (a, b) => Before(installed, locals, a, b)
  }

  ghost predicate OneRuntimeId(requested: seq<Reference>) {
    forall i, j | 0 <= i < j < |requested| :: RuntimeId(requested[i]) != RuntimeId(requested[j])
  }

  ghost predicate Known(installed: seq<RegistryEntry>, locals: seq<LocalSource>, r: Reference) {
    && ValidReference(r)
    && match r
       case Registry(exact) => FindEntry(installed, exact).Some?
       case Local(local) =>
         FindSource(locals, Stored(local)).Some? && ValidSource(FindSource(locals, Stored(local)).value)
  }

  // Every reference is known, and no two of them share a runtime identity.
  ghost predicate Identified(installed: seq<RegistryEntry>, locals: seq<LocalSource>, requested: seq<Reference>) {
    OneRuntimeId(requested) && forall r | r in requested :: Known(installed, locals, r)
  }

  ghost function Ids(requested: seq<Reference>): set<string> {
    set r | r in requested :: RuntimeId(r)
  }

  lemma IdentifiedAppend(installed: seq<RegistryEntry>, locals: seq<LocalSource>, s: seq<Reference>, x: Reference)
    ensures Identified(installed, locals, s + [x]) <==>
            Identified(installed, locals, s) && Known(installed, locals, x) && RuntimeId(x) !in Ids(s)
    ensures Ids(s + [x]) == Ids(s) + {RuntimeId(x)}
  {
    var longer := s + [x];
    assert forall r :: r in longer <==> r in s || r == x;
    if Identified(installed, locals, longer) {
      forall i, j | 0 <= i < j < |s| ensures RuntimeId(s[i]) != RuntimeId(s[j]) {
        assert longer[i] == s[i] && longer[j] == s[j];
      }
      forall i | 0 <= i < |s| ensures RuntimeId(s[i]) != RuntimeId(x) {
        assert longer[i] == s[i] && longer[|s|] == x;
      }
    }
  }

  lemma IdentifiedPrefix(installed: seq<RegistryEntry>, locals: seq<LocalSource>, s: seq<Reference>, k: nat)
    requires Identified(installed, locals, s) && k <= |s|
    ensures Identified(installed, locals, s[..k])
  {
  }

  ghost predicate LocalSatisfied(locals: seq<LocalSource>, requested: seq<Reference>, r: Reference) {
    r.Local? ==>
      var source := FindSource(locals, Stored(r.local));
      source.Some? && Satisfied(requested, ExactLocal, source.value.manifest.required)
  }

  ghost predicate MixedAccepts(installed: seq<RegistryEntry>, locals: seq<LocalSource>, requested: seq<Reference>) {
    && |requested| <= MAX_MODS
    && Identified(installed, locals, requested)
    && RegistryAccepts(installed, Part(requested, AsRegistry))
    && (forall r | r in requested :: LocalSatisfied(locals, requested, r))
    && Orderable(requested, Precede(installed, locals))
  }

  // ---- Reading the selection ----

  datatype Reading = Reading(
    localPlaces: map<string, nat>,
    registryPositions: seq<nat>,
    registryReferences: seq<ExactReference>,
    selectedLocals: seq<(nat, LocalSource)>)

  ghost predicate Lists(locals: seq<LocalSource>, requested: seq<Reference>, selectedLocals: seq<(nat, LocalSource)>) {
    && (forall k | 0 <= k < |selectedLocals| :: IsSelected(locals, requested, selectedLocals[k]))
    && (forall i | 0 <= i < |requested| && requested[i].Local? :: exists k :: 0 <= k < |selectedLocals| && selectedLocals[k].0 == i)
  }

  ghost predicate IsSelected(locals: seq<LocalSource>, requested: seq<Reference>, item: (nat, LocalSource)) {
    && item.0 < |requested| && requested[item.0].Local?
    && FindSource(locals, Stored(requested[item.0].local)) == Some(item.1)
  }

  ghost predicate Reads(locals: seq<LocalSource>, requested: seq<Reference>, reading: Reading) {
    && PlacesOf(PlaceKeys(requested), reading.localPlaces)
    && reading.registryPositions == Positions(requested, AsRegistry)
    && reading.registryReferences == Part(requested, AsRegistry)
    && Lists(locals, requested, reading.selectedLocals)
  }

  method ReadSelection(installed: seq<RegistryEntry>, locals: seq<LocalSource>, requested: seq<Reference>)
    returns (r: Result<Reading, Fault>)
    ensures r.Ok? <==> Identified(installed, locals, requested)
    ensures r.Ok? ==> Reads(locals, requested, r.value)
    ensures r.Err? ==> !r.error.CyclicOrder?
  {
    var identities := {};
    var reading := Reading(map[], [], [], []);
    for index := 0 to |requested|
      invariant Identified(installed, locals, requested[..index])
      invariant identities == Ids(requested[..index])
      invariant Reads(locals, requested[..index], reading)
    {
      var reference := requested[index];
      ghost var before := requested[..index];
      assert requested[..index + 1] == before + [reference];
      IdentifiedAppend(installed, locals, before, reference);
      if Identified(installed, locals, requested) {
        IdentifiedPrefix(installed, locals, requested, index + 1);
      }
      if !ValidReference(reference) {
        return Err(InvalidReference(index));
      }
      if RuntimeId(reference) in identities {
        return Err(Repeated(index));
      }
      var next := ReadOne(installed, locals, index, before, reference, reading);
      if next.None? {
        return Err(Unavailable(index));
      }
      identities := identities + {RuntimeId(reference)};
      reading := next.value;
    }
    assert requested[..|requested|] == requested;
    return Ok(reading);
  }

  method ReadOne(installed: seq<RegistryEntry>, locals: seq<LocalSource>, index: nat, ghost before: seq<Reference>,
      reference: Reference, reading: Reading) returns (r: Option<Reading>)
    requires ValidReference(reference) && Reads(locals, before, reading) && index == |before|
    requires RuntimeId(reference) !in Ids(before)
    ensures r.Some? <==> Known(installed, locals, reference)
    ensures r.Some? ==> Reads(locals, before + [reference], r.value)
  {
    ghost var after := before + [reference];
    assert after[..index] == before;
    match reference {
      case Registry(exact) =>
        if FindEntry(installed, exact).None? {
          return None;
        }
        r := Some(reading.(
          registryPositions := reading.registryPositions + [index],
          registryReferences := reading.registryReferences + [exact]));
        ListsMore(locals, before, reference, reading.selectedLocals);
      case Local(local) =>
        var source := FindSource(locals, Stored(local));
        if source.None? {
          return None;
        }
        var valid := CheckSource(source.value);
        if !valid {
          return None;
        }
        r := Some(reading.(
          localPlaces := reading.localPlaces[local.modId := index],
          selectedLocals := reading.selectedLocals + [(index, source.value)]));
        PlacesMore(before, reference, reading.localPlaces);
        OneMoreLocal(locals, before, reference, reading.selectedLocals, source.value);
    }
  }

  // `LocalSource::validate`, answered as one check.
  method CheckSource(source: LocalSource) returns (valid: bool)
    ensures valid <==> ValidSource(source)
  {
    var before := CheckTargets(source.manifest, source.manifest.loadBefore);
    var after := CheckTargets(source.manifest, source.manifest.loadAfter);
    var required := CheckDistinct(RequiredIds(source.manifest));
    valid := source.othersValid && source.manifest.othersValid && ValidId(source.manifest.modId)
      && |source.manifest.required| <= 64
      && (forall m | m in source.manifest.required :: ValidStored(m) && m.modId != source.manifest.modId)
      && required && before && after
      && ValidStored(source.reference) && source.reference.modId == source.manifest.modId;
  }

  method CheckTargets(manifest: Manifest, targets: seq<string>) returns (valid: bool)
    ensures valid <==> ValidTargets(manifest, targets)
  {
    var distinct := CheckDistinct(targets);
    valid := |targets| <= 64 && distinct && forall t | t in targets :: ValidId(t) && t != manifest.modId;
  }

  method CheckDistinct(ids: seq<string>) returns (distinct: bool)
    ensures distinct <==> DistinctStrings(ids)
  {
    var seen := {};
    for i := 0 to |ids|
      invariant forall s :: s in seen <==> s in ids[..i]
      invariant DistinctStrings(ids[..i])
    {
      assert ids[..i + 1] == ids[..i] + [ids[i]];
      if ids[i] in seen {
        return false;
      }
      seen := seen + {ids[i]};
    }
    assert ids[..|ids|] == ids;
    return true;
  }

  lemma ListsMore(locals: seq<LocalSource>, before: seq<Reference>, reference: Reference, selectedLocals: seq<(nat, LocalSource)>)
    requires Lists(locals, before, selectedLocals)
    ensures forall k | 0 <= k < |selectedLocals| :: IsSelected(locals, before + [reference], selectedLocals[k])
    ensures reference.Registry? ==> Lists(locals, before + [reference], selectedLocals)
  {
    forall k | 0 <= k < |selectedLocals| ensures IsSelected(locals, before + [reference], selectedLocals[k]) {
      assert IsSelected(locals, before, selectedLocals[k]);
    }
  }

  lemma OneMoreLocal(locals: seq<LocalSource>, before: seq<Reference>, reference: Reference,
                     selectedLocals: seq<(nat, LocalSource)>, source: LocalSource)
    requires Lists(locals, before, selectedLocals) && reference.Local?
    requires FindSource(locals, Stored(reference.local)) == Some(source)
    ensures Lists(locals, before + [reference], selectedLocals + [(|before|, source)])
  {
    ListsMore(locals, before, reference, selectedLocals);
    var after, longer := before + [reference], selectedLocals + [(|before|, source)];
    assert longer[|selectedLocals|].0 == |before|;
    forall i | 0 <= i < |after| && after[i].Local? ensures exists k :: 0 <= k < |longer| && longer[k].0 == i {
      if i < |before| {
        var k :| 0 <= k < |selectedLocals| && selectedLocals[k].0 == i;
        assert longer[k].0 == i;
      }
    }
  }

  lemma PlacesMore(before: seq<Reference>, reference: Reference, places: map<string, nat>)
    requires PlacesOf(PlaceKeys(before), places) && reference.Local?
    requires RuntimeId(reference) !in Ids(before)
    ensures PlacesOf(PlaceKeys(before + [reference]), places[reference.local.modId := |before|])
  {
    forall i | 0 <= i < |before| && before[i].Local? ensures before[i].local.modId != reference.local.modId {
      assert before[i] in before;
    }
  }

  // ---- Building the graph ----

  // The registry graph, renumbered into the places its releases have in the list.
  method EmbedRegistry(requested: seq<Reference>, positions: seq<nat>, registryEdges: Edges) returns (edges: Edges)
    requires Increasing(positions) && Bounded(positions, |requested|)
    requires |registryEdges| == |positions| && WellFormed(registryEdges)
    ensures |edges| == |requested| && WellFormed(edges) && IsEmbedding(positions, registryEdges, edges)
  {
    edges := seq(|requested|, i => {});
    for from := 0 to |positions|
      invariant |edges| == |requested| && WellFormed(edges)
      invariant forall i, j :: HasEdge(edges, i, j) <==>
        exists f, t :: 0 <= f < from && 0 <= t < |positions| && Embedded(positions, registryEdges, f, t, i, j)
    {
      edges := EmbedRow(requested, positions, registryEdges, from, edges);
    }
  }

  ghost predicate IsEmbedding(positions: seq<nat>, registryEdges: Edges, edges: Edges) {
    forall i, j :: HasEdge(edges, i, j) <==>
      exists f, t :: 0 <= f < |positions| && 0 <= t < |positions| && Embedded(positions, registryEdges, f, t, i, j)
  }

  ghost predicate Embedded(positions: seq<nat>, registryEdges: Edges, f: nat, t: nat, i: nat, j: nat)
    requires f < |positions| && t < |positions|
  {
    HasEdge(registryEdges, f, t) && positions[f] == i && positions[t] == j
  }

  method EmbedRow(requested: seq<Reference>, positions: seq<nat>, registryEdges: Edges, from: nat, edges0: Edges) returns (edges: Edges)
    requires Bounded(positions, |requested|) && |registryEdges| == |positions| && WellFormed(registryEdges)
    requires from < |positions| && |edges0| == |requested| && WellFormed(edges0)
    ensures |edges| == |requested| && WellFormed(edges)
    ensures forall i, j :: HasEdge(edges, i, j) <==>
      HasEdge(edges0, i, j) || exists t :: 0 <= t < |positions| && Embedded(positions, registryEdges, from, t, i, j)
  {
    edges := edges0;
    var targets := registryEdges[from];
    while targets != {}
      invariant targets <= registryEdges[from]
      invariant |edges| == |requested| && WellFormed(edges)
      invariant forall i, j :: HasEdge(edges, i, j) <==>
        HasEdge(edges0, i, j) || exists t :: 0 <= t < |positions| && t !in targets && Embedded(positions, registryEdges, from, t, i, j)
    {
      var to := Min(targets);
      assert HasEdge(registryEdges, from, to);
      assert Embedded(positions, registryEdges, from, to, positions[from], positions[to]);
      edges := AddEdge(edges, positions[from], positions[to]);
      targets := targets - {to};
    }
  }

  ghost predicate ManifestEdgeAmong(requested: seq<Reference>, selectedLocals: seq<(nat, LocalSource)>, upto: nat, i: nat, j: nat)
    requires upto <= |selectedLocals| && i < |requested| && j < |requested|
  {
    exists k :: 0 <= k < upto &&
      ManifestEdge(requested, PlaceKeys(requested), ExactLocal, selectedLocals[k].0, selectedLocals[k].1.manifest, i, j)
  }

  ghost predicate AddsLocals(edges0: Edges, edges: Edges, requested: seq<Reference>, selectedLocals: seq<(nat, LocalSource)>, upto: nat)
    requires upto <= |selectedLocals|
  {
    && |edges0| == |edges| == |requested| && WellFormed(edges)
    && forall i, j | 0 <= i < |requested| && 0 <= j < |requested| ::
         HasEdge(edges, i, j) <==> HasEdge(edges0, i, j) || ManifestEdgeAmong(requested, selectedLocals, upto, i, j)
  }

  method AddLocals(locals: seq<LocalSource>, requested: seq<Reference>, reading: Reading, edges0: Edges)
    returns (fault: Option<Fault>, edges: Edges)
    requires NoRepeats(requested) && Reads(locals, requested, reading)
    requires |edges0| == |requested| && WellFormed(edges0)
    ensures fault.None? <==> forall r | r in requested :: LocalSatisfied(locals, requested, r)
    ensures fault.None? ==> AddsLocals(edges0, edges, requested, reading.selectedLocals, |reading.selectedLocals|)
    ensures fault.Some? ==> !fault.value.CyclicOrder?
  {
    edges := edges0;
    var items := reading.selectedLocals;
    for k := 0 to |items|
      invariant SatisfiedUpTo(requested, items, k)
      invariant AddsLocals(edges0, edges, requested, items, k)
    {
      fault, edges := AddLocal(locals, requested, reading, k, edges0, edges);
      if fault.Some? {
        return;
      }
    }
    EveryLocalSatisfied(locals, requested, items);
    fault := None;
  }

  method AddLocal(locals: seq<LocalSource>, requested: seq<Reference>, reading: Reading, k: nat, ghost edges0: Edges, edges1: Edges)
    returns (fault: Option<Fault>, edges: Edges)
    requires NoRepeats(requested) && Reads(locals, requested, reading) && k < |reading.selectedLocals|
    requires AddsLocals(edges0, edges1, requested, reading.selectedLocals, k) && SatisfiedUpTo(requested, reading.selectedLocals, k)
    ensures fault.None? ==> SatisfiedUpTo(requested, reading.selectedLocals, k + 1)
    ensures fault.None? ==> AddsLocals(edges0, edges, requested, reading.selectedLocals, k + 1)
    ensures fault.Some? ==> !fault.value.CyclicOrder? && !forall r | r in requested :: LocalSatisfied(locals, requested, r)
  {
    var item := reading.selectedLocals[k];
    assert IsSelected(locals, requested, item);
    fault, edges := AddManifest(requested, PlaceKeys(requested), reading.localPlaces, ExactLocal, item.0, item.1.manifest, edges1);
    if fault.Some? {
      NotSatisfied(locals, requested, item);
    } else {
      OneMoreLocalManifest(edges0, edges1, edges, requested, reading.selectedLocals, k);
    }
  }

  ghost predicate SatisfiedUpTo(requested: seq<Reference>, items: seq<(nat, LocalSource)>, k: nat) {
    forall m | 0 <= m < k && m < |items| :: Satisfied(requested, ExactLocal, items[m].1.manifest.required)
  }

  lemma NotSatisfied(locals: seq<LocalSource>, requested: seq<Reference>, item: (nat, LocalSource))
    requires IsSelected(locals, requested, item) && !Satisfied(requested, ExactLocal, item.1.manifest.required)
    ensures !forall r | r in requested :: LocalSatisfied(locals, requested, r)
  {
    assert requested[item.0] in requested;
    assert !LocalSatisfied(locals, requested, requested[item.0]);
  }

  lemma OneMoreLocalManifest(edges0: Edges, edges1: Edges, edges: Edges, requested: seq<Reference>,
                             items: seq<(nat, LocalSource)>, k: nat)
    requires k < |items| && AddsLocals(edges0, edges1, requested, items, k)
    requires AddsManifest(edges1, edges, requested, PlaceKeys(requested), ExactLocal, items[k].0, items[k].1.manifest)
    ensures AddsLocals(edges0, edges, requested, items, k + 1)
  {
    forall i, j | 0 <= i < |requested| && 0 <= j < |requested|
      ensures ManifestEdgeAmong(requested, items, k + 1, i, j) <==>
        (ManifestEdgeAmong(requested, items, k, i, j)
        || ManifestEdge(requested, PlaceKeys(requested), ExactLocal, items[k].0, items[k].1.manifest, i, j))
    {
    }
  }

  lemma EveryLocalSatisfied(locals: seq<LocalSource>, requested: seq<Reference>, items: seq<(nat, LocalSource)>)
    requires Lists(locals, requested, items)
    requires forall m | 0 <= m < |items| :: Satisfied(requested, ExactLocal, items[m].1.manifest.required)
    ensures forall r | r in requested :: LocalSatisfied(locals, requested, r)
  {
    forall r | r in requested ensures LocalSatisfied(locals, requested, r) {
      if r.Local? {
        var i :| 0 <= i < |requested| && requested[i] == r;
        var k :| 0 <= k < |items| && items[k].0 == i;
        assert IsSelected(locals, requested, items[k]);
      }
    }
  }

  // ---- The graph is the relation ----

  lemma RegistryPlace(installed: seq<RegistryEntry>, requested: seq<Reference>, f: nat, t: nat)
    requires f < |Positions(requested, AsRegistry)| && t < |Positions(requested, AsRegistry)|
    ensures var positions, part := Positions(requested, AsRegistry), Part(requested, AsRegistry);
            && requested[positions[f]] == Registry(part[f]) && requested[positions[t]] == Registry(part[t])
            && (HasEdge(EdgesOf(part, ReleasesPrecede(installed)), f, t) <==> ReleaseBefore(installed, part[f], part[t]))
  {
    var positions, part := Positions(requested, AsRegistry), Part(requested, AsRegistry);
    assert AsRegistry(requested[positions[f]]) == Some(part[f]) && AsRegistry(requested[positions[t]]) == Some(part[t]);
  }

  lemma EmbeddedMeaning(installed: seq<RegistryEntry>, requested: seq<Reference>, i: nat, j: nat)
    requires i < |requested| && j < |requested|
    ensures var positions := Positions(requested, AsRegistry);
            var edges := EdgesOf(Part(requested, AsRegistry), ReleasesPrecede(installed));
            (exists f, t :: 0 <= f < |positions| && 0 <= t < |positions| && Embedded(positions, edges, f, t, i, j)) <==>
            (requested[i].Registry? && requested[j].Registry? && ReleaseBefore(installed, requested[i].exact, requested[j].exact))
  {
    var positions := Positions(requested, AsRegistry);
    var edges := EdgesOf(Part(requested, AsRegistry), ReleasesPrecede(installed));
    if requested[i].Registry? && requested[j].Registry? {
      assert AsRegistry(requested[i]).Some? && AsRegistry(requested[j]).Some?;
      assert i in Elements(positions) && j in Elements(positions);
      var f :| 0 <= f < |positions| && positions[f] == i;
      var t :| 0 <= t < |positions| && positions[t] == j;
      RegistryPlace(installed, requested, f, t);
      assert Embedded(positions, edges, f, t, i, j) <==> HasEdge(edges, f, t);
    }
    forall f, t | 0 <= f < |positions| && 0 <= t < |positions| && Embedded(positions, edges, f, t, i, j)
      ensures requested[i].Registry? && requested[j].Registry? && ReleaseBefore(installed, requested[i].exact, requested[j].exact)
    {
      RegistryPlace(installed, requested, f, t);
    }
  }

  lemma RequiresStored(required: seq<ModReference>, r: Reference)
    requires ValidReference(r)
    ensures Requires(ExactLocal, required, r) <==> r.Local? && Stored(r.local) in required
  {
    if Requires(ExactLocal, required, r) {
      var m :| m in required && ExactLocal(m) == Some(r);
      ToLocalIsStored(m, r.local);
    }
    if r.Local? && Stored(r.local) in required {
      ToLocalIsStored(Stored(r.local), r.local);
      assert ExactLocal(Stored(r.local)) == Some(r);
    }
  }

  // The edges one manifest asks for, in terms of the references at both ends.
  ghost predicate AskedBy(locals: seq<LocalSource>, requested: seq<Reference>, x: nat, i: nat, j: nat)
    requires x < |requested| && i < |requested| && j < |requested|
  {
    requested[x].Local? && requested[i].Local? && requested[j].Local? &&
    var source := FindSource(locals, Stored(requested[x].local));
    source.Some? &&
    ( || (x == j && Stored(requested[i].local) in source.value.manifest.required)
      || (x == i && requested[j].local.modId in source.value.manifest.loadBefore)
      || (x == j && requested[i].local.modId in source.value.manifest.loadAfter))
  }

  lemma ManifestAsks(locals: seq<LocalSource>, requested: seq<Reference>, item: (nat, LocalSource), i: nat, j: nat)
    requires IsSelected(locals, requested, item) && i < |requested| && j < |requested|
    requires ValidReference(requested[i])
    ensures ManifestEdge(requested, PlaceKeys(requested), ExactLocal, item.0, item.1.manifest, i, j)
            <==> AskedBy(locals, requested, item.0, i, j)
  {
    RequiresStored(item.1.manifest.required, requested[i]);
  }

  lemma AmongMeaning(installed: seq<RegistryEntry>, locals: seq<LocalSource>, requested: seq<Reference>,
                     items: seq<(nat, LocalSource)>, i: nat, j: nat)
    requires Identified(installed, locals, requested) && Lists(locals, requested, items)
    requires i < |requested| && j < |requested|
    ensures ManifestEdgeAmong(requested, items, |items|, i, j) <==>
            (requested[i].Local? && requested[j].Local?
             && BuildBefore(locals, Stored(requested[i].local), Stored(requested[j].local)))
  {
    assert requested[i] in requested && requested[j] in requested;
    forall k | 0 <= k < |items|
      ensures ManifestEdge(requested, PlaceKeys(requested), ExactLocal, items[k].0, items[k].1.manifest, i, j)
              <==> AskedBy(locals, requested, items[k].0, i, j)
    {
      ManifestAsks(locals, requested, items[k], i, j);
    }
    if requested[i].Local? && requested[j].Local?
       && BuildBefore(locals, Stored(requested[i].local), Stored(requested[j].local)) {
      var x := if AskedBy(locals, requested, i, i, j) then i else j;
      assert AskedBy(locals, requested, x, i, j);
      var k :| 0 <= k < |items| && items[k].0 == x;
    }
  }

  // ---- The same in terms of what the records and the manifests say ----

  // A release stands after others that admit its dependencies, a build after those it
  // requires, and before and after the mods it asks to stand before and after.
  ghost predicate ReferenceInPlaceAt(installed: seq<RegistryEntry>, locals: seq<LocalSource>, s: seq<Reference>, j: nat)
    requires j < |s|
  {
    match s[j]
    case Registry(x) => x.releaseId.version == 4 && x.releaseId.rfc4122 && ReleaseInPlaceAt(installed, s, j, x)
    case Local(x) => ValidId(x.modId) && LocalInPlaceAt(locals, s, j, x)
  }

  ghost predicate ReleaseInPlaceAt(installed: seq<RegistryEntry>, s: seq<Reference>, j: nat, x: ExactReference)
    requires j < |s|
  {
    var entry := FindEntry(installed, x);
    && entry.Some?
    && |entry.value.dependencies| <= 100
    && OncePerMod(entry.value.dependencies)
    && forall d | d in entry.value.dependencies ::
         WellPosed(d, x.modId) && exists i :: 0 <= i < j && s[i].Registry? && Provides(installed, s[i].exact, d)
  }

  ghost predicate LocalInPlaceAt(locals: seq<LocalSource>, s: seq<Reference>, j: nat, x: LocalReference)
    requires j < |s|
  {
    var source := FindSource(locals, ModReference(x.modId, x.sha256, None));
    && source.Some? && ValidSource(source.value)
    && (forall m | m in source.value.manifest.required :: exists i :: 0 <= i < j && IsBuild(s[i], m))
    && (forall k | 0 <= k < |s| && IsOf(s[k], source.value.manifest.loadBefore) :: j < k)
    && (forall k | 0 <= k < |s| && IsOf(s[k], source.value.manifest.loadAfter) :: k < j)
  }

  ghost predicate IsBuild(r: Reference, m: ModReference) {
    r.Local? && m == ModReference(r.local.modId, r.local.sha256, None)
  }

  ghost predicate IsOf(r: Reference, mods: seq<string>) {
    r.Local? && r.local.modId in mods
  }

  ghost predicate ReferencesLoadable(installed: seq<RegistryEntry>, locals: seq<LocalSource>, s: seq<Reference>) {
    && |s| <= 256
    && OneRuntimeId(s)
    && forall j | 0 <= j < |s| :: ReferenceInPlaceAt(installed, locals, s, j)
  }

  // What acceptance asks apart from an order.
  ghost predicate MixedMet(installed: seq<RegistryEntry>, locals: seq<LocalSource>, s: seq<Reference>) {
    && |s| <= MAX_MODS
    && Identified(installed, locals, s)
    && (forall r | r in s && r.Registry? :: Described(installed, r.exact) && ReleaseMet(installed, s, r.exact))
    && (forall r | r in s :: LocalSatisfied(locals, s, r))
  }

  ghost predicate ReleaseMet(installed: seq<RegistryEntry>, s: seq<Reference>, x: ExactReference) {
    var entry := FindEntry(installed, x);
    entry.Some? && forall d | d in entry.value.dependencies :: MetAmong(installed, s, d)
  }

  ghost predicate MetAmong(installed: seq<RegistryEntry>, s: seq<Reference>, d: Dependency) {
    exists r :: r in s && r.Registry? && MetBy(installed, r.exact, d)
  }

  lemma AcceptedIsMet(installed: seq<RegistryEntry>, locals: seq<LocalSource>, requested: seq<Reference>)
    requires MixedAccepts(installed, locals, requested)
    ensures MixedMet(installed, locals, requested)
  {
    var part := Part(requested, AsRegistry);
    PartMember(requested, AsRegistry);
    forall r | r in requested && r.Registry? ensures Described(installed, r.exact) && ReleaseMet(installed, requested, r.exact) {
      assert AsRegistry(r) == Some(r.exact);
      assert r.exact in part && RequirementsMet(installed, part, r.exact);
      forall d | d in FindEntry(installed, r.exact).value.dependencies ensures MetAmong(installed, requested, d) {
        assert Met(installed, part, d);
        var i :| 0 <= i < |part| && MetBy(installed, part[i], d);
        assert part[i] in part;
        var y :| y in requested && AsRegistry(y) == Some(part[i]);
      }
    }
  }

  lemma PartHasOneRelease(requested: seq<Reference>)
    requires OneRuntimeId(requested)
    ensures OneReleasePerMod(Part(requested, AsRegistry))
  {
    var part, pos := Part(requested, AsRegistry), Positions(requested, AsRegistry);
    forall i, j | 0 <= i < j < |part| ensures part[i].modId != part[j].modId {
      assert AsRegistry(requested[pos[i]]) == Some(part[i]) && AsRegistry(requested[pos[j]]) == Some(part[j]);
      assert RuntimeId(requested[pos[i]]) != RuntimeId(requested[pos[j]]);
    }
  }

  lemma PartIsMet(installed: seq<RegistryEntry>, requested: seq<Reference>, x: ExactReference)
    requires ReleaseMet(installed, requested, x)
    ensures RequirementsMet(installed, Part(requested, AsRegistry), x)
  {
    var part := Part(requested, AsRegistry);
    PartMember(requested, AsRegistry);
    forall d | d in FindEntry(installed, x).value.dependencies ensures Met(installed, part, d) {
      assert MetAmong(installed, requested, d);
      var y :| y in requested && y.Registry? && MetBy(installed, y.exact, d);
      assert AsRegistry(y) == Some(y.exact);
      assert y.exact in part;
      var i :| 0 <= i < |part| && part[i] == y.exact;
      assert MetBy(installed, part[i], d);
    }
  }

  lemma MetIsAccepted(installed: seq<RegistryEntry>, locals: seq<LocalSource>, requested: seq<Reference>)
    requires MixedMet(installed, locals, requested) && Orderable(requested, Precede(installed, locals))
    ensures MixedAccepts(installed, locals, requested)
  {
    var part := Part(requested, AsRegistry);
    PartMember(requested, AsRegistry);
    PartLength(requested, AsRegistry);
    PartHasOneRelease(requested);
    assert Splits(requested, Precede(installed, locals), AsRegistry, ReleasesPrecede(installed));
    PartIsOrderable(requested, Precede(installed, locals), AsRegistry, ReleasesPrecede(installed));
    forall x | x in part ensures Described(installed, x) && RequirementsMet(installed, part, x) {
      var r :| r in requested && AsRegistry(r) == Some(x);
      assert r.Registry? && ReleaseMet(installed, requested, r.exact);
      PartIsMet(installed, requested, x);
    }
  }

  lemma MetAsMembers(installed: seq<RegistryEntry>, locals: seq<LocalSource>, s: seq<Reference>, t: seq<Reference>)
    requires SameMembers(s, t) && MixedMet(installed, locals, s)
    ensures MixedMet(installed, locals, t) && NoRepeats(t)
  {
    SameMembersIn(s, t);
    SameMembersDistinct(s, t);
    forall i, j | 0 <= i < j < |t| ensures RuntimeId(t[i]) != RuntimeId(t[j]) {
      assert t[i] in s && t[j] in s && t[i] != t[j];
    }
    forall r | r in t && r.Registry? ensures ReleaseMet(installed, t, r.exact) {
      assert ReleaseMet(installed, s, r.exact);
      forall d | d in FindEntry(installed, r.exact).value.dependencies ensures MetAmong(installed, t, d) {
        assert MetAmong(installed, s, d);
      }
    }
    forall r | r in t ensures LocalSatisfied(locals, t, r) {
      assert LocalSatisfied(locals, s, r);
    }
  }

  lemma ReleaseInOrder(installed: seq<RegistryEntry>, locals: seq<LocalSource>, s: seq<Reference>, j: nat)
    requires MixedMet(installed, locals, s) && Obeys(s, Precede(installed, locals)) && j < |s| && s[j].Registry?
    ensures ReferenceInPlaceAt(installed, locals, s, j)
  {
    var x := s[j].exact;
    assert s[j] in s && Known(installed, locals, s[j]) && ReleaseMet(installed, s, x);
    DescribedMeaning(installed, x);
    forall d | d in FindEntry(installed, x).value.dependencies
      ensures exists i :: 0 <= i < j && s[i].Registry? && Provides(installed, s[i].exact, d)
    {
      assert MetAmong(installed, s, d);
      var r :| r in s && r.Registry? && MetBy(installed, r.exact, d);
      var i :| 0 <= i < |s| && s[i] == r;
      MetByMeaning(installed, r.exact, d);
      assert Before(installed, locals, s[i], s[j]);
    }
  }

  lemma LocalInOrder(installed: seq<RegistryEntry>, locals: seq<LocalSource>, s: seq<Reference>, j: nat)
    requires MixedMet(installed, locals, s) && Obeys(s, Precede(installed, locals)) && j < |s| && s[j].Local?
    ensures ReferenceInPlaceAt(installed, locals, s, j)
  {
    assert s[j] in s && Known(installed, locals, s[j]) && LocalSatisfied(locals, s, s[j]);
    var manifest := FindSource(locals, Stored(s[j].local)).value.manifest;
    forall m | m in manifest.required ensures exists i :: 0 <= i < j && IsBuild(s[i], m) {
      var exact := ExactLocal(m).value;
      var i :| 0 <= i < |s| && s[i] == exact;
      ToLocalIsStored(m, s[i].local);
      assert Before(installed, locals, s[i], s[j]);
      assert IsBuild(s[i], m);
    }
    forall k | 0 <= k < |s| && IsOf(s[k], manifest.loadBefore) ensures j < k {
      assert Before(installed, locals, s[j], s[k]);
    }
    forall k | 0 <= k < |s| && IsOf(s[k], manifest.loadAfter) ensures k < j {
      assert Before(installed, locals, s[k], s[j]);
    }
  }

  lemma MetInOrder(installed: seq<RegistryEntry>, locals: seq<LocalSource>, s: seq<Reference>)
    requires MixedMet(installed, locals, s) && Obeys(s, Precede(installed, locals))
    ensures ReferencesLoadable(installed, locals, s)
  {
    forall j | 0 <= j < |s| ensures ReferenceInPlaceAt(installed, locals, s, j) {
      if s[j].Registry? {
        ReleaseInOrder(installed, locals, s, j);
      } else {
        LocalInOrder(installed, locals, s, j);
      }
    }
  }

  lemma LoadableReference(installed: seq<RegistryEntry>, locals: seq<LocalSource>, s: seq<Reference>, j: nat)
    requires ReferencesLoadable(installed, locals, s) && j < |s|
    ensures Known(installed, locals, s[j]) && LocalSatisfied(locals, s, s[j])
    ensures s[j].Registry? ==> Described(installed, s[j].exact) && ReleaseMet(installed, s, s[j].exact)
  {
    assert ReferenceInPlaceAt(installed, locals, s, j);
    if s[j].Registry? {
      DescribedMeaning(installed, s[j].exact);
      forall d | d in FindEntry(installed, s[j].exact).value.dependencies ensures MetAmong(installed, s, d) {
        var i :| 0 <= i < j && s[i].Registry? && Provides(installed, s[i].exact, d);
        MetByMeaning(installed, s[i].exact, d);
        assert s[i] in s;
      }
    } else {
      forall m | m in FindSource(locals, Stored(s[j].local)).value.manifest.required
        ensures ExactLocal(m).Some? && ExactLocal(m).value in s
      {
        var i :| 0 <= i < j && IsBuild(s[i], m);
        assert ReferenceInPlaceAt(installed, locals, s, i);
        ToLocalIsStored(m, s[i].local);
      }
    }
  }

  lemma LoadableReferences(installed: seq<RegistryEntry>, locals: seq<LocalSource>, s: seq<Reference>)
    requires ReferencesLoadable(installed, locals, s)
    ensures MixedMet(installed, locals, s) && Obeys(s, Precede(installed, locals))
  {
    forall j | 0 <= j < |s|
      ensures Known(installed, locals, s[j]) && LocalSatisfied(locals, s, s[j])
      ensures s[j].Registry? ==> Described(installed, s[j].exact) && ReleaseMet(installed, s, s[j].exact)
    {
      LoadableReference(installed, locals, s, j);
    }
    forall i, j | 0 <= i < |s| && 0 <= j < |s| && Before(installed, locals, s[i], s[j]) ensures i < j {
      StandsBefore(installed, locals, s, i, j);
    }
  }

  lemma StandsBefore(installed: seq<RegistryEntry>, locals: seq<LocalSource>, s: seq<Reference>, i: nat, j: nat)
    requires ReferencesLoadable(installed, locals, s) && i < |s| && j < |s| && Before(installed, locals, s[i], s[j])
    ensures i < j
  {
    assert ReferenceInPlaceAt(installed, locals, s, i) && ReferenceInPlaceAt(installed, locals, s, j);
    if s[j].Registry? {
      var d :| d in FindEntry(installed, s[j].exact).value.dependencies && d.modId == s[i].exact.modId;
      var k :| 0 <= k < j && s[k].Registry? && Provides(installed, s[k].exact, d);
      assert RuntimeId(s[k]) == RuntimeId(s[i]);
    } else {
      var manifest := FindSource(locals, Stored(s[j].local)).value.manifest;
      if Stored(s[i].local) in manifest.required {
        var k :| 0 <= k < j && IsBuild(s[k], Stored(s[i].local));
        assert RuntimeId(s[k]) == RuntimeId(s[i]);
      }
    }
  }

  // The effective order is loadable, and of all loadable orders the first.
  lemma MixedOrderIsFirst(installed: seq<RegistryEntry>, locals: seq<LocalSource>, requested: seq<Reference>)
    requires MixedAccepts(installed, locals, requested)
    ensures var r := Order(requested, Precede(installed, locals));
            && SameMembers(r, requested) && ReferencesLoadable(installed, locals, r)
            && forall s | SameMembers(s, requested) && ReferencesLoadable(installed, locals, s) :: Ahead(requested, r, s)
  {
    var r := Order(requested, Precede(installed, locals));
    OrderMeaning(requested, Precede(installed, locals));
    AcceptedIsMet(installed, locals, requested);
    MetAsMembers(installed, locals, requested, r);
    MetInOrder(installed, locals, r);
    SameMembersDistinct(r, requested);
    forall s | SameMembers(s, requested) && ReferencesLoadable(installed, locals, s) ensures Ahead(requested, r, s) {
      LoadableReferences(installed, locals, s);
      OrderIsFirst(requested, Precede(installed, locals), s);
    }
  }

  // A list that can be put into a loadable order is accepted.
  lemma LoadableReferencesAreEnough(installed: seq<RegistryEntry>, locals: seq<LocalSource>, requested: seq<Reference>, s: seq<Reference>)
    requires SameMembers(s, requested) && ReferencesLoadable(installed, locals, s)
    ensures MixedAccepts(installed, locals, requested)
  {
    LoadableReferences(installed, locals, s);
    MetAsMembers(installed, locals, s, requested);
    OrderIsFirst(requested, Precede(installed, locals), s);
    MetIsAccepted(installed, locals, requested);
  }

  // What a record or a manifest says about the two references.
  ghost predicate AskedBefore(installed: seq<RegistryEntry>, locals: seq<LocalSource>, a: Reference, b: Reference) {
    || (a.Registry? && b.Registry? && exists entry, d ::
         FindEntry(installed, b.exact) == Some(entry) && d in entry.dependencies && d.modId == a.exact.modId)
    || (a.Local? && b.Local? && exists x, y ::
         IsBuild(a, x) && IsBuild(b, y) && AskedFirst(locals, x, y))
  }

  ghost predicate AdjustsReferences(installed: seq<RegistryEntry>, locals: seq<LocalSource>, requested: seq<Reference>, adjustments: seq<Adjustment>) {
    forall a: nat, b: nat :: (a, b) in adjustments <==> b < a < |requested| && AskedBefore(installed, locals, requested[a], requested[b])
  }

  lemma BeforeMeaning(installed: seq<RegistryEntry>, locals: seq<LocalSource>, a: Reference, b: Reference)
    ensures Before(installed, locals, a, b) <==> AskedBefore(installed, locals, a, b)
  {
    if a.Local? && b.Local? {
      assert IsBuild(a, Stored(a.local)) && IsBuild(b, Stored(b.local));
      assert BuildBefore(locals, Stored(a.local), Stored(b.local)) <==> AskedFirst(locals, Stored(a.local), Stored(b.local));
    }
  }

  method ResolveMixed(installed: seq<RegistryEntry>, locals: seq<LocalSource>, requested: seq<Reference>)
    returns (r: Result<(seq<Reference>, seq<Adjustment>), Fault>)
    ensures r.Ok? <==> MixedAccepts(installed, locals, requested)
    ensures r.Ok? ==> r.value.0 == Order(requested, Precede(installed, locals))
    // The result is the first of all orders of the request that the records and the
    // manifests allow, and there is none when it fails.
    ensures r.Ok? ==> SameMembers(r.value.0, requested) && ReferencesLoadable(installed, locals, r.value.0)
    ensures r.Ok? ==> forall s | SameMembers(s, requested) && ReferencesLoadable(installed, locals, s) :: Ahead(requested, r.value.0, s)
    ensures r.Err? ==> forall s | SameMembers(s, requested) :: !ReferencesLoadable(installed, locals, s)
    ensures r.Ok? ==> AdjustsReferences(installed, locals, requested, r.value.1) && (r.value.1 == [] <==> r.value.0 == requested)
    ensures r.Err? && r.error.CyclicOrder? ==>
      || IsCycle(EdgesOf(requested, Precede(installed, locals)), r.error.cycle)
      || IsCycle(EdgesOf(Part(requested, AsRegistry), ReleasesPrecede(installed)), r.error.cycle)
  {
    r := OrderMixed(installed, locals, requested);
    if r.Ok? {
      MixedOrderIsFirst(installed, locals, requested);
    } else {
      forall s | SameMembers(s, requested) ensures !ReferencesLoadable(installed, locals, s) {
        if ReferencesLoadable(installed, locals, s) {
          LoadableReferencesAreEnough(installed, locals, requested, s);
        }
      }
    }
  }

  method OrderMixed(installed: seq<RegistryEntry>, locals: seq<LocalSource>, requested: seq<Reference>)
    returns (r: Result<(seq<Reference>, seq<Adjustment>), Fault>)
    ensures r.Ok? <==> MixedAccepts(installed, locals, requested)
    ensures r.Ok? ==> r.value.0 == Order(requested, Precede(installed, locals))
    ensures r.Ok? ==> AdjustsReferences(installed, locals, requested, r.value.1) && (r.value.1 == [] <==> r.value.0 == requested)
    ensures r.Err? && r.error.CyclicOrder? ==>
      || IsCycle(EdgesOf(requested, Precede(installed, locals)), r.error.cycle)
      || IsCycle(EdgesOf(Part(requested, AsRegistry), ReleasesPrecede(installed)), r.error.cycle)
  {
    if |requested| > MAX_MODS {
      return Err(TooMany);
    }
    var graph := MixedGraph(installed, locals, requested);
    if graph.Err? {
      return Err(graph.error);
    }
    r := Finish(installed, locals, requested, graph.value);
  }

  lemma GraphIsWhole(installed: seq<RegistryEntry>, locals: seq<LocalSource>, requested: seq<Reference>,
                     items: seq<(nat, LocalSource)>, embedded: Edges, edges: Edges)
    requires Identified(installed, locals, requested) && Lists(locals, requested, items)
    requires IsEmbedding(Positions(requested, AsRegistry), EdgesOf(Part(requested, AsRegistry), ReleasesPrecede(installed)), embedded)
    requires AddsLocals(embedded, edges, requested, items, |items|)
    ensures edges == EdgesOf(requested, Precede(installed, locals))
  {
    var graph := EdgesOf(requested, Precede(installed, locals));
    forall i, j | 0 <= i < |requested| && 0 <= j < |requested| ensures HasEdge(edges, i, j) <==> HasEdge(graph, i, j) {
      EmbeddedMeaning(installed, requested, i, j);
      AmongMeaning(installed, locals, requested, items, i, j);
    }
    SameEdges(edges, graph);
  }

  // The registry graph with the local constraints added is the graph of the whole.
  method MixedGraph(installed: seq<RegistryEntry>, locals: seq<LocalSource>, requested: seq<Reference>) returns (r: Result<Edges, Fault>)
    ensures r.Ok? ==> r.value == EdgesOf(requested, Precede(installed, locals)) && NoRepeats(requested)
    ensures r.Ok? <==>
      && Identified(installed, locals, requested)
      && RegistryAccepts(installed, Part(requested, AsRegistry))
      && forall x | x in requested :: LocalSatisfied(locals, requested, x)
    ensures r.Err? && r.error.CyclicOrder? ==> IsCycle(EdgesOf(Part(requested, AsRegistry), ReleasesPrecede(installed)), r.error.cycle)
  {
    var read := ReadSelection(installed, locals, requested);
    if read.Err? {
      return Err(read.error);
    }
    var registry := SelectionEdges(installed, read.value.registryReferences);
    if registry.Err? {
      return Err(registry.error);
    }
    assert NoRepeats(requested);
    var embedded := EmbedRegistry(requested, read.value.registryPositions, registry.value.1);
    var fault, edges := AddLocals(locals, requested, read.value, embedded);
    if fault.Some? {
      return Err(fault.value);
    }
    GraphIsWhole(installed, locals, requested, read.value.selectedLocals, embedded, edges);
    return Ok(edges);
  }

  method Finish(installed: seq<RegistryEntry>, locals: seq<LocalSource>, requested: seq<Reference>, edges: Edges)
    returns (r: Result<(seq<Reference>, seq<Adjustment>), Fault>)
    requires edges == EdgesOf(requested, Precede(installed, locals)) && NoRepeats(requested)
    ensures r.Ok? <==> Orderable(requested, Precede(installed, locals))
    ensures r.Ok? ==> r.value.0 == Order(requested, Precede(installed, locals))
    ensures r.Ok? ==> AdjustsReferences(installed, locals, requested, r.value.1) && (r.value.1 == [] <==> r.value.0 == requested)
    ensures r.Err? ==> r.error.CyclicOrder? && IsCycle(edges, r.error.cycle)
  {
    var cycle := Cycle(edges);
    if cycle.Some? {
      return Err(CyclicOrder(cycle.value));
    }
    var adjustments := Adjustments(edges);
    var indices := Topological(edges);
    KahnBounded(edges);
    NoAdjustments(requested, Precede(installed, locals), adjustments);
    forall a, b ensures Before(installed, locals, a, b) <==> AskedBefore(installed, locals, a, b) {
      BeforeMeaning(installed, locals, a, b);
    }
    return Ok((Select(requested, indices), adjustments));
  }
}
