// Ordering a selection of local builds: exact requirements and the mandatory
// before/after constraints of their manifests.
module LocalOrder {
  import opened Results
  import opened Graphs
  import opened TopologicalSort
  import opened CycleSearch
  import opened References
  import opened Priorities

  predicate BuildBefore(locals: seq<LocalSource>, a: ModReference, b: ModReference) {
    var first, second := FindSource(locals, a), FindSource(locals, b);
    || (second.Some? && a in second.value.manifest.required)
    || (first.Some? && b.modId in first.value.manifest.loadBefore)
    || (second.Some? && a.modId in second.value.manifest.loadAfter)
  }

  ghost function BuildsPrecede(locals: seq<LocalSource>): (f: (ModReference, ModReference) -> bool)
    ensures forall a, b :: f(a, b) <==> BuildBefore(locals, a, b)
  {
    (a, b) => BuildBefore(locals, a, b)
  }

  ghost predicate OneBuildPerMod(requested: seq<ModReference>) {
    forall i, j | 0 <= i < j < |requested| :: requested[i].modId != requested[j].modId
  }

  ghost predicate BuildKnown(locals: seq<LocalSource>, reference: ModReference) {
    ToLocal(reference).Some? && FindSource(locals, reference).Some?
  }

  ghost predicate BuildRequirementsMet(locals: seq<LocalSource>, requested: seq<ModReference>, reference: ModReference) {
    var source := FindSource(locals, reference);
    source.Some? && forall m | m in source.value.manifest.required :: m in requested
  }

  ghost predicate LocalsAccept(locals: seq<LocalSource>, requested: seq<ModReference>) {
    && |requested| <= MAX_MODS
    && OneBuildPerMod(requested)
    && (forall r | r in requested :: BuildKnown(locals, r))
    && (forall r | r in requested :: BuildRequirementsMet(locals, requested, r))
    && Orderable(requested, BuildsPrecede(locals))
  }

  // ---- Constraints of one manifest, in a list where some places hold local builds ----

  // keys[i] is the mod at place i when that place holds a local build.
  ghost predicate PlacesOf(keys: seq<Option<string>>, places: map<string, nat>) {
    && (forall m | m in places :: places[m] < |keys| && keys[places[m]] == Some(m))
    && (forall i | 0 <= i < |keys| && keys[i].Some? :: keys[i].value in places && places[keys[i].value] == i)
  }

  predicate Names(targets: seq<string>, key: Option<string>) {
    key.Some? && key.value in targets
  }

  predicate TargetEdge(keys: seq<Option<string>>, index: nat, targets: seq<string>, before: bool, i: nat, j: nat)
    requires i < |keys| && j < |keys|
  {
    if before then i == index && Names(targets, keys[j]) else j == index && Names(targets, keys[i])
  }

  ghost predicate AddsTargets(edges0: Edges, edges: Edges, keys: seq<Option<string>>, index: nat, targets: seq<string>, before: bool) {
    && |edges0| == |edges| == |keys| && WellFormed(edges)
    && forall i, j | 0 <= i < |keys| && 0 <= j < |keys| ::
         HasEdge(edges, i, j) <==> HasEdge(edges0, i, j) || TargetEdge(keys, index, targets, before, i, j)
  }

  // `load_before` and `load_after`: targets that are not selected constrain nothing.
  method AddTargets(keys: seq<Option<string>>, places: map<string, nat>, index: nat, targets: seq<string>, before: bool, edges0: Edges)
    returns (edges: Edges)
    requires PlacesOf(keys, places) && index < |keys| && |edges0| == |keys| && WellFormed(edges0)
    ensures AddsTargets(edges0, edges, keys, index, targets, before)
  {
    edges := edges0;
    assert targets[..0] == [];
    for k := 0 to |targets|
      invariant AddsTargets(edges0, edges, keys, index, targets[..k], before)
    {
      ghost var done, target := targets[..k], targets[k];
      assert targets[..k + 1] == done + [target];
      assert forall key :: Names(done + [target], key) <==> Names(done, key) || key == Some(target);
      if targets[k] in places {
        var other := places[targets[k]];
        edges := if before then AddEdge(edges, index, other) else AddEdge(edges, other, index);
      }
    }
    assert targets[..|targets|] == targets;
  }

  ghost predicate Requires<R>(convert: ModReference -> Option<R>, required: seq<ModReference>, reference: R) {
    exists m | m in required :: convert(m) == Some(reference)
  }

  ghost predicate AddsRequirements<R>(edges0: Edges, edges: Edges, requested: seq<R>, convert: ModReference -> Option<R>,
    index: nat, required: seq<ModReference>)
  {
    && |edges0| == |edges| == |requested| && WellFormed(edges)
    && forall i, j | 0 <= i < |requested| && 0 <= j < |requested| ::
         HasEdge(edges, i, j) <==> HasEdge(edges0, i, j) || (j == index && Requires(convert, required, requested[i]))
  }

  ghost predicate Satisfied<R>(requested: seq<R>, convert: ModReference -> Option<R>, required: seq<ModReference>) {
    forall m | m in required :: convert(m).Some? && convert(m).value in requested
  }

  function PositionOf<R(==)>(requested: seq<R>, wanted: R): (r: Option<nat>)
    ensures r.Some? ==> r.value < |requested| && requested[r.value] == wanted
    ensures r.None? <==> wanted !in requested
  {
    if requested == [] then None
    else if requested[0] == wanted then Some(0)
    else
      var rest := PositionOf(requested[1..], wanted);
      if rest.Some? then Some(rest.value + 1) else None
  }

  // `requires`: each exact build has to be selected, and comes first.
  method AddRequirements<R(==)>(requested: seq<R>, convert: ModReference -> Option<R>, index: nat, required: seq<ModReference>, edges0: Edges)
    returns (fault: Option<Fault>, edges: Edges)
    requires NoRepeats(requested) && index < |requested| && |edges0| == |requested| && WellFormed(edges0)
    ensures fault.None? <==> Satisfied(requested, convert, required)
    ensures fault.None? ==> AddsRequirements(edges0, edges, requested, convert, index, required)
    ensures fault.Some? ==> !fault.value.CyclicOrder?
  {
    edges := edges0;
    for k := 0 to |required|
      invariant Satisfied(requested, convert, required[..k])
      invariant AddsRequirements(edges0, edges, requested, convert, index, required[..k])
    {
      assert required[k] in required;
      assert required[..k + 1] == required[..k] + [required[k]];
      var exact := convert(required[k]);
      if exact.None? {
        return Some(InvalidReference(index)), edges;
      }
      var dependency := PositionOf(requested, exact.value);
      if dependency.None? {
        return Some(MissingRequirement(index)), edges;
      }
      OneMoreRequirement(requested, convert, required[..k], required[k], dependency.value);
      edges := AddEdge(edges, dependency.value, index);
    }
    assert required[..|required|] == required;
    fault := None;
  }

  lemma OneMoreRequirement<R>(requested: seq<R>, convert: ModReference -> Option<R>,
                              done: seq<ModReference>, next: ModReference, place: nat)
    requires NoRepeats(requested) && place < |requested| && convert(next) == Some(requested[place])
    ensures forall i | 0 <= i < |requested| ::
        Requires(convert, done + [next], requested[i]) <==> Requires(convert, done, requested[i]) || i == place
  {
    assert forall m :: m in done + [next] <==> m in done || m == next;
    assert Requires(convert, done + [next], requested[place]);
  }

  // All that the manifest at `index` asks for.
  ghost predicate ManifestEdge<R>(requested: seq<R>, keys: seq<Option<string>>, convert: ModReference -> Option<R>,
    index: nat, manifest: Manifest, i: nat, j: nat)
    requires |keys| == |requested| && i < |keys| && j < |keys|
  {
    || (j == index && Requires(convert, manifest.required, requested[i]))
    || TargetEdge(keys, index, manifest.loadBefore, true, i, j)
    || TargetEdge(keys, index, manifest.loadAfter, false, i, j)
  }

  ghost predicate AddsManifest<R>(edges0: Edges, edges: Edges, requested: seq<R>, keys: seq<Option<string>>,
    convert: ModReference -> Option<R>, index: nat, manifest: Manifest)
    requires |keys| == |requested|
  {
    && |edges0| == |edges| == |requested| && WellFormed(edges)
    && forall i, j | 0 <= i < |requested| && 0 <= j < |requested| ::
         HasEdge(edges, i, j) <==> HasEdge(edges0, i, j) || ManifestEdge(requested, keys, convert, index, manifest, i, j)
  }

  method AddManifest<R(==)>(requested: seq<R>, keys: seq<Option<string>>, places: map<string, nat>,
      convert: ModReference -> Option<R>, index: nat, manifest: Manifest, edges0: Edges)
    returns (fault: Option<Fault>, edges: Edges)
    requires NoRepeats(requested) && |keys| == |requested| && PlacesOf(keys, places)
    requires index < |requested| && |edges0| == |requested| && WellFormed(edges0)
    ensures fault.None? <==> Satisfied(requested, convert, manifest.required)
    ensures fault.None? ==> AddsManifest(edges0, edges, requested, keys, convert, index, manifest)
    ensures fault.Some? ==> !fault.value.CyclicOrder?
  {
    fault, edges := AddRequirements(requested, convert, index, manifest.required, edges0);
    if fault.None? {
      edges := AddTargets(keys, places, index, manifest.loadBefore, true, edges);
      edges := AddTargets(keys, places, index, manifest.loadAfter, false, edges);
    }
  }

  // ---- The resolver for local builds alone ----

  function Keep(m: ModReference): Option<ModReference> {
    Some(m)
  }

  function Keys(requested: seq<ModReference>): (keys: seq<Option<string>>)
    ensures |keys| == |requested| && forall i | 0 <= i < |keys| :: keys[i] == Some(requested[i].modId)
  {
    seq(|requested|, i requires 0 <= i < |requested| => Some(requested[i].modId))
  }

  ghost predicate Manifests(locals: seq<LocalSource>, requested: seq<ModReference>, manifests: seq<Manifest>) {
    && |manifests| == |requested|
    && forall i | 0 <= i < |manifests| ::
         FindSource(locals, requested[i]).Some? && FindSource(locals, requested[i]).value.manifest == manifests[i]
  }

  ghost predicate ReadUpTo(locals: seq<LocalSource>, requested: seq<ModReference>, positions: map<string, nat>, manifests: seq<Manifest>) {
    && PlacesOf(Keys(requested), positions) && Manifests(locals, requested, manifests)
    && OneBuildPerMod(requested) && forall x | x in requested :: BuildKnown(locals, x)
  }

  method ReadManifest(locals: seq<LocalSource>, ghost before: seq<ModReference>, reference: ModReference, index: nat,
      positions: map<string, nat>, manifests: seq<Manifest>)
    returns (r: Result<(map<string, nat>, seq<Manifest>), Fault>)
    requires index == |before| && ReadUpTo(locals, before, positions, manifests)
    ensures r.Ok? ==> ReadUpTo(locals, before + [reference], r.value.0, r.value.1)
    ensures r.Err? ==> !r.error.CyclicOrder?
    ensures r.Err? ==> !BuildKnown(locals, reference) || !OneBuildPerMod(before + [reference])
  {
    if reference.modId in positions {
      assert (before + [reference])[positions[reference.modId]].modId == (before + [reference])[index].modId;
      return Err(Repeated(index));
    }
    if ToLocal(reference).None? {
      return Err(InvalidReference(index));
    }
    var source := FindSource(locals, reference);
    if source.None? {
      return Err(Unavailable(index));
    }
    return Ok((positions[reference.modId := index], manifests + [source.value.manifest]));
  }

  method ReadManifests(locals: seq<LocalSource>, requested: seq<ModReference>)
    returns (r: Result<(map<string, nat>, seq<Manifest>), Fault>)
    ensures r.Ok? <==> OneBuildPerMod(requested) && forall x | x in requested :: BuildKnown(locals, x)
    ensures r.Ok? ==> PlacesOf(Keys(requested), r.value.0) && Manifests(locals, requested, r.value.1)
    ensures r.Err? ==> !r.error.CyclicOrder?
  {
    var positions: map<string, nat> := map[];
    var manifests := [];
    for index := 0 to |requested|
      invariant ReadUpTo(locals, requested[..index], positions, manifests)
    {
      r := ReadManifest(locals, requested[..index], requested[index], index, positions, manifests);
      assert requested[..index + 1] == requested[..index] + [requested[index]];
      if r.Err? {
        assert requested[index] in requested;
        BuildsOfPrefix(requested, index + 1);
        return;
      }
      positions, manifests := r.value.0, r.value.1;
    }
    assert requested[..|requested|] == requested;
    return Ok((positions, manifests));
  }

  lemma BuildsOfPrefix(requested: seq<ModReference>, k: nat)
    requires k <= |requested|
    ensures OneBuildPerMod(requested) ==> OneBuildPerMod(requested[..k])
  {
  }

  // Edges contributed by the first `upto` manifests.
  ghost predicate LocalEdgesSoFar(requested: seq<ModReference>, manifests: seq<Manifest>, edges: Edges, upto: nat) {
    && |manifests| == |requested| && |edges| == |requested| && WellFormed(edges)
    && forall i, j | 0 <= i < |requested| && 0 <= j < |requested| ::
         HasEdge(edges, i, j) <==> LocalEdgeSoFar(requested, manifests, upto, i, j)
  }

  predicate LocalEdgeSoFar(requested: seq<ModReference>, manifests: seq<Manifest>, upto: nat, i: nat, j: nat)
    requires |manifests| == |requested| && i < |requested| && j < |requested|
  {
    || (j < upto && requested[i] in manifests[j].required)
    || (i < upto && requested[j].modId in manifests[i].loadBefore)
    || (j < upto && requested[i].modId in manifests[j].loadAfter)
  }

  lemma OneMoreManifest(requested: seq<ModReference>, manifests: seq<Manifest>, upto: nat, i: nat, j: nat)
    requires |manifests| == |requested| && i < |requested| && j < |requested| && upto < |requested|
    ensures LocalEdgeSoFar(requested, manifests, upto + 1, i, j) <==>
            (LocalEdgeSoFar(requested, manifests, upto, i, j) || ManifestEdge(requested, Keys(requested), Keep, upto, manifests[upto], i, j))
  {
    var required := manifests[upto].required;
    if requested[i] in required {
      assert Keep(requested[i]) == Some(requested[i]);
    }
    if Requires(Keep, required, requested[i]) {
      var m :| m in required && Keep(m) == Some(requested[i]);
    }
  }

  // ---- The same in terms of what the manifests say ----

  // The build in this place is known, what it requires comes earlier, and it stands
  // before and after the mods it asks to stand before and after.
  ghost predicate BuildInPlaceAt(locals: seq<LocalSource>, s: seq<ModReference>, j: nat)
    requires j < |s|
  {
    var source := FindSource(locals, s[j]);
    && ValidHash(s[j].hash) && ValidId(s[j].modId) && s[j].releaseId.None? && source.Some?
    && (forall m | m in source.value.manifest.required :: exists i :: 0 <= i < j && s[i] == m)
    && (forall k | 0 <= k < |s| && s[k].modId in source.value.manifest.loadBefore :: j < k)
    && (forall k | 0 <= k < |s| && s[k].modId in source.value.manifest.loadAfter :: k < j)
  }

  ghost predicate BuildsLoadable(locals: seq<LocalSource>, s: seq<ModReference>) {
    && |s| <= 256
    && OneBuildPerMod(s)
    && forall j | 0 <= j < |s| :: BuildInPlaceAt(locals, s, j)
  }

  ghost predicate BuildsAccepted(locals: seq<LocalSource>, s: seq<ModReference>) {
    OneBuildPerMod(s) && forall x | x in s :: BuildKnown(locals, x) && BuildRequirementsMet(locals, s, x)
  }

  lemma BuildsInOrder(locals: seq<LocalSource>, s: seq<ModReference>)
    requires BuildsAccepted(locals, s) && |s| <= MAX_MODS && Obeys(s, BuildsPrecede(locals))
    ensures BuildsLoadable(locals, s)
  {
    forall j | 0 <= j < |s| ensures BuildInPlaceAt(locals, s, j) {
      assert BuildKnown(locals, s[j]) && BuildRequirementsMet(locals, s, s[j]);
      var manifest := FindSource(locals, s[j]).value.manifest;
      forall m | m in manifest.required ensures exists i :: 0 <= i < j && s[i] == m {
        var i :| 0 <= i < |s| && s[i] == m;
        assert BuildBefore(locals, s[i], s[j]);
      }
      forall k | 0 <= k < |s| && s[k].modId in manifest.loadBefore ensures j < k {
        assert BuildBefore(locals, s[j], s[k]);
      }
      forall k | 0 <= k < |s| && s[k].modId in manifest.loadAfter ensures k < j {
        assert BuildBefore(locals, s[k], s[j]);
      }
    }
  }

  lemma LoadableBuilds(locals: seq<LocalSource>, s: seq<ModReference>)
    requires BuildsLoadable(locals, s)
    ensures BuildsAccepted(locals, s) && |s| <= MAX_MODS && Obeys(s, BuildsPrecede(locals)) && NoRepeats(s)
  {
    forall j | 0 <= j < |s| ensures BuildKnown(locals, s[j]) && BuildRequirementsMet(locals, s, s[j]) {
      assert BuildInPlaceAt(locals, s, j);
    }
    forall i, j | 0 <= i < |s| && 0 <= j < |s| && BuildBefore(locals, s[j], s[i]) ensures j < i {
      assert BuildInPlaceAt(locals, s, i) && BuildInPlaceAt(locals, s, j);
    }
  }

  lemma BuildsAsMembers(locals: seq<LocalSource>, s: seq<ModReference>, t: seq<ModReference>)
    requires SameMembers(s, t) && BuildsAccepted(locals, s)
    ensures BuildsAccepted(locals, t)
  {
    SameMembersIn(s, t);
    SameMembersDistinct(s, t);
    forall i, j | 0 <= i < j < |t| ensures t[i].modId != t[j].modId {
      assert t[i] in s && t[j] in s && t[i] != t[j];
    }
  }

  // The effective order is loadable, and of all loadable orders the first.
  lemma LocalOrderIsFirst(locals: seq<LocalSource>, requested: seq<ModReference>)
    requires LocalsAccept(locals, requested)
    ensures var r := Order(requested, BuildsPrecede(locals));
            && SameMembers(r, requested) && BuildsLoadable(locals, r)
            && forall s | SameMembers(s, requested) && BuildsLoadable(locals, s) :: Ahead(requested, r, s)
  {
    var r := Order(requested, BuildsPrecede(locals));
    OrderMeaning(requested, BuildsPrecede(locals));
    BuildsAsMembers(locals, requested, r);
    BuildsInOrder(locals, r);
    forall s | SameMembers(s, requested) && BuildsLoadable(locals, s) ensures Ahead(requested, r, s) {
      LoadableBuilds(locals, s);
      OrderIsFirst(requested, BuildsPrecede(locals), s);
    }
  }

  // A list that can be put into a loadable order is accepted.
  lemma LoadableBuildsAreEnough(locals: seq<LocalSource>, requested: seq<ModReference>, s: seq<ModReference>)
    requires SameMembers(s, requested) && BuildsLoadable(locals, s)
    ensures LocalsAccept(locals, requested)
  {
    LoadableBuilds(locals, s);
    BuildsAsMembers(locals, s, requested);
    OrderIsFirst(requested, BuildsPrecede(locals), s);
  }

  // What either manifest says about the two builds.
  ghost predicate AskedFirst(locals: seq<LocalSource>, a: ModReference, b: ModReference) {
    || (exists source :: FindSource(locals, b) == Some(source) && (a in source.manifest.required || a.modId in source.manifest.loadAfter))
    || (exists source :: FindSource(locals, a) == Some(source) && b.modId in source.manifest.loadBefore)
  }

  ghost predicate AdjustsBuilds(locals: seq<LocalSource>, requested: seq<ModReference>, adjustments: seq<Adjustment>) {
    forall a: nat, b: nat :: (a, b) in adjustments <==> b < a < |requested| && AskedFirst(locals, requested[a], requested[b])
  }

  method ResolveLocals(locals: seq<LocalSource>, requested: seq<ModReference>)
    returns (r: Result<(seq<ModReference>, seq<Adjustment>), Fault>)
    ensures r.Ok? <==> LocalsAccept(locals, requested)
    ensures r.Ok? ==> r.value.0 == Order(requested, BuildsPrecede(locals))
    // The result is the first of all orders of the request that the manifests allow, and
    // there is none when it fails.
    ensures r.Ok? ==> SameMembers(r.value.0, requested) && BuildsLoadable(locals, r.value.0)
    ensures r.Ok? ==> forall s | SameMembers(s, requested) && BuildsLoadable(locals, s) :: Ahead(requested, r.value.0, s)
    ensures r.Err? ==> forall s | SameMembers(s, requested) :: !BuildsLoadable(locals, s)
    ensures r.Ok? ==> AdjustsBuilds(locals, requested, r.value.1) && (r.value.1 == [] <==> r.value.0 == requested)
    ensures r.Err? && r.error.CyclicOrder? ==> IsCycle(EdgesOf(requested, BuildsPrecede(locals)), r.error.cycle)
  {
    r := OrderLocals(locals, requested);
    if r.Ok? {
      LocalOrderIsFirst(locals, requested);
    } else {
      forall s | SameMembers(s, requested) ensures !BuildsLoadable(locals, s) {
        if BuildsLoadable(locals, s) {
          LoadableBuildsAreEnough(locals, requested, s);
        }
      }
    }
  }

  method OrderLocals(locals: seq<LocalSource>, requested: seq<ModReference>)
    returns (r: Result<(seq<ModReference>, seq<Adjustment>), Fault>)
    ensures r.Ok? <==> LocalsAccept(locals, requested)
    ensures r.Ok? ==> r.value.0 == Order(requested, BuildsPrecede(locals))
    ensures r.Ok? ==> AdjustsBuilds(locals, requested, r.value.1) && (r.value.1 == [] <==> r.value.0 == requested)
    ensures r.Err? && r.error.CyclicOrder? ==> IsCycle(EdgesOf(requested, BuildsPrecede(locals)), r.error.cycle)
  {
    if |requested| > MAX_MODS {
      return Err(TooMany);
    }
    var read := ReadManifests(locals, requested);
    if read.Err? {
      return Err(read.error);
    }
    var (positions, manifests) := read.value;
    var edges: Edges := seq(|requested|, i => {});
    for index := 0 to |requested|
      invariant LocalEdgesSoFar(requested, manifests, edges, index)
      invariant forall j | 0 <= j < index :: BuildRequirementsMet(locals, requested, requested[j])
    {
      var fault, more := AddManifest(requested, Keys(requested), positions, Keep, index, manifests[index], edges);
      assert Satisfied(requested, Keep, manifests[index].required) <==> BuildRequirementsMet(locals, requested, requested[index]);
      if fault.Some? {
        assert requested[index] in requested;
        return Err(fault.value);
      }
      forall i, j | 0 <= i < |requested| && 0 <= j < |requested|
        ensures HasEdge(more, i, j) <==> LocalEdgeSoFar(requested, manifests, index + 1, i, j)
      {
        OneMoreManifest(requested, manifests, index, i, j);
      }
      edges := more;
    }
    SameEdges(edges, EdgesOf(requested, BuildsPrecede(locals)));
    r := FinishLocals(locals, requested, edges);
  }

  method FinishLocals(locals: seq<LocalSource>, requested: seq<ModReference>, edges: Edges)
    returns (r: Result<(seq<ModReference>, seq<Adjustment>), Fault>)
    requires edges == EdgesOf(requested, BuildsPrecede(locals)) && OneBuildPerMod(requested)
    ensures r.Ok? <==> Orderable(requested, BuildsPrecede(locals))
    ensures r.Ok? ==> r.value.0 == Order(requested, BuildsPrecede(locals))
    ensures r.Ok? ==> AdjustsBuilds(locals, requested, r.value.1) && (r.value.1 == [] <==> r.value.0 == requested)
    ensures r.Err? ==> r.error.CyclicOrder? && IsCycle(edges, r.error.cycle)
  {
    var cycle := Cycle(edges);
    if cycle.Some? {
      return Err(CyclicOrder(cycle.value));
    }
    var adjustments := Adjustments(edges);
    var indices := Topological(edges);
    KahnBounded(edges);
    NoAdjustments(requested, BuildsPrecede(locals), adjustments);
    return Ok((Select(requested, indices), adjustments));
  }
}
