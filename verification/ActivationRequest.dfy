// Making the activation document: the registry part, the local part, and the merge.
module ActivationRequest {
  import opened Results
  import opened References
  import opened Dependencies
  import opened Priorities
  import opened RegistryOrder
  import opened LocalOrder
  import opened MixedOrder
  import opened OrderTheorems
  import opened ActivationDocument
  import opened Inventories
  import opened Selection
  import opened SelectionDocuments
  import opened SelectionContents

  // ---- Parts, one place at a time ----

  lemma PartStep<R, S>(s: seq<R>, k: nat, part: R -> Option<S>)
    requires k < |s|
    ensures Part(s[..k + 1], part) == Part(s[..k], part) + (if part(s[k]).None? then [] else [part(s[k]).value])
  {
    assert s[..k + 1][..k] == s[..k];
  }

  lemma PartSkip<R, S>(s: seq<R>, k: nat, part: R -> Option<S>)
    requires k < |s| && part(s[k]).None?
    ensures Part(s[..k + 1], part) == Part(s[..k], part)
  {
    PartStep(s, k, part);
  }

  lemma PartTake<R, S>(s: seq<R>, k: nat, part: R -> Option<S>, x: S)
    requires k < |s| && part(s[k]) == Some(x)
    ensures Part(s[..k + 1], part) == Part(s[..k], part) + [x]
  {
    PartStep(s, k, part);
  }

  lemma SumStep(sizes: seq<nat>, size: nat)
    ensures Sum(sizes + [size]) == Sum(sizes) + size
  {
    assert (sizes + [size])[..|sizes|] == sizes;
  }

  lemma {:induction false} SumGrows<R>(s: seq<R>, k: nat, sizes: R -> Option<nat>)
    requires k <= |s|
    ensures Sum(Part(s[..k], sizes)) <= Sum(Part(s, sizes))
    decreases |s| - k
  {
    if k < |s| {
      if sizes(s[k]).Some? {
        PartTake(s, k, sizes, sizes(s[k]).value);
        SumStep(Part(s[..k], sizes), sizes(s[k]).value);
      } else {
        PartSkip(s, k, sizes);
      }
      SumGrows(s, k + 1, sizes);
    } else {
      assert s[..k] == s;
    }
  }

  // ---- Registry releases ----

  // Not blocked, prepared, and its files fit what it declares.
  predicate Usable(store: Store, r: Reference) {
    HashOf(r) !in store.blocked && HashOf(r) in store.prepared && r !in store.refused
  }

  ghost predicate ReleasesUsable(store: Store, ordered: seq<ExactReference>) {
    && (forall x | x in ordered :: FindEntry(store.installed, x).Some? && Usable(store, Registry(x)))
    && Sum(Part(ordered, ReleaseSizes(store))) <= MAX_ACTIVATION_BYTES
  }

  ghost predicate RegistryReady(store: Store, references: seq<ExactReference>) {
    && RegistryAccepts(store.installed, references)
    && var ordered := Order(references, ReleasesPrecede(store.installed));
       ReleasesUsable(store, ordered) && ValidActivation(RegistryDocument(store, ordered))
  }

  // `dependencies.iter().filter_map(…)`
  method RouteDependencies(installed: seq<RegistryEntry>, ordered: seq<ExactReference>, dependencies: seq<Dependency>)
    returns (required: seq<string>)
    ensures required == Part(dependencies, Routes(installed, ordered))
  {
    required := [];
    for i := 0 to |dependencies|
      invariant required == Part(dependencies[..i], Routes(installed, ordered))
    {
      PartStep(dependencies, i, Routes(installed, ordered));
      var candidate := Candidate(installed, ordered, dependencies[i].modId);
      if candidate.Some? && !candidate.value.installation.Content? {
        required := required + [RegistryRuntimeId(candidate.value.reference)];
      }
    }
    assert dependencies[..|dependencies|] == dependencies;
  }

  // The mod and the inventory entry of one release; nothing for a content release.
  method MakeRelease(store: Store, ordered: seq<ExactReference>, x: ExactReference, entry: RegistryEntry)
    returns (r: Option<(ActiveMod, Listed)>)
    requires FindEntry(store.installed, x) == Some(entry)
    ensures r.None? <==> ReleaseMod(store, ordered, x).None?
    ensures ReleaseListing(store, x).None? <==> ReleaseMod(store, ordered, x).None?
    ensures ReleaseMod(store, [], x).None? <==> ReleaseMod(store, ordered, x).None?
    ensures r.Some? ==> ReleaseMod(store, ordered, x) == Some(r.value.0) && ReleaseListing(store, x) == Some(r.value.1)
  {
    var assembly: Option<string>, entryType: Option<string> := None, None;
    match entry.installation {
      case Lua =>
      case Managed(sourceRoot, entryAssembly, kind) =>
        assembly := Some(if sourceRoot == "" then entryAssembly else sourceRoot + "/" + entryAssembly);
        entryType := Some(kind);
      case Content =>
        return None;
    }
    var required := RouteDependencies(store.installed, ordered, entry.dependencies);
    var id := RegistryRuntimeId(x);
    return Some((
      ActiveMod(id, FromRegistry(x.modId, x.releaseId, x.sha256), RegistryRoot(x), assembly, entryType, required,
        FilesOf(Prepared(store, x.sha256))),
      Listed(id, entry.name, entry.versionLabel)));
  }

  datatype Made = Made(mods: seq<ActiveMod>, inventory: seq<Listed>, total: nat)

  ghost predicate ReleasesUpTo(store: Store, ordered: seq<ExactReference>, i: nat, made: Made)
    requires i <= |ordered|
  {
    && made.mods == Part(ordered[..i], ReleaseMods(store, ordered))
    && made.inventory == Part(ordered[..i], ReleaseListings(store))
    && made.total == Sum(Part(ordered[..i], ReleaseSizes(store))) <= MAX_ACTIVATION_BYTES
    && forall x | x in ordered[..i] :: FindEntry(store.installed, x).Some? && Usable(store, Registry(x))
  }

  lemma ReleaseSkipped(store: Store, ordered: seq<ExactReference>, i: nat, made: Made)
    requires i < |ordered| && ReleasesUpTo(store, ordered, i, made)
    requires FindEntry(store.installed, ordered[i]).Some? && Usable(store, Registry(ordered[i]))
    requires ReleaseMod(store, ordered, ordered[i]).None? && ReleaseListing(store, ordered[i]).None? && ReleaseMod(store, [], ordered[i]).None?
    ensures ReleasesUpTo(store, ordered, i + 1, made)
  {
    PartSkip(ordered, i, ReleaseMods(store, ordered));
    PartSkip(ordered, i, ReleaseListings(store));
    PartSkip(ordered, i, ReleaseSizes(store));
    assert ordered[..i + 1] == ordered[..i] + [ordered[i]];
  }

  lemma OneMore<R>(s: seq<R>, i: nat)
    requires i < |s|
    ensures forall x | x in s[..i + 1] :: x in s[..i] || x == s[i]
  {
  }

  lemma SizeTaken<R>(s: seq<R>, i: nat, sizes: R -> Option<nat>, size: nat)
    requires i < |s| && sizes(s[i]) == Some(size)
    ensures Sum(Part(s[..i + 1], sizes)) == Sum(Part(s[..i], sizes)) + size
  {
    PartTake(s, i, sizes, size);
    SumStep(Part(s[..i], sizes), size);
  }

  lemma ReleaseTaken(store: Store, ordered: seq<ExactReference>, i: nat, made: Made, m: ActiveMod, item: Listed)
    requires i < |ordered| && ReleasesUpTo(store, ordered, i, made)
    requires FindEntry(store.installed, ordered[i]).Some? && Usable(store, Registry(ordered[i]))
    requires ReleaseMod(store, ordered, ordered[i]) == Some(m) && ReleaseListing(store, ordered[i]) == Some(item)
    requires ReleaseMod(store, [], ordered[i]).Some?
    ensures var total := made.total + Size(Prepared(store, ordered[i].sha256));
            && total == Sum(Part(ordered[..i + 1], ReleaseSizes(store)))
            && (total <= MAX_ACTIVATION_BYTES ==>
                 ReleasesUpTo(store, ordered, i + 1, Made(made.mods + [m], made.inventory + [item], total)))
  {
    PartTake(ordered, i, ReleaseMods(store, ordered), m);
    PartTake(ordered, i, ReleaseListings(store), item);
    SizeTaken(ordered, i, ReleaseSizes(store), Size(Prepared(store, ordered[i].sha256)));
    OneMore(ordered, i);
  }

  lemma NotUsable(store: Store, ordered: seq<ExactReference>, i: nat)
    requires i < |ordered|
    requires FindEntry(store.installed, ordered[i]).None? || !Usable(store, Registry(ordered[i]))
          || Sum(Part(ordered[..i + 1], ReleaseSizes(store))) > MAX_ACTIVATION_BYTES
    ensures !ReleasesUsable(store, ordered)
  {
    assert ordered[i] in ordered;
    SumGrows(ordered, i + 1, ReleaseSizes(store));
  }

  // One release of the effective order.
  method MakeNext(store: Store, ordered: seq<ExactReference>, i: nat, made: Made) returns (r: Option<Made>)
    requires i < |ordered| && ReleasesUpTo(store, ordered, i, made)
    ensures r.Some? ==> ReleasesUpTo(store, ordered, i + 1, r.value)
    ensures r.None? ==> !ReleasesUsable(store, ordered)
  {
    var x := ordered[i];
    var entry := FindEntry(store.installed, x);
    if entry.None? || !Usable(store, Registry(x)) {
      NotUsable(store, ordered, i);
      return None;
    }
    var next := MakeRelease(store, ordered, x, entry.value);
    if next.None? {
      ReleaseSkipped(store, ordered, i, made);
      return Some(made);
    }
    ReleaseTaken(store, ordered, i, made, next.value.0, next.value.1);
    var total := made.total + Size(Prepared(store, x.sha256));
    if total > MAX_ACTIVATION_BYTES {
      NotUsable(store, ordered, i);
      return None;
    }
    return Some(Made(made.mods + [next.value.0], made.inventory + [next.value.1], total));
  }

  // The loop over the effective order.
  method MakeReleases(store: Store, ordered: seq<ExactReference>) returns (r: Option<Activation>)
    ensures r.Some? <==> ReleasesUsable(store, ordered)
    ensures r.Some? ==> r.value == RegistryDocument(store, ordered)
  {
    var made := Made([], [], 0);
    for i := 0 to |ordered|
      invariant ReleasesUpTo(store, ordered, i, made)
    {
      var next := MakeNext(store, ordered, i, made);
      if next.None? {
        return None;
      }
      made := next.value;
    }
    assert ordered[..|ordered|] == ordered;
    return Some(Activation(4, made.inventory, 0, made.mods));
  }

  method RequestRegistry(store: Store, references: seq<ExactReference>) returns (r: Option<Activation>)
    ensures r.Some? <==> RegistryReady(store, references)
    ensures r.Some? ==> r.value == RegistryDocument(store, Order(references, ReleasesPrecede(store.installed)))
  {
    var resolved := ResolveRegistry(store.installed, references);
    if resolved.Err? {
      return None;
    }
    var made := MakeReleases(store, resolved.value.0);
    if made.None? {
      return None;
    }
    var valid := Check(made.value);
    return if valid then made else None;
  }

  // ---- Local builds ----

  ghost predicate BuildsUsable(store: Store, ordered: seq<ModReference>) {
    && (forall m | m in ordered :: BuildUsable(store, m))
    && Sum(Part(ordered, BuildSizes(store))) <= MAX_ACTIVATION_BYTES
  }

  ghost predicate LocalReady(store: Store, entries: seq<ModReference>) {
    && InLibrary(store, entries)
    && LocalsAccept(store.locals, entries)
    && var ordered := Order(entries, BuildsPrecede(store.locals));
       BuildsUsable(store, ordered) && ValidActivation(LocalDocument(store, entries, ordered))
  }

  method MakeBuild(store: Store, m: ModReference, local: LocalReference, source: LocalSource) returns (made: ActiveMod)
    requires ToLocal(m) == Some(local) && FindSource(store.locals, m) == Some(source)
    ensures StoredMods(store)(m) == Some(made)
  {
    var assembly: Option<string>, entryType: Option<string> := None, None;
    match source.manifest.layout {
      case LuaZip =>
      case ManagedZip(root, entryAssembly, kind) =>
        assembly := Some(if root == "" then entryAssembly else root + "/" + entryAssembly);
        entryType := Some(kind);
    }
    var files := FilesOf(Prepared(store, local.sha256));
    made := ActiveMod(local.modId, FromLocal(Contents(files)), LocalRoot(store, local), assembly, entryType,
      RequiredIds(source.manifest), files);
  }

  predicate BuildUsable(store: Store, m: ModReference) {
    ToLocal(m).Some? && FindSource(store.locals, m).Some? && Usable(store, Local(ToLocal(m).value))
  }

  ghost predicate BuildsUpTo(store: Store, ordered: seq<ModReference>, i: nat, mods: seq<ActiveMod>, total: nat)
    requires i <= |ordered|
  {
    && mods == Part(ordered[..i], StoredMods(store))
    && total == Sum(Part(ordered[..i], BuildSizes(store))) <= MAX_ACTIVATION_BYTES
    && forall m | m in ordered[..i] :: BuildUsable(store, m)
  }

  lemma BuildTaken(store: Store, ordered: seq<ModReference>, i: nat, mods: seq<ActiveMod>, total: nat, made: ActiveMod)
    requires i < |ordered| && BuildsUpTo(store, ordered, i, mods, total) && BuildUsable(store, ordered[i])
    requires StoredMods(store)(ordered[i]) == Some(made)
    ensures var after := total + Size(Prepared(store, ordered[i].hash));
            && after == Sum(Part(ordered[..i + 1], BuildSizes(store)))
            && (after <= MAX_ACTIVATION_BYTES ==> BuildsUpTo(store, ordered, i + 1, mods + [made], after))
  {
    PartTake(ordered, i, StoredMods(store), made);
    SizeTaken(ordered, i, BuildSizes(store), Size(Prepared(store, ordered[i].hash)));
    OneMore(ordered, i);
  }

  lemma BuildsNotUsable(store: Store, ordered: seq<ModReference>, i: nat)
    requires i < |ordered|
    requires !BuildUsable(store, ordered[i]) || Sum(Part(ordered[..i + 1], BuildSizes(store))) > MAX_ACTIVATION_BYTES
    ensures !BuildsUsable(store, ordered)
  {
    assert ordered[i] in ordered;
    SumGrows(ordered, i + 1, BuildSizes(store));
  }

  method MakeNextBuild(store: Store, ordered: seq<ModReference>, i: nat, mods: seq<ActiveMod>, total: nat)
    returns (r: Option<(seq<ActiveMod>, nat)>)
    requires i < |ordered| && BuildsUpTo(store, ordered, i, mods, total)
    ensures r.Some? ==> BuildsUpTo(store, ordered, i + 1, r.value.0, r.value.1)
    ensures r.None? ==> !BuildsUsable(store, ordered)
  {
    var m := ordered[i];
    var local, source := ToLocal(m), FindSource(store.locals, m);
    if local.None? || source.None? || !Usable(store, Local(local.value)) {
      BuildsNotUsable(store, ordered, i);
      return None;
    }
    var made := MakeBuild(store, m, local.value, source.value);
    BuildTaken(store, ordered, i, mods, total, made);
    var after := total + Size(Prepared(store, m.hash));
    if after > MAX_ACTIVATION_BYTES {
      BuildsNotUsable(store, ordered, i);
      return None;
    }
    return Some((mods + [made], after));
  }

  method MakeBuilds(store: Store, ordered: seq<ModReference>) returns (r: Option<seq<ActiveMod>>)
    ensures r.Some? <==> BuildsUsable(store, ordered)
    ensures r.Some? ==> r.value == Part(ordered, StoredMods(store))
  {
    var mods, total := [], 0;
    for i := 0 to |ordered|
      invariant BuildsUpTo(store, ordered, i, mods, total)
    {
      var next := MakeNextBuild(store, ordered, i, mods, total);
      if next.None? {
        return None;
      }
      mods, total := next.value.0, next.value.1;
    }
    assert ordered[..|ordered|] == ordered;
    return Some(mods);
  }

  // The enabled builds first, then the rest of the library.
  method ListLocals(store: Store, enabled: seq<ModReference>) returns (listed: seq<Listed>, omitted: nat)
    ensures var full := LocalInventory(store, enabled); listed == Kept(full) && omitted == Omitted(full)
  {
    var entries := [];
    for i := 0 to |enabled|
      invariant entries == Part(enabled[..i], BuildListings(store))
    {
      PartStep(enabled, i, BuildListings(store));
      var entry := FindLibrary(store.entries, enabled[i]);
      if entry.Some? {
        entries := entries + [LibraryListing(entry.value)];
      }
    }
    assert enabled[..|enabled|] == enabled;
    assert IdsOf([]) == {};
    var full, seen := Extend([], {}, entries + LibraryListed(store));
    listed, omitted := Kept(full), Omitted(full);
  }

  method RequestLocal(store: Store, entries: seq<ModReference>) returns (r: Option<Activation>)
    ensures r.Some? <==> LocalReady(store, entries)
    ensures r.Some? ==> r.value == LocalDocument(store, entries, Order(entries, BuildsPrecede(store.locals)))
  {
    var listed, omitted := ListLocals(store, entries);
    for i := 0 to |entries|
      invariant forall m | m in entries[..i] :: FindLibrary(store.entries, m).Some?
    {
      assert entries[i] in entries && entries[..i + 1] == entries[..i] + [entries[i]];
      if FindLibrary(store.entries, entries[i]).None? {
        return None;
      }
    }
    assert entries[..|entries|] == entries;
    var resolved := ResolveLocals(store.locals, entries);
    if resolved.Err? {
      return None;
    }
    var mods := MakeBuilds(store, resolved.value.0);
    if mods.None? {
      return None;
    }
    var made := Activation(3, listed, omitted, mods.value);
    var valid := Check(made);
    return if valid then Some(made) else None;
  }

  // ---- The merge ----

  // A local mod and an installed release would share their settings.
  ghost predicate SharesKey(store: Store) {
    exists e, x :: e in store.entries && x in store.installed && e.reference.modId == RegistryRuntimeId(x.reference)
  }

  method CheckKeys(store: Store) returns (shared: bool)
    ensures shared <==> SharesKey(store)
  {
    var ids: set<string> := {};
    for i := 0 to |store.installed|
      invariant forall id :: id in ids <==> exists x :: x in store.installed[..i] && id == RegistryRuntimeId(x.reference)
    {
      assert store.installed[..i + 1] == store.installed[..i] + [store.installed[i]];
      ids := ids + {RegistryRuntimeId(store.installed[i].reference)};
    }
    assert store.installed[..|store.installed|] == store.installed;
    for i := 0 to |store.entries|
      invariant forall e | e in store.entries[..i] :: e.reference.modId !in ids
    {
      assert store.entries[i] in store.entries && store.entries[..i + 1] == store.entries[..i] + [store.entries[i]];
      if store.entries[i].reference.modId in ids {
        return true;
      }
    }
    assert store.entries[..|store.entries|] == store.entries;
    return false;
  }

  method TakePart<R, S>(s: seq<R>, part: R -> Option<S>) returns (r: seq<S>)
    ensures r == Part(s, part)
  {
    r := [];
    for i := 0 to |s|
      invariant r == Part(s[..i], part)
    {
      PartStep(s, i, part);
      if part(s[i]).Some? {
        r := r + [part(s[i]).value];
      }
    }
    assert s[..|s|] == s;
  }

  // The active mods of an order, by their ids.
  ghost predicate Holding(store: Store, order: seq<Reference>, active: map<string, ActiveMod>) {
    && (forall id | id in active :: exists r :: r in order && RuntimeId(r) == id)
    && (forall r | r in order ::
          if RuntimeId(r) in active then SelectedMod(store, order, r) == Some(active[RuntimeId(r)])
          else SelectedMod(store, order, r).None?)
  }

  method CollectActive(mods: seq<ActiveMod>) returns (active: map<string, ActiveMod>)
    ensures forall m | m in mods :: m.modId in active
    ensures forall id | id in active :: active[id] in mods && active[id].modId == id
  {
    active := map[];
    for i := 0 to |mods|
      invariant forall m | m in mods[..i] :: m.modId in active
      invariant forall id | id in active :: active[id] in mods && active[id].modId == id
    {
      assert mods[..i + 1] == mods[..i] + [mods[i]];
      active := active[mods[i].modId := mods[i]];
    }
    assert mods[..|mods|] == mods;
  }

  lemma MadeFrom(store: Store, order: seq<Reference>, m: ActiveMod)
    requires Identified(store.installed, store.locals, order)
    requires m in Part(Part(order, AsRegistry), ReleaseMods(store, Part(order, AsRegistry)))
          || m in Part(Part(order, AsStored), StoredMods(store))
    ensures exists r :: r in order && SelectedMod(store, order, r) == Some(m)
  {
    var releases, builds := Part(order, AsRegistry), Part(order, AsStored);
    PartMember(order, AsRegistry);
    PartMember(order, AsStored);
    if m in Part(releases, ReleaseMods(store, releases)) {
      PartMember(releases, ReleaseMods(store, releases));
      var x :| x in releases && ReleaseMod(store, releases, x) == Some(m);
      assert SelectedMod(store, order, Registry(x)) == Some(m);
    } else {
      PartMember(builds, StoredMods(store));
      var s :| s in builds && StoredMods(store)(s) == Some(m);
      var r :| r in order && AsStored(r) == Some(s);
      assert Known(store.installed, store.locals, r);
      ToLocalIsStored(s, r.local);
      assert SelectedMod(store, order, r) == Some(m);
    }
  }

  lemma MadeFor(store: Store, order: seq<Reference>, r: Reference)
    requires Identified(store.installed, store.locals, order) && r in order && SelectedMod(store, order, r).Some?
    ensures SelectedMod(store, order, r).value
            in Part(Part(order, AsRegistry), ReleaseMods(store, Part(order, AsRegistry))) + Part(Part(order, AsStored), StoredMods(store))
  {
    var releases, builds := Part(order, AsRegistry), Part(order, AsStored);
    if r.Registry? {
      PartMember(order, AsRegistry);
      PartMember(releases, ReleaseMods(store, releases));
      assert AsRegistry(r) == Some(r.exact);
      assert ReleaseMods(store, releases)(r.exact) == SelectedMod(store, order, r);
    } else {
      PartMember(order, AsStored);
      PartMember(builds, StoredMods(store));
      assert AsStored(r) == Some(Stored(r.local));
      assert Known(store.installed, store.locals, r);
      ToLocalIsStored(Stored(r.local), r.local);
      assert StoredMods(store)(Stored(r.local)) == SelectedMod(store, order, r);
    }
  }

  lemma SameId(order: seq<Reference>, r: Reference, s: Reference)
    requires OneRuntimeId(order) && r in order && s in order && RuntimeId(r) == RuntimeId(s)
    ensures r == s
  {
  }

  lemma CollectedHold(store: Store, order: seq<Reference>, mods: seq<ActiveMod>, active: map<string, ActiveMod>)
    requires Identified(store.installed, store.locals, order)
    requires mods == Part(Part(order, AsRegistry), ReleaseMods(store, Part(order, AsRegistry))) + Part(Part(order, AsStored), StoredMods(store))
    requires forall m | m in mods :: m.modId in active
    requires forall id | id in active :: active[id] in mods && active[id].modId == id
    ensures Holding(store, order, active)
  {
    forall id | id in active ensures exists r :: r in order && RuntimeId(r) == id && SelectedMod(store, order, r) == Some(active[id]) {
      MadeFrom(store, order, active[id]);
    }
    forall r | r in order
      ensures if RuntimeId(r) in active then SelectedMod(store, order, r) == Some(active[RuntimeId(r)])
              else SelectedMod(store, order, r).None?
    {
      if RuntimeId(r) in active {
        var s :| s in order && RuntimeId(s) == RuntimeId(r) && SelectedMod(store, order, s) == Some(active[RuntimeId(r)]);
        SameId(order, r, s);
      } else if SelectedMod(store, order, r).Some? {
        MadeFor(store, order, r);
      }
    }
  }

  // Each active mod is found in the inventory of its own part.
  lemma FoundInPart(store: Store, order: seq<Reference>, r: Reference, listed: seq<Listed>)
    requires OneRuntimeId(order) && r in order && SelectedListing(store, r).Some? && ListedOnce(listed)
    requires if r.Registry? then listed == Part(Part(order, AsRegistry), ReleaseListings(store))
             else Part(Part(order, AsStored), BuildListings(store)) <= listed
    ensures FindListed(listed, RuntimeId(r)) == SelectedListing(store, r)
  {
    var item := SelectedListing(store, r).value;
    if r.Registry? {
      PartMember(order, AsRegistry);
      PartMember(Part(order, AsRegistry), ReleaseListings(store));
      assert AsRegistry(r) == Some(r.exact) && ReleaseListings(store)(r.exact) == Some(item);
      assert item in listed;
    } else {
      PartMember(order, AsStored);
      PartMember(Part(order, AsStored), BuildListings(store));
      assert AsStored(r) == Some(Stored(r.local)) && BuildListings(store)(Stored(r.local)) == Some(item);
      assert item in Part(Part(order, AsStored), BuildListings(store));
    }
    var i :| 0 <= i < |listed| && listed[i] == item;
    FindListedAt(listed, i);
  }

  // The two parts have been made, each for its share of the order.
  ghost predicate PartsMade(store: Store, order: seq<Reference>, registry: Activation, local: Activation) {
    && Settled(store, order)
    && InLibrary(store, Part(order, AsStored))
    && registry == RegistryDocument(store, Part(order, AsRegistry))
    && local == LocalDocument(store, Part(order, AsStored), Part(order, AsStored))
    && ListedOnce(registry.listed) && ListedOnce(local.listed)
  }

  // The inventory entry of one active mod; it is always there to be found.
  method TakeEntry(store: Store, ghost order: seq<Reference>, registry: Activation, local: Activation, r: Reference)
    returns (item: Listed)
    requires PartsMade(store, order, registry, local) && r in order && SelectedMod(store, order, r).Some?
    ensures SelectedListing(store, r) == Some(item)
  {
    ListedLikeMods(store, order);
    LocalFront(store, order);
    FoundInPart(store, order, r, if r.Registry? then registry.listed else local.listed);
    item := FindListed(if r.Registry? then registry.listed else local.listed, RuntimeId(r)).value;
  }

  // The enabled builds survive the cut of the local inventory.
  lemma LocalFront(store: Store, order: seq<Reference>)
    requires Settled(store, order)
    ensures var builds := Part(order, AsStored);
            Part(builds, BuildListings(store)) <= LocalDocument(store, builds, builds).listed
  {
    var sub, builds := Part(order, Only(false)), Part(order, AsStored);
    SubIsSettled(store, order, false);
    PartMember(order, Only(false));
    PartOfPart(order, Only(false), AsStored, AsStored);
    PartOfPart(sub, AsStored, BuildListings(store), SelectedListings(store));
    ListingOnce(store, sub);
    PartLength(sub, SelectedListings(store));
    LocalInventoryMeaning(store, builds);
    CutMeaning(LocalInventory(store, builds), Part(builds, BuildListings(store)));
  }

  // `active` without what was taken for the first k places.
  ghost predicate Remaining(order: seq<Reference>, all: map<string, ActiveMod>, active: map<string, ActiveMod>, k: nat)
    requires k <= |order|
  {
    && (forall id :: id in active <==> id in all && id !in Ids(order[..k]))
    && (forall id | id in active :: active[id] == all[id])
  }

  lemma StillThere(order: seq<Reference>, all: map<string, ActiveMod>, active: map<string, ActiveMod>, k: nat)
    requires k < |order| && OneRuntimeId(order) && Remaining(order, all, active, k)
    ensures RuntimeId(order[k]) in active <==> RuntimeId(order[k]) in all
    ensures Remaining(order, all, active - {RuntimeId(order[k])}, k + 1)
  {
    assert order[..k + 1] == order[..k] + [order[k]];
    forall id ensures id in Ids(order[..k + 1]) <==> id in Ids(order[..k]) || id == RuntimeId(order[k]) {
      if id in Ids(order[..k]) {
        var r :| r in order[..k] && RuntimeId(r) == id;
        assert r in order[..k + 1];
      }
      assert order[k] in order[..k + 1];
    }
  }

  datatype Merged = Merged(mods: seq<ActiveMod>, inventory: seq<Listed>, seen: set<string>, bytes: nat)

  // What the loop holds after its first k references.
  ghost predicate MergedUpTo(store: Store, order: seq<Reference>, k: nat, m: Merged)
    requires k <= |order|
  {
    && m.mods == Part(order[..k], SelectedMods(store, order))
    && m.inventory == Part(order[..k], SelectedListings(store)) && m.seen == IdsOf(m.inventory)
    && m.bytes == Sum(Part(order[..k], SelectedSizes(store, order))) <= MAX_ACTIVATION_BYTES
  }

  lemma MergeSkips(store: Store, order: seq<Reference>, k: nat, m: Merged)
    requires k < |order| && MergedUpTo(store, order, k, m)
    requires SelectedMod(store, order, order[k]).None? && SelectedListing(store, order[k]).None?
    ensures MergedUpTo(store, order, k + 1, m)
  {
    PartSkip(order, k, SelectedMods(store, order));
    PartSkip(order, k, SelectedListings(store));
    PartSkip(order, k, SelectedSizes(store, order));
  }

  lemma MergeTakes(store: Store, order: seq<Reference>, k: nat, m: Merged, item: ActiveMod, entry: Listed)
    requires k < |order| && MergedUpTo(store, order, k, m)
    requires SelectedMod(store, order, order[k]) == Some(item) && SelectedListing(store, order[k]) == Some(entry)
    ensures var bytes := m.bytes + Size(Prepared(store, HashOf(order[k])));
            && bytes == Sum(Part(order[..k + 1], SelectedSizes(store, order)))
            && (bytes <= MAX_ACTIVATION_BYTES ==>
                 MergedUpTo(store, order, k + 1, Merged(m.mods + [item], m.inventory + [entry], m.seen + {entry.modId}, bytes)))
  {
    PartTake(order, k, SelectedMods(store, order), item);
    PartTake(order, k, SelectedListings(store), entry);
    PartTake(order, k, SelectedSizes(store, order), Size(Prepared(store, HashOf(order[k]))));
    SumStep(Part(order[..k], SelectedSizes(store, order)), Size(Prepared(store, HashOf(order[k]))));
    IdsAppend(m.inventory, entry);
  }

  // One active mod: its bytes are counted before its entry is looked up.
  method MergeOne(store: Store, order: seq<Reference>, registry: Activation, local: Activation, k: nat, item: ActiveMod, m: Merged)
    returns (r: Option<Merged>)
    requires PartsMade(store, order, registry, local) && k < |order| && MergedUpTo(store, order, k, m)
    requires SelectedMod(store, order, order[k]) == Some(item)
    ensures r.Some? <==> Sum(Part(order[..k + 1], SelectedSizes(store, order))) <= MAX_ACTIVATION_BYTES
    ensures r.Some? ==> MergedUpTo(store, order, k + 1, r.value)
  {
    var bytes := m.bytes + Size(Prepared(store, HashOf(order[k])));
    var entry := TakeEntry(store, order, registry, local, order[k]);
    MergeTakes(store, order, k, m, item, entry);
    if bytes > MAX_ACTIVATION_BYTES {
      return None;
    }
    return Some(Merged(m.mods + [item], m.inventory + [entry], m.seen + {entry.modId}, bytes));
  }

  method MergeLoop(store: Store, order: seq<Reference>, registry: Activation, local: Activation, all: map<string, ActiveMod>)
    returns (r: Option<Merged>)
    requires PartsMade(store, order, registry, local) && Holding(store, order, all)
    ensures r.Some? <==> Sum(Part(order, SelectedSizes(store, order))) <= MAX_ACTIVATION_BYTES
    ensures r.Some? ==> MergedUpTo(store, order, |order|, r.value)
  {
    var active := all;
    var merged := Merged([], [], {}, 0);
    ListedLikeMods(store, order);
    for k := 0 to |order|
      invariant Remaining(order, all, active, k) && MergedUpTo(store, order, k, merged)
    {
      var id := RuntimeId(order[k]);
      assert order[k] in order;
      StillThere(order, all, active, k);
      if id in active {
        var next := MergeOne(store, order, registry, local, k, active[id], merged);
        if next.None? {
          SumGrows(order, k + 1, SelectedSizes(store, order));
          return None;
        }
        merged := next.value;
      } else {
        MergeSkips(store, order, k, merged);
      }
      active := active - {id};
    }
    assert order[..|order|] == order;
    return Some(merged);
  }

  ghost predicate SelectionReady(store: Store, references: seq<Reference>) {
    && MixedAccepts(store.installed, store.locals, references)
    && !SharesKey(store)
    && var order := Order(references, Precede(store.installed, store.locals));
       && RegistryReady(store, Part(order, AsRegistry))
       && LocalReady(store, Part(order, AsStored))
       && Sum(Part(order, SelectedSizes(store, order))) <= MAX_ACTIVATION_BYTES
       && ValidActivation(Document(store, order))
  }

  // The registry and the local resolver give back the shares of an effective order.
  lemma SharesAreStable(store: Store, references: seq<Reference>)
    requires MixedAccepts(store.installed, store.locals, references)
    ensures var order := Order(references, Precede(store.installed, store.locals));
            && Order(Part(order, AsRegistry), ReleasesPrecede(store.installed)) == Part(order, AsRegistry)
            && Order(Part(order, AsStored), BuildsPrecede(store.locals)) == Part(order, AsStored)
            && RegistryAccepts(store.installed, Part(order, AsRegistry))
            && LocalsAccept(store.locals, Part(order, AsStored))
  {
    var order := Order(references, Precede(store.installed, store.locals));
    MixedIsIdempotent(store.installed, store.locals, references);
    MixedProjectsToRegistry(store.installed, store.locals, order);
    MixedProjectsToLocals(store.installed, store.locals, order);
  }

  lemma ReadyPartsAreMade(store: Store, references: seq<Reference>)
    requires MixedAccepts(store.installed, store.locals, references)
    ensures var order := Order(references, Precede(store.installed, store.locals));
            var releases, builds := Part(order, AsRegistry), Part(order, AsStored);
            RegistryReady(store, releases) && LocalReady(store, builds) ==>
              PartsMade(store, order, RegistryDocument(store, Order(releases, ReleasesPrecede(store.installed))),
                LocalDocument(store, builds, Order(builds, BuildsPrecede(store.locals))))
  {
    OrderIsSettled(store, references);
    SharesAreStable(store, references);
  }

  lemma ReferenceIsUsable(store: Store, order: seq<Reference>, r: Reference)
    requires Identified(store.installed, store.locals, order) && r in order
    requires ReleasesUsable(store, Part(order, AsRegistry)) && BuildsUsable(store, Part(order, AsStored))
    ensures MayBeUsed(store, r)
  {
    if r.Registry? {
      PartMember(order, AsRegistry);
      assert AsRegistry(r) == Some(r.exact);
    } else {
      PartMember(order, AsStored);
      assert AsStored(r) == Some(Stored(r.local));
      assert Known(store.installed, store.locals, r);
      ToLocalIsStored(Stored(r.local), r.local);
      assert BuildUsable(store, Stored(r.local));
    }
  }

  lemma ReadyIsUsable(store: Store, references: seq<Reference>)
    requires SelectionReady(store, references)
    ensures var order := Order(references, Precede(store.installed, store.locals));
            forall r | r in order :: MayBeUsed(store, r)
  {
    var order := Order(references, Precede(store.installed, store.locals));
    SharesAreStable(store, references);
    OrderIsSettled(store, references);
    forall r | r in order ensures MayBeUsed(store, r) {
      ReferenceIsUsable(store, order, r);
    }
  }

  lemma ReadyIsDescribed(store: Store, references: seq<Reference>)
    requires SelectionReady(store, references)
    ensures var order := Order(references, Precede(store.installed, store.locals));
            DescribesMods(store, order, Document(store, order)) && ShowsInventory(store, Document(store, order))
  {
    var order := Order(references, Precede(store.installed, store.locals));
    ReadyIsUsable(store, references);
    OrderIsSettled(store, references);
    assert AllPrepared(store, order) by {
      forall r | r in order ensures HashOf(r) in store.prepared {
        assert MayBeUsed(store, r);
      }
    }
    DocumentIsDescribed(store, order);
    InventoryIsShown(store, order);
  }

  lemma RequestedAreUsable(store: Store, references: seq<Reference>)
    requires SelectionReady(store, references)
    ensures forall x | x in references :: MayBeUsed(store, x)
  {
    ReadyIsUsable(store, references);
    OrderMeaning(references, Precede(store.installed, store.locals));
    SameMembersIn(references, Order(references, Precede(store.installed, store.locals)));
  }

  datatype Refusal = Unordered(fault: Fault) | SharedKey | PartRefused | TooLarge | Invalid

  // `selection::requested`
  method RequestSelection(store: Store, references: seq<Reference>) returns (r: Result<Activation, Refusal>)
    ensures r.Ok? <==> SelectionReady(store, references)
    ensures r.Ok? ==> r.value == Document(store, Order(references, Precede(store.installed, store.locals)))
    // The document in the words of the library:
    ensures r.Ok? ==> r.value.schema == 4 && DescribesMods(store, Order(references, Precede(store.installed, store.locals)), r.value)
    ensures r.Ok? ==> ShowsInventory(store, r.value)
    ensures r.Ok? ==> forall x | x in references :: MayBeUsed(store, x)
  {
    r := RequestDocument(store, references);
    if r.Ok? {
      ReadyIsDescribed(store, references);
      RequestedAreUsable(store, references);
    }
  }

  method RequestDocument(store: Store, references: seq<Reference>) returns (r: Result<Activation, Refusal>)
    ensures r.Ok? <==> SelectionReady(store, references)
    ensures r.Ok? ==> r.value == Document(store, Order(references, Precede(store.installed, store.locals)))
  {
    var resolved := ResolveMixed(store.installed, store.locals, references);
    if resolved.Err? {
      return Err(Unordered(resolved.error));
    }
    var order := resolved.value.0;
    var shared := CheckKeys(store);
    if shared {
      return Err(SharedKey);
    }
    var releases := TakePart(order, AsRegistry);
    var builds := TakePart(order, AsStored);
    var registry := RequestRegistry(store, releases);
    var local := RequestLocal(store, builds);
    if registry.None? || local.None? {
      return Err(PartRefused);
    }
    ReadyPartsAreMade(store, references);
    r := Merge(store, order, registry.value, local.value);
  }

  method Merge(store: Store, order: seq<Reference>, registry: Activation, local: Activation) returns (r: Result<Activation, Refusal>)
    requires PartsMade(store, order, registry, local)
    ensures r.Ok? <==> Sum(Part(order, SelectedSizes(store, order))) <= MAX_ACTIVATION_BYTES && ValidActivation(Document(store, order))
    ensures r.Ok? ==> r.value == Document(store, order)
  {
    var active := CollectActive(registry.mods + local.mods);
    CollectedHold(store, order, registry.mods + local.mods, active);
    var merged := MergeLoop(store, order, registry, local, active);
    if merged.None? {
      return Err(TooLarge);
    }
    assert order[..|order|] == order;
    var inventory, seen := Extend(merged.value.inventory, merged.value.seen, LibraryListed(store));
    var installed := TakePart(store.installed, InstalledListing);
    inventory, seen := Extend(inventory, seen, installed);
    var made := Activation(4, Kept(inventory), Omitted(inventory), merged.value.mods);
    var valid := Check(made);
    return if valid then Ok(made) else Err(Invalid);
  }
}
