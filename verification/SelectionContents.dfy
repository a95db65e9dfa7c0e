// What the document of a selection says, in the words of the library it is made from.
module SelectionContents {
  import opened Results
  import opened Sequences
  import opened Texts
  import opened Decimals
  import opened Dependencies
  import opened References
  import opened Graphs
  import opened Priorities
  import opened RegistryOrder
  import opened MixedOrder
  import opened ActivationDocument
  import opened Inventories
  import opened Selection
  import opened SelectionDocuments

  // ---- What a document is to say ----

  // The prepared files of a build, each with its own digest.
  ghost predicate ListsFiles(store: Store, hash: string, files: seq<File>) {
    && hash in store.prepared
    && |files| == |store.prepared[hash]|
    && forall i | 0 <= i < |files| ::
         files[i].path == store.prepared[hash][i].path && files[i].sha256 == store.prepared[hash][i].sha256
  }

  // What the content id of a local build stands for.
  ghost predicate NamesContents(contents: multiset<(string, string)>, files: seq<File>) {
    && |contents| == |files|
    && forall line :: line in contents <==> exists i :: 0 <= i < |files| && line == (Lower(files[i].path), files[i].sha256)
  }

  ghost predicate IsCode(store: Store, x: ExactReference) {
    exists entry :: FindEntry(store.installed, x) == Some(entry) && !entry.installation.Content?
  }

  // The selected code releases among the dependencies, in the order of these.
  ghost predicate RequiresReleases(store: Store, order: seq<Reference>, dependencies: seq<Dependency>, required: seq<string>) {
    exists pos: seq<nat> :: Increasing(pos) && |pos| == |required|
      && (forall k: nat :: k in pos <==> k < |dependencies| && SelectsCode(store, order, dependencies[k].modId))
      && forall i | 0 <= i < |pos| :: pos[i] < |dependencies| && required[i] == "registry." + Decimal(dependencies[pos[i]].modId)
  }

  ghost predicate SelectsCode(store: Store, order: seq<Reference>, modId: nat) {
    exists x :: Registry(x) in order && x.modId == modId && IsCode(store, x)
  }

  ghost predicate DescribesRelease(store: Store, order: seq<Reference>, x: ExactReference, m: ActiveMod, item: Listed) {
    exists entry :: FindEntry(store.installed, x) == Some(entry)
      && m.modId == "registry." + Decimal(x.modId)
      && m.source == FromRegistry(x.modId, x.releaseId, x.sha256)
      && m.root == "mods/registry-" + Decimal(x.modId) + "/" + x.releaseId.text
      && Enters(entry.installation, m)
      && RequiresReleases(store, order, entry.dependencies, m.required)
      && ListsFiles(store, x.sha256, m.files)
      && item == Listed(m.modId, entry.name, entry.versionLabel)
  }

  // The entry of a managed release; a Lua release has none, and a content release is not active.
  ghost predicate Enters(installation: Installation, m: ActiveMod) {
    match installation
    case Lua => m.entryAssembly == None && m.entryType == None
    case Managed(root, assembly, kind) => EntersAt(m, root, assembly, kind)
    case Content => false
  }

  ghost predicate EntersAt(m: ActiveMod, root: string, assembly: string, kind: string) {
    m.entryAssembly == Some(if root == "" then assembly else root + "/" + assembly) && m.entryType == Some(kind)
  }

  ghost predicate DescribesBuild(store: Store, x: LocalReference, m: ActiveMod, item: Listed) {
    exists source, entry ::
      && FindSource(store.locals, ModReference(x.modId, x.sha256, None)) == Some(source)
      && FindLibrary(store.entries, ModReference(x.modId, x.sha256, None)) == Some(entry)
      && m.modId == x.modId
      && m.source.FromLocal? && NamesContents(m.source.contents, m.files)
      && m.root == "mods/" + store.rootDigest(x)
      && (source.manifest.layout.LuaZip? ==> m.entryAssembly == None && m.entryType == None)
      && (source.manifest.layout.ManagedZip? ==>
           EntersAt(m, source.manifest.layout.root, source.manifest.layout.entryAssembly, source.manifest.layout.entryType))
      && |m.required| == |source.manifest.required|
      && (forall i | 0 <= i < |m.required| :: m.required[i] == source.manifest.required[i].modId)
      && ListsFiles(store, x.sha256, m.files)
      && item == Listed(x.modId, entry.name, entry.version)
  }

  ghost predicate Describes(store: Store, order: seq<Reference>, r: Reference, m: ActiveMod, item: Listed) {
    match r
    case Registry(x) => DescribesRelease(store, order, x, m, item)
    case Local(x) => DescribesBuild(store, x, m, item)
  }

  // The active mods are the code references in their order, and head the inventory.
  ghost predicate DescribesMods(store: Store, order: seq<Reference>, a: Activation) {
    exists pos :: CodePlaces(store, order, pos) && DescribesPlaces(store, order, pos, a)
  }

  ghost predicate CodePlaces(store: Store, order: seq<Reference>, pos: seq<nat>) {
    Increasing(pos) && forall k: nat :: k in pos <==> k < |order| && (order[k].Registry? ==> IsCode(store, order[k].exact))
  }

  ghost predicate DescribesPlaces(store: Store, order: seq<Reference>, pos: seq<nat>, a: Activation) {
    && |pos| == |a.mods| <= |a.listed|
    && forall i | 0 <= i < |pos| :: pos[i] < |order| && Describes(store, order, order[pos[i]], a.mods[i], a.listed[i])
  }

  // The library, and the installed code releases, as the inventory shows them.
  ghost predicate ShowsLibrary(store: Store, listed: seq<Listed>) {
    && |listed| == |store.entries|
    && forall i | 0 <= i < |listed| ::
         listed[i] == Listed(store.entries[i].reference.modId, store.entries[i].name, store.entries[i].version)
  }

  ghost predicate ShowsInstalled(store: Store, listed: seq<Listed>) {
    exists pos: seq<nat> :: Increasing(pos) && |pos| == |listed|
      && (forall k: nat :: k in pos <==> k < |store.installed| && !store.installed[k].installation.Content?)
      && forall i | 0 <= i < |pos| :: pos[i] < |store.installed| && ShowsRelease(store.installed[pos[i]], listed[i])
  }

  ghost predicate ShowsRelease(entry: RegistryEntry, item: Listed) {
    item == Listed("registry." + Decimal(entry.reference.modId), entry.name, entry.versionLabel)
  }

  // After the active mods the rest of the library, then the rest of what is installed;
  // every id once, and none is missing.
  ghost predicate FillsUp(head: seq<Listed>, library: seq<Listed>, installed: seq<Listed>, full: seq<Listed>) {
    && (exists middle :: TakesFirsts(head, library, middle) && TakesFirsts(middle, installed, full))
    && ListedOnce(full)
    && forall item | item in library || item in installed :: HasListed(full, item.modId)
  }

  // The first 256 of that are shown, and the others are counted.
  ghost predicate ShowsInventory(store: Store, a: Activation) {
    exists library, installed, full ::
      ShowsLibrary(store, library) && ShowsInstalled(store, installed) && ShowsFrom(a, library, installed, full)
  }

  ghost predicate ShowsFrom(a: Activation, library: seq<Listed>, installed: seq<Listed>, full: seq<Listed>) {
    && |a.mods| <= |full| && FillsUp(full[..|a.mods|], library, installed, full)
    && a.listed == (if |full| <= 256 then full else full[..256])
    && a.omitted == |full| - |a.listed|
  }

  // Nothing that is blocked, unprepared or refused is ever handed over.
  ghost predicate MayBeUsed(store: Store, r: Reference) {
    && r !in store.refused
    && match r
       case Registry(x) => x.sha256 in store.prepared && x.sha256 !in store.blocked
       case Local(x) => x.sha256 in store.prepared && x.sha256 !in store.blocked
  }

  // Sizes are added up file by file and mod by mod.
  lemma SizesAdd(files: seq<PreparedFile>, file: PreparedFile, sizes: seq<nat>, size: nat)
    ensures Size([]) == 0 && Size(files + [file]) == Size(files) + file.size
    ensures Sum([]) == 0 && Sum(sizes + [size]) == Sum(sizes) + size
  {
    assert (files + [file])[..|files|] == files;
    assert (sizes + [size])[..|sizes|] == sizes;
  }

  // ---- And what it says ----

  lemma {:induction false} ContentsMeaning(files: seq<File>)
    ensures NamesContents(Contents(files), files)
  {
    if files != [] {
      var n := |files| - 1;
      ContentsMeaning(files[..n]);
      forall line ensures line in Contents(files) <==> exists i :: 0 <= i < |files| && line == (Lower(files[i].path), files[i].sha256) {
        if line in Contents(files[..n]) {
          var i :| 0 <= i < n && line == (Lower(files[..n][i].path), files[..n][i].sha256);
          assert line == (Lower(files[i].path), files[i].sha256);
        }
        if i :| 0 <= i < |files| && line == (Lower(files[i].path), files[i].sha256) {
          assert i < n ==> line == (Lower(files[..n][i].path), files[..n][i].sha256);
        }
      }
    }
  }

  lemma RouteMeaning(store: Store, order: seq<Reference>, d: Dependency)
    requires OneReleasePerMod(Part(order, AsRegistry))
    ensures var route := Route(store.installed, Part(order, AsRegistry), d);
            && (route.Some? <==> SelectsCode(store, order, d.modId))
            && (route.Some? ==> route.value == "registry." + Decimal(d.modId))
  {
    var releases := Part(order, AsRegistry);
    PartMember(order, AsRegistry);
    var candidate := Candidate(store.installed, releases, d.modId);
    if candidate.Some? {
      var x := candidate.value.reference;
      var r :| r in order && AsRegistry(r) == Some(x);
      CandidateIsEntry(store.installed, releases, x);
      assert IsCode(store, x) <==> !candidate.value.installation.Content?;
    }
    if x :| Registry(x) in order && x.modId == d.modId && IsCode(store, x) {
      assert AsRegistry(Registry(x)) == Some(x);
      CandidateIsEntry(store.installed, releases, x);
    }
  }

  lemma RoutesMeaning(store: Store, order: seq<Reference>, dependencies: seq<Dependency>)
    requires OneReleasePerMod(Part(order, AsRegistry))
    ensures RequiresReleases(store, order, dependencies, Part(dependencies, Routes(store.installed, Part(order, AsRegistry))))
  {
    var routes := Routes(store.installed, Part(order, AsRegistry));
    var required, pos := Part(dependencies, routes), Positions(dependencies, routes);
    forall k: nat ensures k in pos <==> k < |dependencies| && SelectsCode(store, order, dependencies[k].modId) {
      if k < |dependencies| {
        RouteMeaning(store, order, dependencies[k]);
        assert k in Elements(pos) <==> routes(dependencies[k]).Some?;
      } else {
        assert k !in Elements(pos);
      }
    }
    forall i | 0 <= i < |pos| ensures pos[i] < |dependencies| && required[i] == "registry." + Decimal(dependencies[pos[i]].modId) {
      RouteMeaning(store, order, dependencies[pos[i]]);
      assert routes(dependencies[pos[i]]) == Some(required[i]);
    }
  }

  lemma ReleaseIsDescribed(store: Store, order: seq<Reference>, x: ExactReference)
    requires OneReleasePerMod(Part(order, AsRegistry)) && x.sha256 in store.prepared
    requires SelectedMod(store, order, Registry(x)).Some? && SelectedListing(store, Registry(x)).Some?
    ensures Describes(store, order, Registry(x), SelectedMod(store, order, Registry(x)).value, SelectedListing(store, Registry(x)).value)
  {
    var entry := FindEntry(store.installed, x).value;
    var m := SelectedMod(store, order, Registry(x)).value;
    RoutesMeaning(store, order, entry.dependencies);
    FilesAreListed(store, x.sha256);
    ReleaseEnters(store, order, x, entry);
    assert FindEntry(store.installed, x) == Some(entry) && Enters(entry.installation, m);
  }

  lemma FilesAreListed(store: Store, hash: string)
    requires hash in store.prepared
    ensures ListsFiles(store, hash, FilesOf(Prepared(store, hash)))
  {
  }

  lemma ReleaseEnters(store: Store, order: seq<Reference>, x: ExactReference, entry: RegistryEntry)
    requires FindEntry(store.installed, x) == Some(entry) && SelectedMod(store, order, Registry(x)).Some?
    ensures var m := SelectedMod(store, order, Registry(x)).value;
            && Enters(entry.installation, m) && m.files == FilesOf(Prepared(store, x.sha256))
            && m.required == Part(entry.dependencies, Routes(store.installed, Part(order, AsRegistry)))
  {
  }

  lemma BuildIsDescribed(store: Store, order: seq<Reference>, x: LocalReference)
    requires x.sha256 in store.prepared
    requires SelectedMod(store, order, Local(x)).Some? && SelectedListing(store, Local(x)).Some?
    ensures Describes(store, order, Local(x), SelectedMod(store, order, Local(x)).value, SelectedListing(store, Local(x)).value)
  {
    var source, entry := FindSource(store.locals, Stored(x)).value, FindLibrary(store.entries, Stored(x)).value;
    ContentsMeaning(SelectedMod(store, order, Local(x)).value.files);
    FilesAreListed(store, x.sha256);
    assert FindSource(store.locals, ModReference(x.modId, x.sha256, None)) == Some(source);
    assert FindLibrary(store.entries, ModReference(x.modId, x.sha256, None)) == Some(entry);
  }

  ghost predicate AllPrepared(store: Store, order: seq<Reference>) {
    forall r | r in order :: HashOf(r) in store.prepared
  }

  // Places in increasing order are given by which places they are.
  lemma {:induction false} OneIncreasing(p: seq<nat>, q: seq<nat>)
    requires Increasing(p) && Increasing(q) && forall k :: k in p <==> k in q
    ensures p == q
  {
    assert |p| > 0 ==> p[0] in q;
    assert |q| > 0 ==> q[0] in p;
    if p != [] && q != [] {
      var m, n := |p| - 1, |q| - 1;
      assert p[m] in q && q[n] in p;
      assert p[m] == q[n];
      forall k ensures k in p[..m] <==> k in q[..n] {
        assert k in p[..m] <==> k in p && k != p[m];
        assert k in q[..n] <==> k in q && k != q[n];
      }
      OneIncreasing(p[..m], q[..n]);
    }
  }

  // Lists taken from the same places are taken item by item.
  lemma SamePlaces<R, S, T>(s: seq<R>, f: R -> Option<S>, g: R -> Option<T>)
    requires forall r | r in s :: f(r).Some? <==> g(r).Some?
    ensures Positions(s, f) == Positions(s, g)
  {
    var p, q := Positions(s, f), Positions(s, g);
    forall k: nat ensures k in p <==> k in q {
      assert k in Elements(p) <==> k < |s| && f(s[k]).Some?;
      assert k in Elements(q) <==> k < |s| && g(s[k]).Some?;
    }
    OneIncreasing(p, q);
  }

  lemma CodeIsActive(store: Store, order: seq<Reference>)
    requires Settled(store, order)
    ensures CodePlaces(store, order, Positions(order, SelectedMods(store, order)))
  {
    var pos := Positions(order, SelectedMods(store, order));
    forall k: nat ensures k in pos <==> k < |order| && (order[k].Registry? ==> IsCode(store, order[k].exact)) {
      assert k in Elements(pos) <==> k < |order| && SelectedMod(store, order, order[k]).Some?;
      if k < |order| {
        assert Known(store.installed, store.locals, order[k]);
      }
    }
  }

  lemma ReferenceIsDescribed(store: Store, order: seq<Reference>, r: Reference)
    requires OneReleasePerMod(Part(order, AsRegistry)) && HashOf(r) in store.prepared
    requires SelectedMod(store, order, r).Some? && SelectedListing(store, r).Some?
    ensures Describes(store, order, r, SelectedMod(store, order, r).value, SelectedListing(store, r).value)
  {
    if r.Registry? {
      ReleaseIsDescribed(store, order, r.exact);
    } else {
      BuildIsDescribed(store, order, r.local);
    }
  }

  lemma ModIsDescribed(store: Store, order: seq<Reference>, i: nat)
    requires OneRuntimeId(order) && Listing(store, order) && AllPrepared(store, order)
    requires i < |Part(order, SelectedMods(store, order))|
    ensures var pos := Positions(order, SelectedMods(store, order));
            && |Part(order, SelectedListings(store))| == |pos|
            && Describes(store, order, order[pos[i]], Part(order, SelectedMods(store, order))[i], Part(order, SelectedListings(store))[i])
  {
    var f, g := SelectedMods(store, order), SelectedListings(store);
    SamePlaces(order, f, g);
    PartHasOneRelease(order);
    var r := order[Positions(order, f)[i]];
    assert f(r) == Some(Part(order, f)[i]) && g(r) == Some(Part(order, g)[i]);
    ReferenceIsDescribed(store, order, r);
  }

  lemma ModsHeadInventory(store: Store, order: seq<Reference>)
    requires OneRuntimeId(order) && |order| <= MAX_MODS
    ensures Part(order, SelectedListings(store)) <= Document(store, order).listed
  {
    FullMeaning(store, order);
    PartLength(order, SelectedListings(store));
    CutMeaning(FullInventory(store, order), Part(order, SelectedListings(store)));
  }

  lemma DocumentIsDescribed(store: Store, order: seq<Reference>)
    requires Settled(store, order) && InLibrary(store, Part(order, AsStored)) && AllPrepared(store, order)
    ensures DescribesMods(store, order, Document(store, order))
  {
    var a, pos := Document(store, order), Positions(order, SelectedMods(store, order));
    ListedLikeMods(store, order);
    CodeIsActive(store, order);
    ModsHeadInventory(store, order);
    SamePlaces(order, SelectedMods(store, order), SelectedListings(store));
    forall i | 0 <= i < |pos| ensures pos[i] < |order| && Describes(store, order, order[pos[i]], a.mods[i], a.listed[i]) {
      ModIsDescribed(store, order, i);
      assert a.listed[i] == Part(order, SelectedListings(store))[i];
    }
    assert DescribesPlaces(store, order, pos, a);
  }

  lemma InstalledAreShown(store: Store)
    ensures ShowsInstalled(store, InstalledListed(store))
  {
    var listed, pos := InstalledListed(store), Positions(store.installed, InstalledListing);
    forall k: nat ensures k in pos <==> k < |store.installed| && !store.installed[k].installation.Content? {
      assert k in Elements(pos) <==> k < |store.installed| && InstalledListing(store.installed[k]).Some?;
    }
    forall i | 0 <= i < |pos| ensures pos[i] < |store.installed| && ShowsRelease(store.installed[pos[i]], listed[i]) {
      assert InstalledListing(store.installed[pos[i]]) == Some(listed[i]);
    }
  }

  lemma InventoryFillsUp(store: Store, order: seq<Reference>)
    requires OneRuntimeId(order)
    ensures FillsUp(Part(order, SelectedListings(store)), LibraryListed(store), InstalledListed(store), FullInventory(store, order))
  {
    var head, full := Part(order, SelectedListings(store)), FullInventory(store, order);
    var library, installed := LibraryListed(store), InstalledListed(store);
    var middle := AppendUnseen(head, library);
    ListingOnce(store, order);
    AppendUnseenMeaning(head, library);
    AppendTakesFirsts(head, library);
    AppendTakesFirsts(middle, installed);
    FullMeaning(store, order);
    assert TakesFirsts(head, library, middle) && TakesFirsts(middle, installed, full);
    forall item | item in library || item in installed ensures HasListed(full, item.modId) {
      assert item.modId in IdsOf(library) || item.modId in IdsOf(installed);
      HasListedMeaning(full, item.modId);
    }
  }

  lemma ModsAreHeads(store: Store, order: seq<Reference>)
    requires OneRuntimeId(order) && Listing(store, order)
    ensures var a, full := Document(store, order), FullInventory(store, order);
            |a.mods| <= |full| && full[..|a.mods|] == Part(order, SelectedListings(store))
  {
    SamePlaces(order, SelectedMods(store, order), SelectedListings(store));
    FullMeaning(store, order);
  }

  lemma InventoryIsShown(store: Store, order: seq<Reference>)
    requires Settled(store, order) && InLibrary(store, Part(order, AsStored))
    ensures ShowsInventory(store, Document(store, order))
  {
    ListedLikeMods(store, order);
    ModsAreHeads(store, order);
    InstalledAreShown(store);
    InventoryFillsUp(store, order);
    assert ShowsLibrary(store, LibraryListed(store));
    assert ShowsFrom(Document(store, order), LibraryListed(store), InstalledListed(store), FullInventory(store, order));
  }
}
