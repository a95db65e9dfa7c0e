// The three documents made for one selection, and why the validator never objects
// to how their parts fit together.
module SelectionDocuments {
  import opened Results
  import opened References
  import opened Graphs
  import opened Priorities
  import opened RegistryOrder
  import opened MixedOrder
  import opened ActivationDocument
  import opened Inventories
  import opened Selection

  // ---- Inventory entries ----

  function ReleaseListing(store: Store, x: ExactReference): Option<Listed> {
    var entry := FindEntry(store.installed, x);
    if entry.None? || entry.value.installation.Content? then None
    else Some(Listed(RegistryRuntimeId(x), entry.value.name, entry.value.versionLabel))
  }

  function ReleaseListings(store: Store): (f: ExactReference -> Option<Listed>)
    ensures forall x :: f(x) == ReleaseListing(store, x)
  {
    x => ReleaseListing(store, x)
  }

  function FindLibrary(entries: seq<LibraryEntry>, m: ModReference): (r: Option<LibraryEntry>)
    ensures r.Some? ==> r.value in entries && r.value.reference == m
    ensures r.None? ==> forall e | e in entries :: e.reference != m
  {
    if entries == [] then None
    else if entries[0].reference == m then Some(entries[0])
    else FindLibrary(entries[1..], m)
  }

  function LibraryListing(entry: LibraryEntry): Listed {
    Listed(entry.reference.modId, entry.name, entry.version)
  }

  function BuildListing(store: Store, m: ModReference): Option<Listed> {
    var entry := FindLibrary(store.entries, m);
    if entry.None? then None else Some(LibraryListing(entry.value))
  }

  function BuildListings(store: Store): (f: ModReference -> Option<Listed>)
    ensures forall m :: f(m) == BuildListing(store, m)
  {
    m => BuildListing(store, m)
  }

  function SelectedListing(store: Store, r: Reference): (item: Option<Listed>)
    ensures item.Some? ==> item.value.modId == RuntimeId(r)
  {
    match r
    case Registry(exact) => ReleaseListing(store, exact)
    case Local(local) => BuildListing(store, Stored(local))
  }

  function SelectedListings(store: Store): (f: Reference -> Option<Listed>)
    ensures forall r :: f(r) == SelectedListing(store, r)
  {
    r => SelectedListing(store, r)
  }

  function LibraryListed(store: Store): (listed: seq<Listed>)
    ensures |listed| == |store.entries|
  {
    seq(|store.entries|, i requires 0 <= i < |store.entries| => LibraryListing(store.entries[i]))
  }

  // Everything installed that is not content.
  function InstalledListing(entry: RegistryEntry): Option<Listed> {
    if entry.installation.Content? then None
    else Some(Listed(RegistryRuntimeId(entry.reference), entry.name, entry.versionLabel))
  }

  function InstalledListed(store: Store): seq<Listed> {
    Part(store.installed, InstalledListing)
  }

  // ---- The documents ----

  function RegistryDocument(store: Store, ordered: seq<ExactReference>): Activation {
    Activation(4, Part(ordered, ReleaseListings(store)), 0, Part(ordered, ReleaseMods(store, ordered)))
  }

  function LocalInventory(store: Store, enabled: seq<ModReference>): seq<Listed> {
    AppendUnseen([], Part(enabled, BuildListings(store)) + LibraryListed(store))
  }

  function LocalDocument(store: Store, enabled: seq<ModReference>, ordered: seq<ModReference>): Activation {
    var full := LocalInventory(store, enabled);
    Activation(3, Kept(full), Omitted(full), Part(ordered, StoredMods(store)))
  }

  function FullInventory(store: Store, order: seq<Reference>): seq<Listed> {
    AppendUnseen(AppendUnseen(Part(order, SelectedListings(store)), LibraryListed(store)), InstalledListed(store))
  }

  function Document(store: Store, order: seq<Reference>): Activation {
    var full := FullInventory(store, order);
    Activation(4, Kept(full), Omitted(full), Part(order, SelectedMods(store, order)))
  }

  // Every selected local build is in the library.
  ghost predicate InLibrary(store: Store, enabled: seq<ModReference>) {
    forall m | m in enabled :: FindLibrary(store.entries, m).Some?
  }

  // ---- Lists of the same items ----

  lemma {:induction false} PartOfPart<R, S, T>(s: seq<R>, p: R -> Option<S>, q: S -> Option<T>, pq: R -> Option<T>)
    requires forall r | r in s :: pq(r) == if p(r).None? then None else q(p(r).value)
    ensures Part(Part(s, p), q) == Part(s, pq)
  {
    if s != [] {
      var n := |s| - 1;
      assert s[n] in s;
      assert forall r | r in s[..n] :: r in s;
      PartOfPart(s[..n], p, q, pq);
      if p(s[n]).Some? {
        assert Part(s, p)[..|Part(s, p)| - 1] == Part(s[..n], p);
      }
    }
  }

  // Two lists taken from the same places, item by item.
  lemma {:induction false} PartsAlign<R, S, T>(s: seq<R>, p: R -> Option<S>, q: R -> Option<T>, k: nat)
    requires forall r | r in s :: p(r).Some? <==> q(r).Some?
    requires k < |Part(s, p)|
    ensures |Part(s, p)| == |Part(s, q)|
    ensures exists r :: r in s && p(r) == Some(Part(s, p)[k]) && q(r) == Some(Part(s, q)[k])
  {
    if s != [] {
      var n := |s| - 1;
      assert s[n] in s;
      assert forall r | r in s[..n] :: r in s;
      if k < |Part(s[..n], p)| {
        PartsAlign(s[..n], p, q, k);
        assert Part(s[..n], q) <= Part(s, q);
      } else if |Part(s[..n], p)| > 0 {
        PartsAlign(s[..n], p, q, 0);
      } else {
        PartsEmpty(s[..n], p, q);
      }
    }
  }

  lemma {:induction false} PartsEmpty<R, S, T>(s: seq<R>, p: R -> Option<S>, q: R -> Option<T>)
    requires forall r | r in s :: p(r).Some? <==> q(r).Some?
    requires Part(s, p) == []
    ensures Part(s, q) == []
  {
    if s != [] {
      assert s[|s| - 1] in s;
      assert forall r | r in s[..|s| - 1] :: r in s;
      PartsEmpty(s[..|s| - 1], p, q);
    }
  }

  // ---- Listed mods ----

  ghost predicate Listing(store: Store, order: seq<Reference>) {
    forall r | r in order :: SelectedMod(store, order, r).Some? <==> SelectedListing(store, r).Some?
  }

  lemma ListedLikeMods(store: Store, order: seq<Reference>)
    requires Settled(store, order) && InLibrary(store, Part(order, AsStored))
    ensures Listing(store, order)
  {
    forall r | r in order ensures SelectedMod(store, order, r).Some? <==> SelectedListing(store, r).Some? {
      assert Known(store.installed, store.locals, r);
      PartMember(order, AsStored);
      assert r.Local? ==> AsStored(r) == Some(Stored(r.local));
    }
  }

  lemma ListingMeaning(store: Store, order: seq<Reference>, k: nat)
    requires Listing(store, order) && k < |Part(order, SelectedMods(store, order))|
    ensures var mods, listed := Part(order, SelectedMods(store, order)), Part(order, SelectedListings(store));
            |listed| == |mods| && listed[k].modId == mods[k].modId
  {
    PartsAlign(order, SelectedMods(store, order), SelectedListings(store), k);
  }

  lemma ListingOnce(store: Store, order: seq<Reference>)
    requires OneRuntimeId(order)
    ensures ListedOnce(Part(order, SelectedListings(store)))
  {
    var f := SelectedListings(store);
    var listed, pos := Part(order, f), Positions(order, f);
    forall i, j | 0 <= i < j < |listed| ensures listed[i].modId != listed[j].modId {
      assert f(order[pos[i]]) == Some(listed[i]) && f(order[pos[j]]) == Some(listed[j]) && pos[i] < pos[j];
    }
  }

  // The mods of any effective order fit together, whatever inventory starts with
  // their entries.
  lemma ModsFit(store: Store, order: seq<Reference>, full: seq<Listed>, schema: nat)
    requires Settled(store, order) && Listing(store, order)
    requires ListedOnce(full) && Part(order, SelectedListings(store)) <= full
    ensures Orderly(Activation(schema, Kept(full), Omitted(full), Part(order, SelectedMods(store, order))))
            <==> NoCollision(store, order)
  {
    var mods, listed := Part(order, SelectedMods(store, order)), Part(order, SelectedListings(store));
    PartLength(order, SelectedMods(store, order));
    PartLength(order, SelectedListings(store));
    CutMeaning(full, listed);
    forall k | 0 <= k < |mods| ensures InOrder(mods, k) && HasListed(Kept(full), mods[k].modId) {
      ModsInOrder(store, order, k);
      ListingMeaning(store, order, k);
      assert Kept(full)[k] == listed[k];
    }
    RootsAreApart(store, order);
  }

  // ---- The merged document ----

  lemma FullMeaning(store: Store, order: seq<Reference>)
    requires OneRuntimeId(order)
    ensures var full, listed := FullInventory(store, order), Part(order, SelectedListings(store));
            && listed <= full && ListedOnce(full)
            && IdsOf(full) == IdsOf(listed) + IdsOf(LibraryListed(store)) + IdsOf(InstalledListed(store))
  {
    var listed := Part(order, SelectedListings(store));
    ListingOnce(store, order);
    AppendUnseenMeaning(listed, LibraryListed(store));
    AppendUnseenMeaning(AppendUnseen(listed, LibraryListed(store)), InstalledListed(store));
  }

  lemma DocumentFits(store: Store, order: seq<Reference>)
    requires Settled(store, order) && InLibrary(store, Part(order, AsStored))
    ensures Orderly(Document(store, order)) <==> NoCollision(store, order)
  {
    ListedLikeMods(store, order);
    FullMeaning(store, order);
    ModsFit(store, order, FullInventory(store, order), 4);
  }

  // Everything active, in the library or installed as code is listed or counted.
  lemma DocumentListsAll(store: Store, order: seq<Reference>)
    requires OneRuntimeId(order)
    ensures var a := Document(store, order);
            |a.listed| + a.omitted
            == |IdsOf(Part(order, SelectedListings(store))) + IdsOf(LibraryListed(store)) + IdsOf(InstalledListed(store))|
  {
    FullMeaning(store, order);
    CountIds(FullInventory(store, order));
  }

  lemma {:induction false} CountIds(listed: seq<Listed>)
    requires ListedOnce(listed)
    ensures |IdsOf(listed)| == |listed|
  {
    if listed == [] {
      assert IdsOf(listed) == {};
    } else {
      var n := |listed| - 1;
      CountIds(listed[..n]);
      IdsAppend(listed[..n], listed[n]);
      assert listed == listed[..n] + [listed[n]];
      HasListedMeaning(listed[..n], listed[n].modId);
    }
  }

  // ---- The registry and the local document ----

  function Only(releases: bool): (f: Reference -> Option<Reference>)
    ensures forall r :: f(r) == if r.Registry? == releases then Some(r) else None
  {
    (r: Reference) => if r.Registry? == releases then Some(r) else None
  }

  lemma SubIsIdentified(store: Store, order: seq<Reference>, releases: bool)
    requires Identified(store.installed, store.locals, order)
    ensures var sub, pos := Part(order, Only(releases)), Positions(order, Only(releases));
            && Identified(store.installed, store.locals, sub)
            && forall k | 0 <= k < |sub| :: sub[k] == order[pos[k]]
  {
    var sub, pos := Part(order, Only(releases)), Positions(order, Only(releases));
    forall k | 0 <= k < |sub| ensures sub[k] == order[pos[k]] {
      assert Only(releases)(order[pos[k]]) == Some(sub[k]);
    }
    forall i, j | 0 <= i < j < |sub| ensures RuntimeId(sub[i]) != RuntimeId(sub[j]) {
      assert pos[i] < pos[j];
    }
  }

  // One kind of an effective order, by itself, is in order.
  lemma SubIsInOrder(store: Store, order: seq<Reference>, releases: bool)
    requires Settled(store, order)
    ensures var sub := Part(order, Only(releases));
            && Identified(store.installed, store.locals, sub) && |sub| <= MAX_MODS
            && Orderable(sub, Precede(store.installed, store.locals))
            && forall i, j | 0 <= i <= j < |sub| :: !Before(store.installed, store.locals, sub[j], sub[i])
  {
    var precede := Precede(store.installed, store.locals);
    assert Splits(order, precede, Only(releases), precede);
    SubIsIdentified(store, order, releases);
    PartIsOrderable(order, precede, Only(releases), precede);
    PartLength(order, Only(releases));
    var sub, pos := Part(order, Only(releases)), Positions(order, Only(releases));
    forall i, j | 0 <= i <= j < |sub| ensures !Before(store.installed, store.locals, sub[j], sub[i]) {
      assert i == j || pos[i] < pos[j];
    }
  }

  lemma {:induction false} NoReleases(store: Store, order: seq<Reference>)
    requires forall r | r in order :: r.Local?
    ensures Part(order, AsRegistry) == [] && RegistryAccepts(store.installed, [])
  {
    if order != [] {
      assert order[|order| - 1] in order;
      assert forall r | r in order[..|order| - 1] :: r in order;
      NoReleases(store, order[..|order| - 1]);
    } else {
      NothingIsOrderable(ReleasesPrecede(store.installed));
    }
  }

  lemma NothingIsOrderable<R>(precedes: (R, R) -> bool)
    ensures Orderable([], precedes)
  {
    var edges := EdgesOf([], precedes);
    forall w: seq<nat> ensures !IsClosedWalk(edges, w) {
      if |w| >= 2 {
        assert !HasEdge(edges, w[0], w[1]);
      }
    }
  }

  lemma BuildsStaySatisfied(store: Store, order: seq<Reference>, r: Reference)
    requires Settled(store, order) && r in order && r.Local?
    ensures LocalSatisfied(store.locals, Part(order, Only(false)), r)
  {
    assert LocalSatisfied(store.locals, order, r);
    PartMember(order, Only(false));
    var sub := Part(order, Only(false));
    forall m | m in FindSource(store.locals, Stored(r.local)).value.manifest.required
      ensures ExactLocal(m).Some? && ExactLocal(m).value in sub
    {
      assert Only(false)(ExactLocal(m).value) == Some(ExactLocal(m).value);
    }
  }

  // Each kind of an effective order is an accepted selection of its own.
  lemma SubIsSettled(store: Store, order: seq<Reference>, releases: bool)
    requires Settled(store, order)
    ensures Settled(store, Part(order, Only(releases)))
  {
    var sub := Part(order, Only(releases));
    SubIsInOrder(store, order, releases);
    PartMember(order, Only(releases));
    if releases {
      PartOfPart(order, Only(true), AsRegistry, AsRegistry);
    } else {
      NoReleases(store, sub);
      forall r | r in sub ensures LocalSatisfied(store.locals, sub, r) {
        BuildsStaySatisfied(store, order, r);
      }
    }
  }

  lemma ReleasesAreSelected(store: Store, sub: seq<Reference>)
    requires forall r | r in sub :: r.Registry?
    ensures var releases := Part(sub, AsRegistry);
            && Part(releases, ReleaseMods(store, releases)) == Part(sub, SelectedMods(store, sub))
            && Part(releases, ReleaseListings(store)) == Part(sub, SelectedListings(store))
  {
    var releases := Part(sub, AsRegistry);
    PartOfPart(sub, AsRegistry, ReleaseMods(store, releases), SelectedMods(store, sub));
    PartOfPart(sub, AsRegistry, ReleaseListings(store), SelectedListings(store));
  }

  lemma ReleasesFit(store: Store, sub: seq<Reference>)
    requires Settled(store, sub) && forall r | r in sub :: r.Registry?
    ensures Orderly(Activation(4, Part(sub, SelectedListings(store)), 0, Part(sub, SelectedMods(store, sub))))
  {
    ListingOnce(store, sub);
    PartLength(sub, SelectedListings(store));
    ModsFit(store, sub, Part(sub, SelectedListings(store)), 4);
  }

  lemma RegistryDocumentFits(store: Store, order: seq<Reference>)
    requires Settled(store, order)
    ensures Orderly(RegistryDocument(store, Part(order, AsRegistry)))
  {
    var sub := Part(order, Only(true));
    SubIsSettled(store, order, true);
    PartMember(order, Only(true));
    PartOfPart(order, Only(true), AsRegistry, AsRegistry);
    ReleasesAreSelected(store, sub);
    ReleasesFit(store, sub);
  }

  lemma LocalDocumentFits(store: Store, order: seq<Reference>)
    requires Settled(store, order) && InLibrary(store, Part(order, AsStored))
    ensures Orderly(LocalDocument(store, Part(order, AsStored), Part(order, AsStored))) <==> NoCollision(store, order)
  {
    var sub, builds := Part(order, Only(false)), Part(order, AsStored);
    SubIsSettled(store, order, false);
    PartMember(order, Only(false));
    PartOfPart(order, Only(false), AsStored, AsStored);
    StoredModsAreSelected(store, sub);
    PartOfPart(sub, AsStored, BuildListings(store), SelectedListings(store));
    ListedLikeMods(store, sub);
    ListingOnce(store, sub);
    var listed := Part(sub, SelectedListings(store));
    LocalInventoryMeaning(store, builds);
    ModsFit(store, sub, LocalInventory(store, builds), 3);
    BuildsCollide(store, order);
  }

  lemma StoredModsAreSelected(store: Store, sub: seq<Reference>)
    requires Settled(store, sub) && forall r | r in sub :: r.Local?
    ensures Part(Part(sub, AsStored), StoredMods(store)) == Part(sub, SelectedMods(store, sub))
  {
    forall r | r in sub ensures StoredMods(store)(Stored(r.local)) == SelectedMod(store, sub, r) {
      assert Known(store.installed, store.locals, r);
      ToLocalIsStored(Stored(r.local), r.local);
    }
    PartOfPart(sub, AsStored, StoredMods(store), SelectedMods(store, sub));
  }

  lemma LocalInventoryMeaning(store: Store, enabled: seq<ModReference>)
    requires ListedOnce(Part(enabled, BuildListings(store)))
    ensures var full := LocalInventory(store, enabled);
            Part(enabled, BuildListings(store)) <= full && ListedOnce(full)
  {
    var listed := Part(enabled, BuildListings(store));
    AppendInTurn([], listed, LibraryListed(store));
    AppendDistinct(listed);
    AppendUnseenMeaning(listed, LibraryListed(store));
  }

  lemma BuildsCollide(store: Store, order: seq<Reference>)
    requires OneRuntimeId(order) && OneRuntimeId(Part(order, Only(false)))
    ensures NoCollision(store, Part(order, Only(false))) <==> NoCollision(store, order)
  {
    PartMember(order, Only(false));
    CollisionByMembers(store, order);
    CollisionByMembers(store, Part(order, Only(false)));
    assert forall r :: r in Part(order, Only(false)) <==> r in order && r.Local?;
  }
}
