// The activation document of a selection, as it should be: its active mods, their
// requirements and roots, and the bounded inventory.
module Selection {
  import opened Results
  import opened Texts
  import opened Decimals
  import opened Dependencies
  import opened References
  import opened PathTables
  import opened Priorities
  import opened Graphs
  import opened RegistryOrder
  import opened LocalOrder
  import opened MixedOrder
  import opened OrderTheorems
  import opened ActivationDocument

  const MAX_ACTIVATION_BYTES: nat := 256 * 1024 * 1024

  datatype LibraryEntry = LibraryEntry(reference: ModReference, name: string, version: string)

  datatype PreparedFile = PreparedFile(path: string, sha256: string, size: nat)

  // What the producer reads. `refused` holds the builds whose prepared files do not
  // fit their declaration, `rootDigest` names the directory of a local build.
  datatype Store = Store(
    installed: seq<RegistryEntry>, locals: seq<LocalSource>, entries: seq<LibraryEntry>,
    prepared: map<string, seq<PreparedFile>>, blocked: set<string>, refused: set<Reference>,
    rootDigest: LocalReference -> Sha256)

  // ---- Active mods ----

  function RegistryRoot(x: ExactReference): string {
    "mods/registry-" + Decimal(x.modId) + "/" + x.releaseId.text
  }

  function LocalRoot(store: Store, local: LocalReference): string {
    "mods/" + store.rootDigest(local)
  }

  function Prepared(store: Store, hash: string): seq<PreparedFile> {
    if hash in store.prepared then store.prepared[hash] else []
  }

  function FilesOf(prepared: seq<PreparedFile>): (files: seq<File>)
    ensures |files| == |prepared|
  {
    seq(|prepared|, i requires 0 <= i < |prepared| => File(prepared[i].path, prepared[i].sha256))
  }

  function Size(prepared: seq<PreparedFile>): nat {
    if prepared == [] then 0 else Size(prepared[..|prepared| - 1]) + prepared[|prepared| - 1].size
  }

  function EntryPath(root: string, assembly: string): string {
    if root == "" then assembly else root + "/" + assembly
  }

  // The installed release a dependency leads to inside the selection.
  function Candidate(installed: seq<RegistryEntry>, ordered: seq<ExactReference>, modId: nat): (r: Option<RegistryEntry>)
    ensures r.Some? ==> r.value.reference.modId == modId && r.value.reference in ordered
  {
    if installed == [] then None
    else if installed[0].reference.modId == modId && installed[0].reference in ordered then Some(installed[0])
    else Candidate(installed[1..], ordered, modId)
  }

  function Route(installed: seq<RegistryEntry>, ordered: seq<ExactReference>, d: Dependency): Option<string> {
    var candidate := Candidate(installed, ordered, d.modId);
    if candidate.None? || candidate.value.installation.Content? then None
    else Some(RegistryRuntimeId(candidate.value.reference))
  }

  function Routes(installed: seq<RegistryEntry>, ordered: seq<ExactReference>): (f: Dependency -> Option<string>)
    ensures forall d :: f(d) == Route(installed, ordered, d)
  {
    d => Route(installed, ordered, d)
  }

  function ReleaseMod(store: Store, ordered: seq<ExactReference>, x: ExactReference): (r: Option<ActiveMod>)
    ensures r.Some? ==> r.value.modId == RegistryRuntimeId(x) && r.value.root == RegistryRoot(x)
  {
    var entry := FindEntry(store.installed, x);
    if entry.None? || entry.value.installation.Content? then None
    else
      var managed := entry.value.installation.Managed?;
      Some(ActiveMod(
        RegistryRuntimeId(x), FromRegistry(x.modId, x.releaseId, x.sha256), RegistryRoot(x),
        if managed then Some(EntryPath(entry.value.installation.sourceRoot, entry.value.installation.entryAssembly)) else None,
        if managed then Some(entry.value.installation.entryType) else None,
        Part(entry.value.dependencies, Routes(store.installed, ordered)), FilesOf(Prepared(store, x.sha256))))
  }

  function ReleaseMods(store: Store, ordered: seq<ExactReference>): (f: ExactReference -> Option<ActiveMod>)
    ensures forall x :: f(x) == ReleaseMod(store, ordered, x)
  {
    x => ReleaseMod(store, ordered, x)
  }

  function BuildMod(store: Store, local: LocalReference): (r: Option<ActiveMod>)
    ensures r.Some? ==> r.value.modId == local.modId && r.value.root == LocalRoot(store, local)
  {
    var source := FindSource(store.locals, Stored(local));
    if source.None? then None
    else
      var layout := source.value.manifest.layout;
      var files := FilesOf(Prepared(store, local.sha256));
      Some(ActiveMod(
        local.modId, FromLocal(Contents(files)), LocalRoot(store, local),
        if layout.ManagedZip? then Some(EntryPath(layout.root, layout.entryAssembly)) else None,
        if layout.ManagedZip? then Some(layout.entryType) else None,
        RequiredIds(source.value.manifest), files))
  }

  function StoredMods(store: Store): (f: ModReference -> Option<ActiveMod>)
    ensures forall m :: f(m) == if ToLocal(m).None? then None else BuildMod(store, ToLocal(m).value)
  {
    m => if ToLocal(m).None? then None else BuildMod(store, ToLocal(m).value)
  }

  function SelectedMod(store: Store, order: seq<Reference>, r: Reference): (m: Option<ActiveMod>)
    ensures m.Some? ==> m.value.modId == RuntimeId(r)
  {
    match r
    case Registry(exact) => ReleaseMod(store, Part(order, AsRegistry), exact)
    case Local(local) => BuildMod(store, local)
  }

  function SelectedMods(store: Store, order: seq<Reference>): (f: Reference -> Option<ActiveMod>)
    ensures forall r :: f(r) == SelectedMod(store, order, r)
  {
    r => SelectedMod(store, order, r)
  }

  // ---- Sizes ----

  function Sum(sizes: seq<nat>): nat {
    if sizes == [] then 0 else Sum(sizes[..|sizes| - 1]) + sizes[|sizes| - 1]
  }

  // Content releases do not count.
  function ReleaseSizes(store: Store): (f: ExactReference -> Option<nat>)
    ensures forall x :: f(x) == if ReleaseMod(store, [], x).None? then None else Some(Size(Prepared(store, x.sha256)))
  {
    (x: ExactReference) => if ReleaseMod(store, [], x).None? then None else Some(Size(Prepared(store, x.sha256)))
  }

  function BuildSizes(store: Store): (f: ModReference -> Option<nat>)
    ensures forall m :: f(m) == Some(Size(Prepared(store, m.hash)))
  {
    (m: ModReference) => Some(Size(Prepared(store, m.hash)))
  }

  function SelectedSizes(store: Store, order: seq<Reference>): (f: Reference -> Option<nat>)
    ensures forall r :: f(r) == if SelectedMod(store, order, r).None? then None else Some(Size(Prepared(store, HashOf(r))))
  {
    (r: Reference) => if SelectedMod(store, order, r).None? then None else Some(Size(Prepared(store, HashOf(r))))
  }

  // ---- Effective orders ----

  // An accepted selection, listed in its effective order.
  ghost predicate Settled(store: Store, order: seq<Reference>) {
    && MixedAccepts(store.installed, store.locals, order)
    && forall i, j | 0 <= i <= j < |order| :: !Before(store.installed, store.locals, order[j], order[i])
  }

  lemma OrderIsSettled(store: Store, requested: seq<Reference>)
    requires MixedAccepts(store.installed, store.locals, requested)
    ensures Settled(store, Order(requested, Precede(store.installed, store.locals)))
  {
    MixedIsIdempotent(store.installed, store.locals, requested);
    OrderMeaning(requested, Precede(store.installed, store.locals));
  }

  // ---- Requirements come earlier ----

  // With one release per mod, the candidate is the entry of that very release.
  lemma {:induction false} CandidateIsEntry(installed: seq<RegistryEntry>, ordered: seq<ExactReference>, x: ExactReference)
    requires OneReleasePerMod(ordered) && x in ordered
    ensures Candidate(installed, ordered, x.modId) == FindEntry(installed, x)
  {
    if installed != [] {
      var first := installed[0].reference;
      if first in ordered && first.modId == x.modId {
        assert first == x;
      } else {
        CandidateIsEntry(installed[1..], ordered, x);
      }
    }
  }

  // The required mod `id` of order[i] is active and listed before it.
  ghost predicate ComesBefore(store: Store, order: seq<Reference>, i: nat, id: string) {
    exists j :: 0 <= j < i && j < |order| && RuntimeId(order[j]) == id && SelectedMod(store, order, order[j]).Some?
  }

  lemma ReleaseRequirement(store: Store, order: seq<Reference>, i: nat, d: Dependency)
    requires Settled(store, order) && i < |order| && order[i].Registry?
    requires FindEntry(store.installed, order[i].exact).Some?
    requires d in FindEntry(store.installed, order[i].exact).value.dependencies
    requires Route(store.installed, Part(order, AsRegistry), d).Some?
    ensures ComesBefore(store, order, i, Route(store.installed, Part(order, AsRegistry), d).value)
  {
    var releases := Part(order, AsRegistry);
    var x := Candidate(store.installed, releases, d.modId).value.reference;
    PartMember(order, AsRegistry);
    var r :| r in order && AsRegistry(r) == Some(x);
    var j :| 0 <= j < |order| && order[j] == r;
    CandidateIsEntry(store.installed, releases, x);
    assert ReleaseBefore(store.installed, x, order[i].exact);
    assert Before(store.installed, store.locals, order[j], order[i]);
  }

  lemma BuildRequirement(store: Store, order: seq<Reference>, i: nat, m: ModReference)
    requires Settled(store, order) && i < |order| && order[i].Local?
    requires FindSource(store.locals, Stored(order[i].local)).Some?
    requires m in FindSource(store.locals, Stored(order[i].local)).value.manifest.required
    ensures ComesBefore(store, order, i, m.modId)
  {
    assert LocalSatisfied(store.locals, order, order[i]);
    var exact := ExactLocal(m).value;
    assert exact in order;
    var j :| 0 <= j < |order| && order[j] == exact;
    assert Known(store.installed, store.locals, exact);
    ToLocalIsStored(m, exact.local);
    assert BuildBefore(store.locals, Stored(exact.local), Stored(order[i].local));
    assert Before(store.installed, store.locals, order[j], order[i]);
  }

  lemma RequiredComeBefore(store: Store, order: seq<Reference>, i: nat, id: string)
    requires Settled(store, order) && i < |order| && SelectedMod(store, order, order[i]).Some?
    requires id in SelectedMod(store, order, order[i]).value.required
    ensures ComesBefore(store, order, i, id)
  {
    match order[i] {
      case Registry(x) =>
        var dependencies := FindEntry(store.installed, x).value.dependencies;
        PartMember(dependencies, Routes(store.installed, Part(order, AsRegistry)));
        var d :| d in dependencies && Route(store.installed, Part(order, AsRegistry), d) == Some(id);
        ReleaseRequirement(store, order, i, d);
      case Local(local) =>
        var manifest := FindSource(store.locals, Stored(local)).value.manifest;
        var k :| 0 <= k < |RequiredIds(manifest)| && RequiredIds(manifest)[k] == id;
        BuildRequirement(store, order, i, manifest.required[k]);
    }
  }

  // ---- Requirements are listed once ----

  lemma RoutesAreDistinct(installed: seq<RegistryEntry>, ordered: seq<ExactReference>, dependencies: seq<Dependency>)
    requires OncePerMod(dependencies)
    ensures DistinctStrings(Part(dependencies, Routes(installed, ordered)))
  {
    var routes := Routes(installed, ordered);
    var part, pos := Part(dependencies, routes), Positions(dependencies, routes);
    forall i, j | 0 <= i < j < |part| ensures part[i] != part[j] {
      var d, e := dependencies[pos[i]], dependencies[pos[j]];
      assert pos[i] < pos[j];
      if part[i] == part[j] {
        RuntimeIdInjective(Candidate(installed, ordered, d.modId).value.reference, Candidate(installed, ordered, e.modId).value.reference);
      }
    }
  }

  lemma RequiredAreDistinct(store: Store, order: seq<Reference>, r: Reference)
    requires Settled(store, order) && r in order && SelectedMod(store, order, r).Some?
    ensures var m := SelectedMod(store, order, r).value;
            DistinctStrings(m.required) && |m.required| <= MAX_REQUIRED
  {
    assert Known(store.installed, store.locals, r);
    if r.Registry? {
      var releases := Part(order, AsRegistry);
      PartMember(order, AsRegistry);
      assert AsRegistry(r) == Some(r.exact);
      assert Described(store.installed, r.exact);
      var dependencies := FindEntry(store.installed, r.exact).value.dependencies;
      RoutesAreDistinct(store.installed, releases, dependencies);
      PartLength(dependencies, Routes(store.installed, releases));
    }
  }

  // ---- From places in the order to places in the document ----

  lemma EarlierInPart<R, S>(s: seq<R>, part: R -> Option<S>, k: nat, j: nat)
    requires k < |Part(s, part)| && j < Positions(s, part)[k] && part(s[j]).Some?
    ensures exists m :: 0 <= m < k && Part(s, part)[m] == part(s[j]).value
  {
    var pos := Positions(s, part);
    assert j in Elements(pos);
    var m :| 0 <= m < |pos| && pos[m] == j;
  }

  lemma ModsInOrder(store: Store, order: seq<Reference>, k: nat)
    requires Settled(store, order) && k < |Part(order, SelectedMods(store, order))|
    ensures InOrder(Part(order, SelectedMods(store, order)), k)
  {
    var f := SelectedMods(store, order);
    var mods, pos := Part(order, f), Positions(order, f);
    var r := order[pos[k]];
    assert f(r) == Some(mods[k]);
    forall j | 0 <= j < k ensures mods[j].modId != mods[k].modId {
      assert f(order[pos[j]]) == Some(mods[j]) && pos[j] < pos[k];
    }
    RequiredAreDistinct(store, order, r);
    forall id | id in mods[k].required ensures Earlier(mods, k, id) {
      RequiredComeBefore(store, order, pos[k], id);
      var j :| 0 <= j < pos[k] && RuntimeId(order[j]) == id && SelectedMod(store, order, order[j]).Some?;
      EarlierInPart(order, f, k, j);
    }
  }

  // ---- Roots ----

  lemma SameNumber(front: string, d: string, e: string, x: string, y: string)
    requires AllDigits(d) && AllDigits(e) && front + d + "/" + x <= front + e + "/" + y
    ensures d == e
  {
    var a, b := d + "/" + x, e + "/" + y;
    assert (front + d + "/" + x)[|front|..] == a && (front + e + "/" + y)[|front|..] == b;
    SplitOnceMeaning(b, '/', Cut(e, Some(y)));
    SplitOnceMeaning(b, '/', Cut(d, Some(x + b[|a|..])));
  }

  lemma NumberedApart(front: string, d: string, e: string, x: string, y: string)
    requires AllDigits(d) && AllDigits(e) && d != e
    ensures !Overlaps(front + d + "/" + x, front + e + "/" + y)
  {
    var a, b := front + d + "/" + x, front + e + "/" + y;
    assert a <= b ==> d == e by { if a <= b { SameNumber(front, d, e, x, y); } }
    assert b <= a ==> d == e by { if b <= a { SameNumber(front, e, d, y, x); } }
  }

  lemma ReleaseRootsApart(x: ExactReference, y: ExactReference)
    requires x.modId != y.modId
    ensures !Overlaps(Lower(RegistryRoot(x)), Lower(RegistryRoot(y)))
  {
    var front := "mods/registry-";
    if Decimal(x.modId) == Decimal(y.modId) {
      DecimalInjective(x.modId, y.modId);
    }
    NumberedApart(front, Decimal(x.modId), Decimal(y.modId), Lower(x.releaseId.text), Lower(y.releaseId.text));
    LowerRoot(x);
    LowerRoot(y);
  }

  lemma LowerRoot(x: ExactReference)
    ensures Lower(RegistryRoot(x)) == "mods/registry-" + Decimal(x.modId) + "/" + Lower(x.releaseId.text)
  {
    var front := "mods/registry-" + Decimal(x.modId) + "/";
    LowerAppend(front, x.releaseId.text);
    assert forall i | 0 <= i < |front| :: LowerChar(front[i]) == front[i];
    assert Lower(front) == front;
  }

  lemma LowerDigest(h: Sha256)
    ensures Lower("mods/" + h) == "mods/" + h
  {
    var root := "mods/" + h;
    assert forall i | 5 <= i < |root| :: root[i] == h[i - 5];
  }

  lemma KindsApart(x: ExactReference, h: Sha256)
    ensures !Overlaps(Lower(RegistryRoot(x)), Lower("mods/" + h))
    ensures !Overlaps(Lower("mods/" + h), Lower(RegistryRoot(x)))
  {
    LowerRoot(x);
    LowerDigest(h);
    var a, b := Lower(RegistryRoot(x)), Lower("mods/" + h);
    assert a[5] == 'r' && b[5] == h[0] && HexDigit(h[0]);
    assert |a| > 5 && |b| > 5;
  }

  lemma DigestsApart(h: Sha256, k: Sha256)
    ensures Overlaps(Lower("mods/" + h), Lower("mods/" + k)) <==> h == k
  {
    LowerDigest(h);
    LowerDigest(k);
    assert ("mods/" + h)[5..] == h && ("mods/" + k)[5..] == k;
  }

  // The directories of the selected local builds are different.
  ghost predicate NoCollision(store: Store, order: seq<Reference>) {
    forall i, j | 0 <= i < j < |order| && order[i].Local? && order[j].Local? ::
      store.rootDigest(order[i].local) != store.rootDigest(order[j].local)
  }

  ghost predicate NoCollisionAmong(store: Store, order: seq<Reference>) {
    forall r, s | r in order && s in order && r.Local? && s.Local? && r != s ::
      store.rootDigest(r.local) != store.rootDigest(s.local)
  }

  lemma CollisionByMembers(store: Store, order: seq<Reference>)
    requires OneRuntimeId(order)
    ensures NoCollision(store, order) <==> NoCollisionAmong(store, order)
  {
    if NoCollision(store, order) {
      forall r, s | r in order && s in order && r.Local? && s.Local? && r != s
        ensures store.rootDigest(r.local) != store.rootDigest(s.local)
      {
        var i :| 0 <= i < |order| && order[i] == r;
        var j :| 0 <= j < |order| && order[j] == s;
      }
    }
  }

  lemma RootsOfTwo(store: Store, order: seq<Reference>, r: Reference, s: Reference)
    requires SelectedMod(store, order, r).Some? && SelectedMod(store, order, s).Some? && RuntimeId(r) != RuntimeId(s)
    ensures Overlaps(Lower(SelectedMod(store, order, s).value.root), Lower(SelectedMod(store, order, r).value.root)) <==>
            r.Local? && s.Local? && store.rootDigest(r.local) == store.rootDigest(s.local)
  {
    match (r, s) {
      case (Registry(x), Registry(y)) => ReleaseRootsApart(y, x);
      case (Registry(x), Local(l)) => KindsApart(x, store.rootDigest(l));
      case (Local(l), Registry(x)) => KindsApart(x, store.rootDigest(l));
      case (Local(l), Local(m)) => DigestsApart(store.rootDigest(m), store.rootDigest(l));
    }
  }

  lemma DistinctRootsApart(store: Store, order: seq<Reference>)
    requires Settled(store, order) && NoCollision(store, order)
    ensures Apart(Roots(Part(order, SelectedMods(store, order))))
  {
    var f := SelectedMods(store, order);
    var mods, pos := Part(order, f), Positions(order, f);
    forall i, j | 0 <= i < j < |mods| ensures !Overlaps(Roots(mods)[j], Roots(mods)[i]) {
      assert f(order[pos[i]]) == Some(mods[i]) && f(order[pos[j]]) == Some(mods[j]) && pos[i] < pos[j];
      RootsOfTwo(store, order, order[pos[i]], order[pos[j]]);
    }
  }

  // Roots overlap only when two local builds are given the same directory.
  lemma RootsAreApart(store: Store, order: seq<Reference>)
    requires Settled(store, order)
    ensures Apart(Roots(Part(order, SelectedMods(store, order)))) <==> NoCollision(store, order)
  {
    if NoCollision(store, order) {
      DistinctRootsApart(store, order);
    }
    if Apart(Roots(Part(order, SelectedMods(store, order)))) {
      forall i, j | 0 <= i < j < |order| && order[i].Local? && order[j].Local?
        ensures store.rootDigest(order[i].local) != store.rootDigest(order[j].local)
      {
        ApartDigests(store, order, i, j);
      }
    }
  }

  lemma ApartDigests(store: Store, order: seq<Reference>, i: nat, j: nat)
    requires Settled(store, order) && i < j < |order| && order[i].Local? && order[j].Local?
    requires Apart(Roots(Part(order, SelectedMods(store, order))))
    ensures store.rootDigest(order[i].local) != store.rootDigest(order[j].local)
  {
    var a := LocalsAreActive(store, order, i);
    var b := LocalsAreActive(store, order, j);
    PositionsClimb(order, SelectedMods(store, order), a, b);
    RootsOfTwo(store, order, order[i], order[j]);
    assert !Overlaps(Roots(Part(order, SelectedMods(store, order)))[b], Roots(Part(order, SelectedMods(store, order)))[a]);
  }

  lemma PositionsClimb<S>(order: seq<Reference>, part: Reference -> Option<S>, a: nat, b: nat)
    requires a < |Positions(order, part)| && b < |Positions(order, part)| && Positions(order, part)[a] < Positions(order, part)[b]
    ensures a < b
  {
  }

  // The local build at i is the a-th active mod.
  lemma LocalsAreActive(store: Store, order: seq<Reference>, i: nat) returns (a: nat)
    requires Settled(store, order) && i < |order| && order[i].Local?
    ensures SelectedMod(store, order, order[i]).Some? && a < |Positions(order, SelectedMods(store, order))|
    ensures Positions(order, SelectedMods(store, order))[a] == i
    ensures Roots(Part(order, SelectedMods(store, order)))[a] == Lower(SelectedMod(store, order, order[i]).value.root)
  {
    var pos := Positions(order, SelectedMods(store, order));
    assert Known(store.installed, store.locals, order[i]);
    assert i in Elements(pos);
    a :| 0 <= a < |pos| && pos[a] == i;
  }
}
