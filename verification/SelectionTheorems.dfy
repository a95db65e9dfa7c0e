// Exactly when a selection becomes an activation document, and what the document
// then is to its reader.
module SelectionTheorems {
  import opened Results
  import opened References
  import opened Priorities
  import opened MixedOrder
  import opened OrderTheorems
  import opened ActivationDocument
  import opened Selection
  import opened SelectionDocuments
  import opened ActivationRequest
  import ActivationSession

  ghost predicate PayloadsValid(a: Activation) {
    forall m | m in a.mods :: ValidPayload(a.schema, m)
  }

  // A local build looks the same to the validator under either schema.
  lemma BuildPayload(m: ActiveMod)
    requires m.source.FromLocal?
    ensures ValidPayload(3, m) <==> ValidPayload(4, m)
  {
  }

  lemma BuildsAreLocal(store: Store, builds: seq<ModReference>)
    ensures forall m | m in Part(builds, StoredMods(store)) :: m.source.FromLocal?
  {
    PartMember(builds, StoredMods(store));
  }

  lemma MergedMembers(store: Store, order: seq<Reference>)
    requires Identified(store.installed, store.locals, order)
    ensures var releases, builds := Part(order, AsRegistry), Part(order, AsStored);
            forall m :: m in Part(order, SelectedMods(store, order)) <==>
              m in Part(releases, ReleaseMods(store, releases)) || m in Part(builds, StoredMods(store))
  {
    var releases, builds := Part(order, AsRegistry), Part(order, AsStored);
    PartMember(order, SelectedMods(store, order));
    forall m ensures m in Part(order, SelectedMods(store, order)) <==>
      m in Part(releases, ReleaseMods(store, releases)) || m in Part(builds, StoredMods(store))
    {
      if m in Part(order, SelectedMods(store, order)) {
        var r :| r in order && SelectedMods(store, order)(r) == Some(m);
        MadeFor(store, order, r);
      }
      if m in Part(releases, ReleaseMods(store, releases)) || m in Part(builds, StoredMods(store)) {
        MadeFrom(store, order, m);
        var r :| r in order && SelectedMod(store, order, r) == Some(m);
        assert SelectedMods(store, order)(r) == Some(m);
      }
    }
  }

  lemma PayloadsAgree(store: Store, order: seq<Reference>)
    requires Identified(store.installed, store.locals, order)
    ensures var releases, builds := Part(order, AsRegistry), Part(order, AsStored);
            PayloadsValid(Document(store, order)) <==>
              PayloadsValid(RegistryDocument(store, releases)) && PayloadsValid(LocalDocument(store, builds, builds))
  {
    var builds := Part(order, AsStored);
    MergedMembers(store, order);
    BuildsAreLocal(store, builds);
    forall m | m in Part(builds, StoredMods(store)) ensures ValidPayload(3, m) <==> ValidPayload(4, m) {
      BuildPayload(m);
    }
  }

  // What can still be refused once a selection has an order: nothing about how
  // mods, requirements, inventory and roots fit together, except that two local
  // builds must not be given the same directory.
  ghost predicate Admissible(store: Store, order: seq<Reference>) {
    var releases, builds := Part(order, AsRegistry), Part(order, AsStored);
    && !SharesKey(store)
    && ReleasesUsable(store, releases)
    && InLibrary(store, builds) && BuildsUsable(store, builds)
    && Sum(Part(order, SelectedSizes(store, order))) <= MAX_ACTIVATION_BYTES
    && NoCollision(store, order)
    && Presentable(RegistryDocument(store, releases))
    && Presentable(LocalDocument(store, builds, builds))
    && Presentable(Document(store, order))
    && PayloadsValid(Document(store, order))
  }

  lemma DocumentsAreValid(store: Store, order: seq<Reference>)
    requires Settled(store, order) && InLibrary(store, Part(order, AsStored))
    ensures var releases, builds := Part(order, AsRegistry), Part(order, AsStored);
            var r, l, d := RegistryDocument(store, releases), LocalDocument(store, builds, builds), Document(store, order);
            ValidActivation(r) && ValidActivation(l) && ValidActivation(d) <==>
              NoCollision(store, order) && Presentable(r) && Presentable(l) && Presentable(d) && PayloadsValid(d)
  {
    RegistryDocumentFits(store, order);
    LocalDocumentFits(store, order);
    DocumentFits(store, order);
    PayloadsAgree(store, order);
  }

  lemma SelectionMeaning(store: Store, references: seq<Reference>)
    ensures SelectionReady(store, references) <==>
            MixedAccepts(store.installed, store.locals, references)
            && Admissible(store, Order(references, Precede(store.installed, store.locals)))
  {
    if MixedAccepts(store.installed, store.locals, references) {
      var order := Order(references, Precede(store.installed, store.locals));
      OrderIsSettled(store, references);
      SharesAreStable(store, references);
      if InLibrary(store, Part(order, AsStored)) {
        DocumentsAreValid(store, order);
      }
    }
  }

  // Asking again with the effective order gives the same document.
  lemma RequestIsStable(store: Store, references: seq<Reference>)
    requires SelectionReady(store, references)
    ensures var order := Order(references, Precede(store.installed, store.locals));
            && SelectionReady(store, order)
            && Document(store, Order(order, Precede(store.installed, store.locals))) == Document(store, order)
  {
    MixedIsIdempotent(store.installed, store.locals, references);
  }

  // From the selection to the game: when no mod fails by itself, every selected
  // reference that carries code loads.
  lemma SelectionLoads(store: Store, references: seq<Reference>, r: Reference,
                       behaviour: string -> ActivationSession.Behaviour)
    requires SelectionReady(store, references) && r in Order(references, Precede(store.installed, store.locals))
    requires var order := Order(references, Precede(store.installed, store.locals));
             && SelectedMod(store, order, r).Some?
             && forall m | m in Document(store, order).mods :: ActivationSession.Works(m, behaviour(m.modId))
    ensures RuntimeId(r) in ActivationSession.LoadedSet(
              Document(store, Order(references, Precede(store.installed, store.locals))).mods, behaviour)
  {
    var order := Order(references, Precede(store.installed, store.locals));
    PartMember(order, SelectedMods(store, order));
    assert SelectedMods(store, order)(r) == SelectedMod(store, order, r);
    ActivationSession.AllLoad(Document(store, order).mods, behaviour);
  }
}
