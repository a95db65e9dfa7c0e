// What the mixed resolver guarantees across calls.
module OrderTheorems {
  import opened Results
  import opened References
  import opened Priorities
  import opened RegistryOrder
  import opened LocalOrder
  import opened MixedOrder

  // ---- Projection ----

  // Restricted to registry releases, the mixed effective order is what the
  // registry resolver gives for those releases alone.
  lemma MixedProjectsToRegistry(installed: seq<RegistryEntry>, locals: seq<LocalSource>, requested: seq<Reference>)
    requires MixedAccepts(installed, locals, requested)
    ensures RegistryAccepts(installed, Part(requested, AsRegistry))
    ensures Part(Order(requested, Precede(installed, locals)), AsRegistry)
         == Order(Part(requested, AsRegistry), ReleasesPrecede(installed))
  {
    assert Splits(requested, Precede(installed, locals), AsRegistry, ReleasesPrecede(installed));
    OrderProjects(requested, Precede(installed, locals), AsRegistry, ReleasesPrecede(installed));
  }

  lemma StoredDistinct(requested: seq<Reference>)
    requires OneRuntimeId(requested)
    ensures OneBuildPerMod(Part(requested, AsStored))
  {
    var part, pos := Part(requested, AsStored), Positions(requested, AsStored);
    forall i, j | 0 <= i < j < |part| ensures part[i].modId != part[j].modId {
      assert AsStored(requested[pos[i]]) == Some(part[i]) && AsStored(requested[pos[j]]) == Some(part[j]);
    }
  }

  lemma StoredRequirementsMet(installed: seq<RegistryEntry>, locals: seq<LocalSource>, requested: seq<Reference>, r: Reference)
    requires Identified(installed, locals, requested) && r in requested && r.Local? && LocalSatisfied(locals, requested, r)
    ensures BuildKnown(locals, Stored(r.local))
    ensures BuildRequirementsMet(locals, Part(requested, AsStored), Stored(r.local))
  {
    ToLocalIsStored(Stored(r.local), r.local);
    var required := FindSource(locals, Stored(r.local)).value.manifest.required;
    forall m | m in required ensures m in Part(requested, AsStored) {
      var exact := ExactLocal(m).value;
      assert exact in requested;
      ToLocalIsStored(m, exact.local);
      assert AsStored(exact) == Some(m);
      PartMember(requested, AsStored);
    }
  }

  // Restricted to local builds, it is what the local resolver gives for those alone.
  lemma MixedProjectsToLocals(installed: seq<RegistryEntry>, locals: seq<LocalSource>, requested: seq<Reference>)
    requires MixedAccepts(installed, locals, requested)
    ensures LocalsAccept(locals, Part(requested, AsStored))
    ensures Part(Order(requested, Precede(installed, locals)), AsStored)
         == Order(Part(requested, AsStored), BuildsPrecede(locals))
  {
    var part := Part(requested, AsStored);
    assert Splits(requested, Precede(installed, locals), AsStored, BuildsPrecede(locals));
    OrderProjects(requested, Precede(installed, locals), AsStored, BuildsPrecede(locals));
    PartIsOrderable(requested, Precede(installed, locals), AsStored, BuildsPrecede(locals));
    PartLength(requested, AsStored);
    StoredDistinct(requested);
    PartMember(requested, AsStored);
    forall m | m in part ensures BuildKnown(locals, m) && BuildRequirementsMet(locals, part, m) {
      var r :| r in requested && AsStored(r) == Some(m);
      StoredRequirementsMet(installed, locals, requested, r);
    }
  }

  // ---- Idempotence ----

  lemma OneRuntimeIdOfMembers(s: seq<Reference>, t: seq<Reference>)
    requires SameMembers(s, t) && OneRuntimeId(s)
    ensures OneRuntimeId(t)
  {
    SameMembersIn(s, t);
    SameMembersDistinct(s, t);
    forall i, j | 0 <= i < j < |t| ensures RuntimeId(t[i]) != RuntimeId(t[j]) {
      assert t[i] in s && t[j] in s && t[i] != t[j];
    }
  }

  // Acceptance of the registry part does not depend on how the list is ordered,
  // apart from the cycle check, and that holds for any effective order.
  lemma RegistryAcceptsOrder(installed: seq<RegistryEntry>, requested: seq<ExactReference>)
    requires RegistryAccepts(installed, requested)
    ensures RegistryAccepts(installed, Order(requested, ReleasesPrecede(installed)))
  {
    OrderMeaning(requested, ReleasesPrecede(installed));
    OrderIsStable(requested, ReleasesPrecede(installed));
    AcceptedAsMembers(installed, requested, Order(requested, ReleasesPrecede(installed)));
  }

  // Resolving an effective order succeeds and returns it unchanged.
  lemma MixedIsIdempotent(installed: seq<RegistryEntry>, locals: seq<LocalSource>, requested: seq<Reference>)
    requires MixedAccepts(installed, locals, requested)
    ensures var r := Order(requested, Precede(installed, locals));
            MixedAccepts(installed, locals, r) && Order(r, Precede(installed, locals)) == r
  {
    var r := Order(requested, Precede(installed, locals));
    OrderMeaning(requested, Precede(installed, locals));
    OrderIsStable(requested, Precede(installed, locals));
    SameMembersIn(requested, r);
    OneRuntimeIdOfMembers(requested, r);
    MixedProjectsToRegistry(installed, locals, requested);
    RegistryAcceptsOrder(installed, Part(requested, AsRegistry));
    forall x | x in r ensures LocalSatisfied(locals, r, x) {
      assert LocalSatisfied(locals, requested, x);
    }
  }
}
