// Registry dependencies: an exact release or a half-open version range.
module Dependencies {
  import opened Results
  import opened Orderings
  import opened Versions
  import opened Precedence

  // A release identifier with the two properties the source asks of its UUID.
  datatype ReleaseId = ReleaseId(text: string, version: nat, rfc4122: bool)

  datatype Dependency =
    | Exact(modId: nat, releaseId: ReleaseId)
    | Range(modId: nat, minimum: Option<string>, before: Option<string>, includePrerelease: bool)

  function ParseOptional(text: Option<string>): Option<Version> {
    if text.None? then None else Parse(text.value)
  }

  predicate ValidConstraint(d: Dependency) {
    match d
    case Exact(_, releaseId) => releaseId.version == 4 && releaseId.rfc4122
    case Range(_, minimum, before, _) =>
      var low, high := ParseOptional(minimum), ParseOptional(before);
      && (minimum.Some? || before.Some?)
      && minimum.Some? == low.Some?
      && before.Some? == high.Some?
      && (low.Some? && high.Some? ==> Compare(low.value, high.value) == Less)
  }

  predicate Valid(d: Dependency, source: nat) {
    d.modId != source && ValidConstraint(d)
  }

  predicate AtLeast(candidate: Version, minimum: string) {
    Parse(minimum).Some? && Compare(candidate, Parse(minimum).value) != Less
  }

  predicate Below(candidate: Version, before: string) {
    Parse(before).Some? && Compare(candidate, Parse(before).value) == Less
  }

  predicate Matches(d: Dependency, modId: nat, releaseId: ReleaseId, versionLabel: string) {
    d.modId == modId &&
    match d
    case Exact(_, expected) => expected == releaseId
    case Range(_, minimum, before, includePrerelease) =>
      var candidate := Parse(versionLabel);
      && candidate.Some?
      && (includePrerelease || candidate.value.pre == [])
      && (minimum.Some? ==> AtLeast(candidate.value, minimum.value))
      && (before.Some? ==> Below(candidate.value, before.value))
      && (minimum.Some? || before.Some?)
  }

  // `valid_dependencies`: at most one constraint for each other mod.
  method ValidDependencies(source: nat, dependencies: seq<Dependency>) returns (valid: bool)
    ensures valid <==> AllValid(source, dependencies)
  {
    if |dependencies| > 100 {
      return false;
    }
    var seen := {};
    for i := 0 to |dependencies|
      invariant forall m :: m in seen <==> exists j :: 0 <= j < i && dependencies[j].modId == m
      invariant forall j | 0 <= j < i :: Valid(dependencies[j], source)
      invariant OncePerMod(dependencies[..i])
    {
      if !Valid(dependencies[i], source) || dependencies[i].modId in seen {
        return false;
      }
      seen := seen + {dependencies[i].modId};
    }
    assert dependencies[..|dependencies|] == dependencies;
    return true;
  }

  ghost predicate OncePerMod(dependencies: seq<Dependency>) {
    forall i, j | 0 <= i < j < |dependencies| :: dependencies[i].modId != dependencies[j].modId
  }

  ghost predicate AllValid(source: nat, dependencies: seq<Dependency>) {
    && |dependencies| <= 100
    && (forall d | d in dependencies :: Valid(d, source))
    && OncePerMod(dependencies)
  }

  // ---- In the words of Semantic Versioning 2.0.0 ----

  // The text is the version, written by the grammar with some build metadata.
  ghost predicate ReadsAs(text: string, v: Version) {
    |text| <= 100 && ValidVersion(v) && exists build :: ValidBuild(build) && text == Print(v, build)
  }

  ghost predicate NotBefore(v: Version, text: string)
    requires ValidVersion(v)
  {
    exists low :: ReadsAs(text, low) && !Precedes(v, low)
  }

  ghost predicate StrictlyBefore(v: Version, text: string)
    requires ValidVersion(v)
  {
    exists high :: ReadsAs(text, high) && Precedes(v, high)
  }

  // The release asked for; or a version within the bounds, the lower one included, which
  // is a prerelease only if those are.
  ghost predicate Admits(d: Dependency, modId: nat, releaseId: ReleaseId, versionLabel: string) {
    d.modId == modId &&
    match d
    case Exact(_, expected) => releaseId == expected
    case Range(_, minimum, before, includePrerelease) =>
      && (minimum.Some? || before.Some?)
      && exists v :: ReadsAs(versionLabel, v) && (v.pre == [] || includePrerelease)
           && (minimum.Some? ==> NotBefore(v, minimum.value))
           && (before.Some? ==> StrictlyBefore(v, before.value))
  }

  // A release identifier of the right kind; or bounds that are versions, the lower below the upper.
  ghost predicate WellPosed(d: Dependency, source: nat) {
    d.modId != source &&
    match d
    case Exact(_, releaseId) => releaseId.version == 4 && releaseId.rfc4122
    case Range(_, minimum, before, _) =>
      && (minimum.Some? || before.Some?)
      && (minimum.Some? ==> exists low :: ReadsAs(minimum.value, low))
      && (before.Some? ==> exists high :: ReadsAs(before.value, high))
      && (minimum.Some? && before.Some? ==>
           exists low :: ReadsAs(minimum.value, low) && StrictlyBefore(low, before.value))
  }

  lemma ReadsAsParses(text: string, v: Version)
    ensures ReadsAs(text, v) <==> Parse(text) == Some(v)
  {
    if ReadsAs(text, v) {
      var build :| ValidBuild(build) && text == Print(v, build);
      ParsePrint(v, build);
    }
    if Parse(text) == Some(v) {
      var build := ParseSound(text);
    }
  }

  lemma BoundMeaning(v: Version, text: string)
    requires ValidVersion(v)
    ensures AtLeast(v, text) <==> NotBefore(v, text)
    ensures Below(v, text) <==> StrictlyBefore(v, text)
  {
    forall bound ensures ReadsAs(text, bound) <==> Parse(text) == Some(bound) {
      ReadsAsParses(text, bound);
    }
    if Parse(text).Some? {
      assert ReadsAs(text, Parse(text).value);
      CompareAgreesWithSection11(v, Parse(text).value);
    }
  }

  lemma MatchesMeaning(d: Dependency, modId: nat, releaseId: ReleaseId, versionLabel: string)
    ensures Matches(d, modId, releaseId, versionLabel) <==> Admits(d, modId, releaseId, versionLabel)
  {
    if d.Range? {
      forall v ensures ReadsAs(versionLabel, v) <==> Parse(versionLabel) == Some(v) {
        ReadsAsParses(versionLabel, v);
      }
      if Parse(versionLabel).Some? {
        var v := Parse(versionLabel).value;
        assert ReadsAs(versionLabel, v);
        if d.minimum.Some? { BoundMeaning(v, d.minimum.value); }
        if d.before.Some? { BoundMeaning(v, d.before.value); }
      }
    }
  }

  lemma ValidMeaning(d: Dependency, source: nat)
    ensures Valid(d, source) <==> WellPosed(d, source)
  {
    if d.Range? {
      if d.minimum.Some? {
        forall v ensures ReadsAs(d.minimum.value, v) <==> Parse(d.minimum.value) == Some(v) {
          ReadsAsParses(d.minimum.value, v);
        }
      }
      if d.before.Some? {
        forall v ensures ReadsAs(d.before.value, v) <==> Parse(d.before.value) == Some(v) {
          ReadsAsParses(d.before.value, v);
        }
        if d.minimum.Some? && Parse(d.minimum.value).Some? {
          assert ReadsAs(d.minimum.value, Parse(d.minimum.value).value);
          BoundMeaning(Parse(d.minimum.value).value, d.before.value);
        }
      }
    }
  }

  // Between two versions that match, every version the prerelease flag admits matches.
  lemma RangeIsConvex(d: Dependency, modId: nat, id: ReleaseId, low: string, mid: string, high: string)
    requires d.Range? && Matches(d, modId, id, low) && Matches(d, modId, id, high)
    requires Parse(mid).Some? && (d.includePrerelease || Parse(mid).value.pre == [])
    requires Compare(Parse(low).value, Parse(mid).value) != Greater
    requires Compare(Parse(mid).value, Parse(high).value) != Greater
    ensures Matches(d, modId, id, mid)
  {
    var a, b, c := Parse(low).value, Parse(mid).value, Parse(high).value;
    if d.minimum.Some? {
      var m := Parse(d.minimum.value).value;
      CompareIsTotal(a, b, m);
      CompareIsTotal(b, m, a);
      CompareIsTotal(a, m, b);
    }
    if d.before.Some? {
      var m := Parse(d.before.value).value;
      CompareIsTotal(b, c, m);
    }
  }

  // Build metadata never decides a match: labels of equal precedence match alike.
  lemma MatchesIgnoresBuild(d: Dependency, modId: nat, id: ReleaseId, v: Version, b1: seq<string>, b2: seq<string>)
    requires ValidVersion(v) && ValidBuild(b1) && ValidBuild(b2)
    requires |Print(v, b1)| <= 100 && |Print(v, b2)| <= 100
    ensures Matches(d, modId, id, Print(v, b1)) <==> Matches(d, modId, id, Print(v, b2))
  {
    ParsePrint(v, b1);
    ParsePrint(v, b2);
  }
}
