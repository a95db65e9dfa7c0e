// The exact builds a local build needs, and enabling them together.
module Requirements {
  import opened Results
  import opened References
  import opened MixedOrder

  predicate AsksIn(required: seq<ModReference>, b: Reference) {
    exists m | m in required :: ExactLocal(m) == Some(b)
  }

  // a asks for the exact build b.
  predicate Asks(sources: seq<LocalSource>, a: Reference, b: Reference) {
    a.Local? && FindSource(sources, Stored(a.local)).Some?
    && AsksIn(FindSource(sources, Stored(a.local)).value.manifest.required, b)
  }

  // A chain of requirements, from the build asked for to one it needs.
  ghost predicate IsChain(sources: seq<LocalSource>, c: seq<Reference>) {
    |c| > 0 && forall i | 0 <= i < |c| - 1 :: Asks(sources, c[i], c[i + 1])
  }

  ghost predicate Needs(sources: seq<LocalSource>, a: Reference, x: Reference) {
    exists c :: IsChain(sources, c) && c[0] == a && c[|c| - 1] == x
  }

  ghost predicate Distinct(c: seq<Reference>) {
    forall i, j | 0 <= i < j < |c| :: RuntimeId(c[i]) != RuntimeId(c[j])
  }

  // The metadata of the build is there and every requirement is a local build.
  predicate Complete(sources: seq<LocalSource>, r: Reference) {
    r.Local? ==>
      var source := FindSource(sources, Stored(r.local));
      source.Some? && forall m | m in source.value.manifest.required :: ExactLocal(m).Some?
  }

  ghost predicate FineChain(sources: seq<LocalSource>, c: seq<Reference>, visiting: set<string>)
    requires |c| > 0
  {
    Complete(sources, c[|c| - 1]) && Distinct(c) && forall r | r in c :: RuntimeId(r) !in visiting
  }

  // Whatever chain is followed, metadata is there and no mod is met twice.
  ghost predicate Resolvable(sources: seq<LocalSource>, a: Reference, visiting: set<string>) {
    forall c | IsChain(sources, c) && c[0] == a :: FineChain(sources, c, visiting)
  }

  // What a build asks for stands before it.
  ghost predicate RequirementsFirst(sources: seq<LocalSource>, s: seq<Reference>) {
    forall k, x | 0 <= k < |s| && Asks(sources, s[k], x) :: x in s[..k]
  }

  // ---- Chains ----

  lemma ChainFront(sources: seq<LocalSource>, a: Reference, c: seq<Reference>)
    requires IsChain(sources, c) && Asks(sources, a, c[0])
    ensures IsChain(sources, [a] + c)
  {
    var d := [a] + c;
    forall i | 0 <= i < |d| - 1 ensures Asks(sources, d[i], d[i + 1]) {
      if i > 0 {
        assert Asks(sources, c[i - 1], c[i]);
      }
    }
  }

  lemma ChainRest(sources: seq<LocalSource>, c: seq<Reference>)
    requires IsChain(sources, c) && |c| > 1
    ensures IsChain(sources, c[1..]) && Asks(sources, c[0], c[1])
  {
    var d := c[1..];
    forall i | 0 <= i < |d| - 1 ensures Asks(sources, d[i], d[i + 1]) {
      assert Asks(sources, c[i + 1], c[i + 2]);
    }
  }

  lemma FineBelow(sources: seq<LocalSource>, a: Reference, c: seq<Reference>, visiting: set<string>)
    requires |c| > 0 && FineChain(sources, [a] + c, visiting)
    ensures FineChain(sources, c, visiting + {RuntimeId(a)})
  {
    var d := [a] + c;
    forall i | 0 <= i < |c| ensures RuntimeId(c[i]) != RuntimeId(a) && RuntimeId(c[i]) !in visiting {
      assert d[i + 1] == c[i] && d[0] == a && d[i + 1] in d;
    }
    forall i, j | 0 <= i < j < |c| ensures RuntimeId(c[i]) != RuntimeId(c[j]) {
      assert RuntimeId(d[i + 1]) != RuntimeId(d[j + 1]);
    }
  }

  // One level of the recursion.
  lemma ResolvableBelow(sources: seq<LocalSource>, a: Reference, b: Reference, visiting: set<string>)
    requires Resolvable(sources, a, visiting) && Asks(sources, a, b)
    ensures Resolvable(sources, b, visiting + {RuntimeId(a)})
  {
    forall c | IsChain(sources, c) && c[0] == b ensures FineChain(sources, c, visiting + {RuntimeId(a)}) {
      ChainFront(sources, a, c);
      FineBelow(sources, a, c, visiting);
    }
  }

  lemma ResolvableItself(sources: seq<LocalSource>, a: Reference, visiting: set<string>)
    requires Resolvable(sources, a, visiting)
    ensures RuntimeId(a) !in visiting && Complete(sources, a)
  {
    var c := [a];
    assert IsChain(sources, c) && c[0] == a;
    assert FineChain(sources, c, visiting);
    assert a in c;
  }

  lemma ResolvableAbove(sources: seq<LocalSource>, a: Reference, visiting: set<string>)
    requires RuntimeId(a) !in visiting && Complete(sources, a)
    requires forall b | Asks(sources, a, b) :: Resolvable(sources, b, visiting + {RuntimeId(a)})
    ensures Resolvable(sources, a, visiting)
  {
    forall c | IsChain(sources, c) && c[0] == a ensures FineChain(sources, c, visiting) {
      if |c| > 1 {
        var d := c[1..];
        ChainRest(sources, c);
        assert FineChain(sources, d, visiting + {RuntimeId(a)});
        forall r | r in c ensures RuntimeId(r) !in visiting {
          assert r == a || r in d;
        }
        forall i, j | 0 <= i < j < |c| ensures RuntimeId(c[i]) != RuntimeId(c[j]) {
          assert c[j] == d[j - 1] && d[j - 1] in d;
          assert i > 0 ==> c[i] == d[i - 1];
        }
      }
    }
  }

  lemma NeedsStep(sources: seq<LocalSource>, a: Reference, x: Reference)
    ensures Needs(sources, a, x) <==> x == a || exists b :: Asks(sources, a, b) && Needs(sources, b, x)
  {
    if Needs(sources, a, x) {
      var c :| IsChain(sources, c) && c[0] == a && c[|c| - 1] == x;
      if |c| > 1 {
        ChainRest(sources, c);
        var d := c[1..];
        assert d[0] == c[1] && d[|d| - 1] == x;
        assert Needs(sources, c[1], x);
      }
    }
    if x == a {
      var c := [a];
      assert IsChain(sources, c) && c[0] == a && c[|c| - 1] == x;
    }
    if exists b :: Asks(sources, a, b) && Needs(sources, b, x) {
      var b :| Asks(sources, a, b) && Needs(sources, b, x);
      var c :| IsChain(sources, c) && c[0] == b && c[|c| - 1] == x;
      ChainFront(sources, a, c);
      var d := [a] + c;
      assert d[0] == a && d[|d| - 1] == x;
    }
  }

  // Everything needed keeps clear of the mods being visited.
  lemma NeededAreClear(sources: seq<LocalSource>, a: Reference, x: Reference, visiting: set<string>)
    requires Resolvable(sources, a, visiting) && Needs(sources, a, x)
    ensures RuntimeId(x) !in visiting
  {
    var c :| IsChain(sources, c) && c[0] == a && c[|c| - 1] == x;
    assert FineChain(sources, c, visiting);
    assert x in c;
  }

  // ---- The walk ----

  datatype Trouble = Cyclic | MetadataMissing | InvalidReference | Conflicting

  ghost function KnownIds(sources: seq<LocalSource>): set<string> {
    set i | 0 <= i < |sources| :: sources[i].reference.modId
  }

  // x is needed by one of the first i requirements.
  ghost predicate NeededByFirst(sources: seq<LocalSource>, required: seq<ModReference>, i: nat, x: Reference)
    requires i <= |required|
  {
    exists k, b :: 0 <= k < i && ExactLocal(required[k]) == Some(b) && Needs(sources, b, x)
  }

  ghost predicate Gathered(sources: seq<LocalSource>, required: seq<ModReference>, i: nat, needed: seq<Reference>, visiting: set<string>)
    requires i <= |required|
  {
    && RequirementsFirst(sources, needed)
    && (forall x :: x in needed <==> NeededByFirst(sources, required, i, x))
    && (forall k | 0 <= k < i :: ExactLocal(required[k]).Some? && Resolvable(sources, ExactLocal(required[k]).value, visiting))
  }

  // The list is what the asked build needs, each after its own requirements, and
  // ends in the asked build.
  ghost predicate Answers(sources: seq<LocalSource>, a: Reference, needed: seq<Reference>) {
    && RequirementsFirst(sources, needed)
    && (forall x :: x in needed <==> Needs(sources, a, x))
    && |needed| > 0 && needed[|needed| - 1] == a
    && forall x | x in needed[..|needed| - 1] :: RuntimeId(x) != RuntimeId(a)
  }

  lemma FirstAppend(sources: seq<LocalSource>, s: seq<Reference>, t: seq<Reference>)
    requires RequirementsFirst(sources, s) && RequirementsFirst(sources, t)
    ensures RequirementsFirst(sources, s + t)
  {
    forall k, x | 0 <= k < |s + t| && Asks(sources, (s + t)[k], x) ensures x in (s + t)[..k] {
      if k < |s| {
        assert (s + t)[..k] == s[..k];
      } else {
        assert x in t[..k - |s|];
        assert (s + t)[..k] == s + t[..k - |s|];
      }
    }
  }

  lemma GatherMore(sources: seq<LocalSource>, required: seq<ModReference>, i: nat, needed: seq<Reference>,
                   visiting: set<string>, b: Reference, more: seq<Reference>)
    requires i < |required| && Gathered(sources, required, i, needed, visiting)
    requires ExactLocal(required[i]) == Some(b) && Resolvable(sources, b, visiting) && Answers(sources, b, more)
    ensures Gathered(sources, required, i + 1, needed + more, visiting)
  {
    FirstAppend(sources, needed, more);
    forall x ensures x in needed + more <==> NeededByFirst(sources, required, i + 1, x) {
      if NeededByFirst(sources, required, i + 1, x) {
        var k, d :| 0 <= k < i + 1 && ExactLocal(required[k]) == Some(d) && Needs(sources, d, x);
        assert k < i ==> NeededByFirst(sources, required, i, x);
      }
      if x in needed {
        var k, d :| 0 <= k < i && ExactLocal(required[k]) == Some(d) && Needs(sources, d, x);
      }
    }
  }

  lemma GatheredAnswers(sources: seq<LocalSource>, a: Reference, needed: seq<Reference>, visiting: set<string>)
    requires a.Local? && FindSource(sources, Stored(a.local)).Some? && RuntimeId(a) !in visiting
    requires var required := FindSource(sources, Stored(a.local)).value.manifest.required;
             Gathered(sources, required, |required|, needed, visiting + {RuntimeId(a)})
    ensures Resolvable(sources, a, visiting) && Answers(sources, a, needed + [a])
    ensures forall x | x in needed :: RuntimeId(x) != RuntimeId(a)
  {
    var required := FindSource(sources, Stored(a.local)).value.manifest.required;
    var all := needed + [a];
    forall b | Asks(sources, a, b) ensures Resolvable(sources, b, visiting + {RuntimeId(a)}) {
      var m :| m in required && ExactLocal(m) == Some(b);
      var k :| 0 <= k < |required| && required[k] == m;
    }
    ResolvableAbove(sources, a, visiting);
    forall x | x in needed ensures RuntimeId(x) != RuntimeId(a) {
      var k, b :| 0 <= k < |required| && ExactLocal(required[k]) == Some(b) && Needs(sources, b, x);
      NeededAreClear(sources, b, x, visiting + {RuntimeId(a)});
    }
    forall x ensures x in all <==> Needs(sources, a, x) {
      NeedsStep(sources, a, x);
      GatheredMeans(sources, a, x);
    }
    forall k, x | 0 <= k < |all| && Asks(sources, all[k], x) ensures x in all[..k] {
      if k < |needed| {
        assert all[..k] == needed[..k];
      } else {
        NeedsStep(sources, x, x);
        GatheredMeans(sources, a, x);
        assert all[..k] == needed;
      }
    }
    assert all[..|needed|] == needed;
  }

  lemma GatheredMeans(sources: seq<LocalSource>, a: Reference, x: Reference)
    requires a.Local? && FindSource(sources, Stored(a.local)).Some?
    ensures var required := FindSource(sources, Stored(a.local)).value.manifest.required;
            NeededByFirst(sources, required, |required|, x) <==> exists b :: Asks(sources, a, b) && Needs(sources, b, x)
  {
    var required := FindSource(sources, Stored(a.local)).value.manifest.required;
    if NeededByFirst(sources, required, |required|, x) {
      var k, b :| 0 <= k < |required| && ExactLocal(required[k]) == Some(b) && Needs(sources, b, x);
      assert Asks(sources, a, b);
    }
    if exists b :: Asks(sources, a, b) && Needs(sources, b, x) {
      var b :| Asks(sources, a, b) && Needs(sources, b, x);
      var m :| m in required && ExactLocal(m) == Some(b);
      var k :| 0 <= k < |required| && required[k] == m;
    }
  }

  class Walk {
    var visiting: set<string>

    constructor ()
      ensures visiting == {}
    {
      visiting := {};
    }

    // `local_requirements`
    method Require(sources: seq<LocalSource>, a: Reference) returns (r: Result<seq<Reference>, Trouble>)
      modifies this
      ensures r.Ok? <==> Resolvable(sources, a, old(visiting))
      ensures r.Ok? ==> visiting == old(visiting) && Answers(sources, a, r.value)
      decreases |KnownIds(sources) - visiting|, 1
    {
      ghost var before := visiting;
      if RuntimeId(a) in visiting {
        NotResolvable(sources, a, before);
        return Err(Cyclic);
      }
      visiting := visiting + {RuntimeId(a)};
      var needed := [];
      if a.Local? {
        var source := FindSource(sources, Stored(a.local));
        if source.None? {
          NotResolvable(sources, a, before);
          return Err(MetadataMissing);
        }
        KnownShrinks(sources, source.value, before);
        var required := source.value.manifest.required;
        var i := 0;
        while i < |required|
          invariant 0 <= i <= |required| && visiting == before + {RuntimeId(a)}
          invariant Gathered(sources, required, i, needed, visiting)
        {
          var next := ExactLocal(required[i]);
          assert required[i] in required;
          if next.None? {
            NotResolvable(sources, a, before);
            return Err(InvalidReference);
          }
          assert Asks(sources, a, next.value);
          var more := Require(sources, next.value);
          if more.Err? {
            NotBelow(sources, a, next.value, before);
            return more;
          }
          GatherMore(sources, required, i, needed, visiting, next.value, more.value);
          needed := needed + more.value;
          i := i + 1;
        }
        GatheredAnswers(sources, a, needed, before);
      } else {
        RegistryAnswers(sources, a, before);
      }
      visiting := visiting - {RuntimeId(a)};
      // So neither check on what was gathered ever finds anything.
      assert forall x | x in needed :: RuntimeId(x) != RuntimeId(a);
      assert a !in needed;
      return Ok(needed + [a]);
    }
  }

  lemma RegistryAnswers(sources: seq<LocalSource>, a: Reference, visiting: set<string>)
    requires a.Registry? && RuntimeId(a) !in visiting
    ensures Resolvable(sources, a, visiting) && Answers(sources, a, [] + [a])
  {
    ResolvableAbove(sources, a, visiting);
    forall x ensures x in [] + [a] <==> Needs(sources, a, x) {
      NeedsStep(sources, a, x);
    }
  }

  lemma NotResolvable(sources: seq<LocalSource>, a: Reference, visiting: set<string>)
    requires RuntimeId(a) in visiting || !Complete(sources, a)
    ensures !Resolvable(sources, a, visiting)
  {
    if Resolvable(sources, a, visiting) {
      ResolvableItself(sources, a, visiting);
    }
  }

  lemma NotBelow(sources: seq<LocalSource>, a: Reference, b: Reference, visiting: set<string>)
    requires Asks(sources, a, b) && !Resolvable(sources, b, visiting + {RuntimeId(a)})
    ensures !Resolvable(sources, a, visiting)
  {
    if Resolvable(sources, a, visiting) {
      ResolvableBelow(sources, a, b, visiting);
    }
  }

  lemma KnownShrinks(sources: seq<LocalSource>, source: LocalSource, visiting: set<string>)
    requires source in sources && source.reference.modId !in visiting
    ensures |KnownIds(sources) - (visiting + {source.reference.modId})| < |KnownIds(sources) - visiting|
  {
    var id := source.reference.modId;
    var left := KnownIds(sources) - visiting;
    assert id in left;
    assert KnownIds(sources) - (visiting + {id}) == left - {id};
  }

  // ---- A list that holds two builds of one mod ----

  function Build(c: char, h: char): LocalReference
    requires IdChar(c) && HexDigit(h)
  {
    LocalReference([c], seq(64, i => h))
  }

  function BuildSource(c: char, h: char, required: seq<ModReference>): LocalSource
    requires IdChar(c) && HexDigit(h)
  {
    LocalSource(Stored(Build(c, h)), "", Manifest([c], "", "", LuaZip, required, [], [], true), true)
  }

  // a needs b and c; c needs another build of b.
  function Siblings(): seq<LocalSource> {
    [ BuildSource('a', '0', [Stored(Build('b', '0')), Stored(Build('c', '0'))]),
      BuildSource('b', '0', []),
      BuildSource('b', '1', []),
      BuildSource('c', '0', [Stored(Build('b', '1'))]) ]
  }

  lemma ExactOfBuild(c: char, h: char)
    requires IdChar(c) && HexDigit(h)
    ensures ExactLocal(Stored(Build(c, h))) == Some(Local(Build(c, h)))
  {
    ToLocalIsStored(Stored(Build(c, h)), Build(c, h));
  }

  lemma BuildsDiffer(c: char, h: char, d: char, k: char)
    requires IdChar(c) && HexDigit(h) && IdChar(d) && HexDigit(k) && (c != d || h != k)
    ensures Stored(Build(c, h)) != Stored(Build(d, k))
  {
    assert Build(c, h).sha256[0] == h && Build(d, k).sha256[0] == k;
    assert Build(c, h).modId[0] == c && Build(d, k).modId[0] == d;
  }

  lemma SiblingSources()
    ensures var s := Siblings();
            && FindSource(s, Stored(Build('a', '0'))) == Some(s[0]) && FindSource(s, Stored(Build('b', '0'))) == Some(s[1])
            && FindSource(s, Stored(Build('b', '1'))) == Some(s[2]) && FindSource(s, Stored(Build('c', '0'))) == Some(s[3])
  {
    var s := Siblings();
    BuildsDiffer('a', '0', 'b', '0');
    BuildsDiffer('a', '0', 'b', '1');
    BuildsDiffer('a', '0', 'c', '0');
    BuildsDiffer('b', '0', 'b', '1');
    BuildsDiffer('b', '0', 'c', '0');
    BuildsDiffer('b', '1', 'c', '0');
    assert s[1..][0] == s[1] && s[1..][1..] == s[2..] && s[2..][0] == s[2] && s[2..][1..] == s[3..] && s[3..][0] == s[3];
    var r := Stored(Build('c', '0'));
    assert FindSource(s[3..], r) == Some(s[3]);
    assert FindSource(s[2..], r) == Some(s[3]);
    assert FindSource(s[1..], r) == Some(s[3]);
    r := Stored(Build('b', '1'));
    assert FindSource(s[2..], r) == Some(s[2]);
    assert FindSource(s[1..], r) == Some(s[2]);
    assert FindSource(s[1..], Stored(Build('b', '0'))) == Some(s[1]);
  }

  lemma SiblingAsks()
    ensures var s := Siblings();
            var a, b0, b1, c := Local(Build('a', '0')), Local(Build('b', '0')), Local(Build('b', '1')), Local(Build('c', '0'));
            && (forall x :: Asks(s, a, x) <==> x == b0 || x == c) && (forall x :: Asks(s, c, x) <==> x == b1)
            && (forall x :: !Asks(s, b0, x) && !Asks(s, b1, x))
            && Complete(s, a) && Complete(s, b0) && Complete(s, b1) && Complete(s, c) && b0 != b1
  {
    var s := Siblings();
    SiblingSources();
    ExactOfBuild('b', '0');
    ExactOfBuild('b', '1');
    ExactOfBuild('c', '0');
    BuildsDiffer('b', '0', 'b', '1');
    var needs, last := s[0].manifest.required, s[3].manifest.required;
    assert needs[0] in needs && needs[1] in needs && last[0] in last;
  }

  // The walk refuses a mod met twice on one chain, not one met on two chains: this
  // build can be resolved, and what it needs includes two builds of b.
  lemma SiblingsMayConflict()
    ensures var sources := Siblings();
            var a, b0, b1 := Local(Build('a', '0')), Local(Build('b', '0')), Local(Build('b', '1'));
            && Resolvable(sources, a, {}) && Needs(sources, a, b0) && Needs(sources, a, b1)
            && b0 != b1 && RuntimeId(b0) == RuntimeId(b1)
  {
    var s := Siblings();
    var a, b0, b1, c := Local(Build('a', '0')), Local(Build('b', '0')), Local(Build('b', '1')), Local(Build('c', '0'));
    SiblingAsks();
    ResolvableAbove(s, b0, {} + {RuntimeId(a)});
    ResolvableAbove(s, b1, {} + {RuntimeId(a)} + {RuntimeId(c)});
    ResolvableAbove(s, c, {} + {RuntimeId(a)});
    ResolvableAbove(s, a, {});
    NeedsStep(s, b0, b0);
    NeedsStep(s, b1, b1);
    NeedsStep(s, c, b1);
    NeedsStep(s, a, b0);
    NeedsStep(s, a, b1);
  }

  // ---- Enabling ----

  // No build that is needed meets another build of its mod, in the collection or
  // among the needed ones; only the asked build may replace one.
  ghost predicate Compatible(entries: seq<Reference>, needed: seq<Reference>, asked: Reference) {
    forall d, e | d in needed && d != asked && (e in entries || e in needed) && RuntimeId(e) == RuntimeId(d) :: e == d
  }

  ghost predicate Enabled(entries: seq<Reference>, needed: seq<Reference>, asked: Reference, r: seq<Reference>) {
    && OneRuntimeId(r) && |entries| <= |r|
    && (forall i | 0 <= i < |entries| ::
          r[i] == if RuntimeId(entries[i]) == RuntimeId(asked) && asked in needed then asked else entries[i])
    && (forall x | x in needed :: x in r)
    && (forall x | x in r :: x in entries || x in needed)
  }

  // `position`, from the i-th entry on.
  function Place(entries: seq<Reference>, id: string, i: nat): (r: Option<nat>)
    requires i <= |entries|
    ensures r.Some? ==> i <= r.value < |entries| && RuntimeId(entries[r.value]) == id
    ensures r.None? ==> forall j | i <= j < |entries| :: RuntimeId(entries[j]) != id
    decreases |entries| - i
  {
    if i == |entries| then None
    else if RuntimeId(entries[i]) == id then Some(i)
    else Place(entries, id, i + 1)
  }

  // `SetEnabled`: the needed builds join the collection one by one.
  method Enable(entries0: seq<Reference>, needed: seq<Reference>, asked: Reference) returns (r: Option<seq<Reference>>)
    requires OneRuntimeId(entries0) && |needed| > 0 && needed[|needed| - 1] == asked
    requires forall x | x in needed[..|needed| - 1] :: RuntimeId(x) != RuntimeId(asked)
    ensures r.Some? <==> Compatible(entries0, needed, asked)
    ensures r.Some? ==> Enabled(entries0, needed, asked, r.value)
  {
    var entries := entries0;
    for k := 0 to |needed|
      invariant Enabled(entries0, needed[..k], asked, entries)
      invariant Compatible(entries0, needed[..k], asked)
      invariant k < |needed| ==> asked !in needed[..k]
    {
      var dependency := needed[k];
      var place := Place(entries, RuntimeId(dependency), 0);
      assert needed[..k + 1] == needed[..k] + [dependency];
      if dependency != asked && place.Some? && entries[place.value] != dependency {
        Incompatible(entries0, needed, asked, k, entries, entries[place.value]);
        return None;
      }
      EnableOne(entries0, needed, asked, k, entries, place);
      if place.Some? {
        entries := entries[place.value := dependency];
      } else {
        entries := entries + [dependency];
      }
    }
    assert needed[..|needed|] == needed;
    return Some(entries);
  }

  lemma Incompatible(entries0: seq<Reference>, needed: seq<Reference>, asked: Reference, k: nat,
                     entries: seq<Reference>, e: Reference)
    requires k < |needed| && Enabled(entries0, needed[..k], asked, entries) && e in entries
    requires needed[k] != asked && e != needed[k] && RuntimeId(e) == RuntimeId(needed[k])
    ensures !Compatible(entries0, needed, asked)
  {
    assert needed[k] in needed && (e in entries0 || e in needed);
  }

  // A needed build that is already there stays where it is.
  lemma EnableKept(entries0: seq<Reference>, before: seq<Reference>, asked: Reference, entries: seq<Reference>,
                   place: nat, d: Reference)
    requires Enabled(entries0, before, asked, entries) && asked !in before && d != asked
    requires place < |entries| && entries[place] == d
    ensures Enabled(entries0, before + [d], asked, entries[place := d])
  {
    assert entries[place := d] == entries;
    assert asked !in before + [d];
  }

  lemma EnableAdded(entries0: seq<Reference>, before: seq<Reference>, asked: Reference, entries: seq<Reference>, d: Reference)
    requires Enabled(entries0, before, asked, entries) && asked !in before
    requires forall i | 0 <= i < |entries| :: RuntimeId(entries[i]) != RuntimeId(d)
    ensures Enabled(entries0, before + [d], asked, entries + [d])
  {
    var r := entries + [d];
    forall i | 0 <= i < |entries0|
      ensures r[i] == if RuntimeId(entries0[i]) == RuntimeId(asked) && asked in before + [d] then asked else entries0[i]
    {
      assert entries[i] == entries0[i];
      assert RuntimeId(entries[i]) != RuntimeId(d);
    }
  }

  // Only the asked build replaces one.
  lemma EnableReplaced(entries0: seq<Reference>, before: seq<Reference>, asked: Reference, entries: seq<Reference>, place: nat)
    requires Enabled(entries0, before, asked, entries) && asked !in before && OneRuntimeId(entries0)
    requires place < |entries| && RuntimeId(entries[place]) == RuntimeId(asked)
    requires forall x | x in before :: RuntimeId(x) != RuntimeId(asked)
    ensures Enabled(entries0, before + [asked], asked, entries[place := asked])
  {
    var r := entries[place := asked];
    forall i | 0 <= i < |entries0|
      ensures r[i] == if RuntimeId(entries0[i]) == RuntimeId(asked) && asked in before + [asked] then asked else entries0[i]
    {
      assert entries[i] == entries0[i];
      assert i != place ==> RuntimeId(entries[i]) != RuntimeId(entries[place]);
    }
    forall x | x in before ensures x in r {
      var j :| 0 <= j < |entries| && entries[j] == x;
      assert r[j] == x;
    }
    assert r[place] == asked;
  }

  lemma CompatibleMore(entries0: seq<Reference>, before: seq<Reference>, asked: Reference, entries: seq<Reference>, d: Reference)
    requires Enabled(entries0, before, asked, entries) && Compatible(entries0, before, asked) && asked !in before
    requires forall x | x in before :: RuntimeId(x) != RuntimeId(asked)
    requires d == asked || forall e | e in entries && RuntimeId(e) == RuntimeId(d) :: e == d
    ensures Compatible(entries0, before + [d], asked)
  {
    var more := before + [d];
    forall x, e | x in more && x != asked && (e in entries0 || e in more) && RuntimeId(e) == RuntimeId(x) ensures e == x {
      if e in entries0 {
        var i :| 0 <= i < |entries0| && entries0[i] == e;
        assert entries[i] == e;
      }
      assert forall y | y in before :: y in entries;
    }
  }

  lemma {:induction false} EnableOne(entries0: seq<Reference>, needed: seq<Reference>, asked: Reference, k: nat,
                                     entries: seq<Reference>, place: Option<nat>)
    requires k < |needed| && needed[|needed| - 1] == asked && OneRuntimeId(entries0)
    requires forall x | x in needed[..|needed| - 1] :: RuntimeId(x) != RuntimeId(asked)
    requires Enabled(entries0, needed[..k], asked, entries) && Compatible(entries0, needed[..k], asked)
    requires asked !in needed[..k] && place == Place(entries, RuntimeId(needed[k]), 0)
    requires needed[k] == asked || place.None? || entries[place.value] == needed[k]
    ensures var next := if place.Some? then entries[place.value := needed[k]] else entries + [needed[k]];
            Enabled(entries0, needed[..k + 1], asked, next) && Compatible(entries0, needed[..k + 1], asked)
    ensures k + 1 < |needed| ==> asked !in needed[..k + 1]
  {
    var before, d := needed[..k], needed[k];
    assert needed[..k + 1] == before + [d];
    assert forall x | x in before :: x in needed[..|needed| - 1];
    assert k + 1 < |needed| ==> d == needed[..|needed| - 1][k];
    CompatibleMore(entries0, before, asked, entries, d);
    if place.None? {
      EnableAdded(entries0, before, asked, entries, d);
    } else if d == asked {
      EnableReplaced(entries0, before, asked, entries, place.value);
    } else {
      EnableKept(entries0, before, asked, entries, place.value, d);
    }
  }

  // What a build needs does not meet another build of its mod, in the collection or
  // in what else it needs; the build itself may replace one.
  ghost predicate Enableable(sources: seq<LocalSource>, entries: seq<Reference>, a: Reference) {
    forall x, y | Needs(sources, a, x) && x != a && (y in entries || Needs(sources, a, y)) && RuntimeId(x) == RuntimeId(y) :: x == y
  }

  // The collection with the build and all it needs, entries in their places.
  ghost predicate EnabledIn(sources: seq<LocalSource>, entries: seq<Reference>, a: Reference, r: seq<Reference>) {
    && OneRuntimeId(r) && |entries| <= |r|
    && (forall i | 0 <= i < |entries| :: r[i] == if RuntimeId(entries[i]) == RuntimeId(a) then a else entries[i])
    && (forall x | Needs(sources, a, x) :: x in r && LocalSatisfied(sources, r, x))
    && (forall x | x in r :: x in entries || Needs(sources, a, x))
  }

  lemma CompatibleMeans(sources: seq<LocalSource>, entries: seq<Reference>, a: Reference, needed: seq<Reference>)
    requires Answers(sources, a, needed)
    ensures Compatible(entries, needed, a) <==> Enableable(sources, entries, a)
  {
    if Enableable(sources, entries, a) {
      forall d, e | d in needed && d != a && (e in entries || e in needed) && RuntimeId(e) == RuntimeId(d) ensures e == d {
        assert Needs(sources, a, d) && (e in needed ==> Needs(sources, a, e));
      }
    }
    if Compatible(entries, needed, a) {
      forall x, y | Needs(sources, a, x) && x != a && (y in entries || Needs(sources, a, y)) && RuntimeId(x) == RuntimeId(y) ensures x == y {
        assert x in needed && (Needs(sources, a, y) ==> y in needed);
      }
    }
  }

  lemma NeededAreComplete(sources: seq<LocalSource>, a: Reference, x: Reference)
    requires Resolvable(sources, a, {}) && Needs(sources, a, x)
    ensures Complete(sources, x)
  {
    var c :| IsChain(sources, c) && c[0] == a && c[|c| - 1] == x;
    assert FineChain(sources, c, {});
  }

  lemma EnabledMeans(sources: seq<LocalSource>, entries: seq<Reference>, a: Reference, needed: seq<Reference>, r: seq<Reference>)
    requires Resolvable(sources, a, {}) && Answers(sources, a, needed) && Enabled(entries, needed, a, r)
    ensures EnabledIn(sources, entries, a, r)
  {
    assert needed[|needed| - 1] in needed;
    forall x | Needs(sources, a, x) ensures x in r && LocalSatisfied(sources, r, x) {
      assert x in needed;
      NeededAreComplete(sources, a, x);
      EnabledIsClosed(sources, entries, needed, a, r, x);
    }
  }

  // From the sources to the new list: what a build needs can join the collection exactly
  // when the build can be resolved and nothing it needs meets another build of its mod.
  method EnableNeeded(sources: seq<LocalSource>, entries: seq<Reference>, a: Reference) returns (r: Option<seq<Reference>>)
    requires OneRuntimeId(entries)
    ensures r.Some? <==> Resolvable(sources, a, {}) && Enableable(sources, entries, a)
    ensures r.Some? ==> EnabledIn(sources, entries, a, r.value)
  {
    var walk := new Walk();
    var needed := walk.Require(sources, a);
    if needed.Err? {
      return None;
    }
    CompatibleMeans(sources, entries, a, needed.value);
    r := Enable(entries, needed.value, a);
    if r.Some? {
      EnabledMeans(sources, entries, a, needed.value, r.value);
    }
  }

  // Afterwards everything a newly enabled build asks for is enabled too, in exactly
  // the build it asks for.
  lemma EnabledIsClosed(sources: seq<LocalSource>, entries: seq<Reference>, needed: seq<Reference>, asked: Reference,
                        r: seq<Reference>, x: Reference)
    requires Answers(sources, asked, needed) && Enabled(entries, needed, asked, r) && x in needed && Complete(sources, x)
    ensures LocalSatisfied(sources, r, x)
  {
    if x.Local? {
      var k :| 0 <= k < |needed| && needed[k] == x;
      forall m | m in FindSource(sources, Stored(x.local)).value.manifest.required
        ensures ExactLocal(m).Some? && ExactLocal(m).value in r
      {
        assert Asks(sources, x, ExactLocal(m).value);
        assert ExactLocal(m).value in needed[..k];
      }
    }
  }
}
