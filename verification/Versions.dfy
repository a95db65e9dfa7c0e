// Semantic versions as the registry reads them: parsing (section 9 and 10 of
// Semantic Versioning 2.0.0), precedence (section 11) and dependency ranges.
module Versions {
  import opened Results
  import opened Decimals
  import opened Texts
  import opened Orderings

  // ---- Parsing ----

  predicate IdentifierChar(c: char) {
    IsDigit(c) || 'a' <= c <= 'z' || 'A' <= c <= 'Z' || c == '-'
  }

  predicate Identifier(s: string) {
    s != "" && forall i | 0 <= i < |s| :: IdentifierChar(s[i])
  }

  function Identifiers(s: string): Option<seq<string>> {
    var parts := Split(s, '.');
    if forall p | p in parts :: Identifier(p) then Some(parts) else None
  }

  // core always has three numerals; pre is empty for a release.
  datatype Version = Version(core: seq<string>, pre: seq<string>)

  function ParseCore(s: string): Option<seq<string>> {
    var core := Split(s, '.');
    if |core| == 3 && forall p | p in core :: Numeric(p) then Some(core) else None
  }

  function ParsePre(s: Option<string>): Option<seq<string>> {
    match s
    case None => Some([])
    case Some(text) =>
      var parts := Identifiers(text);
      if parts.Some? && exists p | p in parts.value :: AllDigits(p) && !Numeric(p) then None else parts
  }

  function Parse(value: string): Option<Version> {
    if |value| > 100 then None
    else
      var outer := SplitOnce(value, '+');
      if outer.tail.Some? && Identifiers(outer.tail.value).None? then None
      else
        var inner := SplitOnce(outer.head, '-');
        var core := ParseCore(inner.head);
        var pre := ParsePre(inner.tail);
        if core.None? || pre.None? then None else Some(Version(core.value, pre.value))
  }

  // ---- The grammar, read as a printer ----

  ghost predicate ValidVersion(v: Version) {
    && |v.core| == 3
    && (forall p | p in v.core :: Numeric(p))
    && (forall p | p in v.pre :: Identifier(p) && (AllDigits(p) ==> Numeric(p)))
  }

  ghost predicate ValidBuild(build: seq<string>) {
    forall p | p in build :: Identifier(p)
  }

  function Tail(parts: seq<string>): Option<string> {
    if parts == [] then None else Some(Join(parts, '.'))
  }

  function Core(v: Version): string
    requires |v.core| == 3
  {
    Join(v.core, '.')
  }

  function Print(v: Version, build: seq<string>): string
    requires |v.core| == 3
  {
    Rejoin(Cut(Rejoin(Cut(Core(v), Tail(v.pre)), '-'), Tail(build)), '+')
  }

  lemma {:induction false} JoinLacks(parts: seq<string>, separator: char, c: char)
    requires |parts| >= 1 && c != separator && forall p | p in parts :: c !in p
    ensures c !in Join(parts, separator)
  {
    if |parts| > 1 {
      JoinLacks(parts[1..], separator, c);
    }
    assert parts[0] in parts;
  }

  lemma NoDots(parts: seq<string>)
    requires forall p | p in parts :: Identifier(p)
    ensures forall p | p in parts :: '.' !in p && '+' !in p
  {
    forall p | p in parts ensures '.' !in p && '+' !in p {
      assert forall i | 0 <= i < |p| :: IdentifierChar(p[i]);
    }
  }

  lemma PrintedPieces(v: Version, build: seq<string>)
    requires ValidVersion(v) && ValidBuild(build)
    ensures '-' !in Core(v) && '+' !in Rejoin(Cut(Core(v), Tail(v.pre)), '-')
    ensures Split(Core(v), '.') == v.core
    ensures v.pre != [] ==> Split(Join(v.pre, '.'), '.') == v.pre
    ensures build != [] ==> Split(Join(build, '.'), '.') == build
  {
    forall p | p in v.core ensures Identifier(p) && '-' !in p {
      assert forall i | 0 <= i < |p| :: IsDigit(p[i]);
    }
    NoDots(v.core);
    NoDots(v.pre);
    NoDots(build);
    JoinLacks(v.core, '.', '-');
    JoinLacks(v.core, '.', '+');
    JoinSplit(v.core, '.');
    if v.pre != [] {
      JoinLacks(v.pre, '.', '+');
      JoinSplit(v.pre, '.');
    }
    if build != [] {
      JoinSplit(build, '.');
    }
  }

  // Round trip: every version within the length limit that is written by the
  // grammar reads back as itself, whatever its build metadata.
  lemma ParsePrint(v: Version, build: seq<string>)
    requires ValidVersion(v) && ValidBuild(build)
    ensures Parse(Print(v, build)) == if |Print(v, build)| <= 100 then Some(v) else None
  {
    PrintedPieces(v, build);
    var inner := Cut(Core(v), Tail(v.pre));
    var outer := Cut(Rejoin(inner, '-'), Tail(build));
    SplitOnceMeaning(Rejoin(inner, '-'), '-', inner);
    SplitOnceMeaning(Print(v, build), '+', outer);
  }

  // The reader accepts nothing else.
  lemma ParseSound(value: string) returns (build: seq<string>)
    requires Parse(value).Some?
    ensures ValidVersion(Parse(value).value) && ValidBuild(build)
    ensures value == Print(Parse(value).value, build)
  {
    var outer := SplitOnce(value, '+');
    var inner := SplitOnce(outer.head, '-');
    var v := Parse(value).value;
    build := if outer.tail.Some? then Split(outer.tail.value, '.') else [];
    SplitOnceMeaning(value, '+', outer);
    SplitOnceMeaning(outer.head, '-', inner);
    SplitJoin(inner.head, '.');
    if inner.tail.Some? {
      SplitJoin(inner.tail.value, '.');
      assert Tail(v.pre) == inner.tail;
    }
    if outer.tail.Some? {
      SplitJoin(outer.tail.value, '.');
      assert Tail(build) == outer.tail;
    }
  }

  // ---- Precedence ----

  function CompareChar(a: char, b: char): Ordering {
    CompareInt(a as int, b as int)
  }

  function CompareText(a: string, b: string): Ordering {
    Lexicographic(CompareChar, a, b)
  }

  // Numerals by length and then text, so no machine integer is involved.
  function CompareNumber(a: string, b: string): Ordering {
    CompareInt(|a|, |b|).Then(CompareText(a, b))
  }

  function CompareIdentifier(a: string, b: string): Ordering {
    match (AllDigits(a), AllDigits(b))
    case (true, true) => CompareNumber(a, b)
    case (true, false) => Less
    case (false, true) => Greater
    case (false, false) => CompareText(a, b)
  }

  function CompareCore(a: seq<string>, b: seq<string>): Ordering {
    Lexicographic(CompareNumber, a, b)
  }

  // A release outranks each of its prereleases.
  function ComparePre(a: seq<string>, b: seq<string>): Ordering {
    if a == [] || b == [] then
      (if a == [] && b != [] then Greater else if a != [] && b == [] then Less else Equal)
    else Lexicographic(CompareIdentifier, a, b)
  }

  function Compare(a: Version, b: Version): Ordering {
    CompareCore(a.core, b.core).Then(ComparePre(a.pre, b.pre))
  }

  lemma CharIsOrdered()
    ensures TotalOrder(CompareChar)
  {
  }

  lemma TextIsOrdered(a: string, b: string, c: string)
    ensures CompareText(a, b) == Equal <==> a == b
    ensures CompareText(b, a) == CompareText(a, b).Flip()
    ensures CompareText(a, b) == Less && CompareText(b, c) == Less ==> CompareText(a, c) == Less
  {
    CharIsOrdered();
    LexicographicEqual(CompareChar, a, b);
    LexicographicFlips(CompareChar, a, b);
    if CompareText(a, b) == Less && CompareText(b, c) == Less {
      LexicographicTransitive(CompareChar, a, b, c);
    }
  }

  lemma NumberIsOrdered()
    ensures TotalOrder(CompareNumber)
  {
    forall a: string, b: string, c: string
      ensures CompareNumber(a, b) == Equal <==> a == b
      ensures CompareNumber(b, a) == CompareNumber(a, b).Flip()
      ensures CompareNumber(a, b) == Less && CompareNumber(b, c) == Less ==> CompareNumber(a, c) == Less
    {
      TextIsOrdered(a, b, c);
    }
  }

  lemma IdentifierIsOrdered()
    ensures TotalOrder(CompareIdentifier)
  {
    NumberIsOrdered();
    forall a: string, b: string, c: string
      ensures CompareIdentifier(a, b) == Equal <==> a == b
      ensures CompareIdentifier(b, a) == CompareIdentifier(a, b).Flip()
      ensures CompareIdentifier(a, b) == Less && CompareIdentifier(b, c) == Less ==> CompareIdentifier(a, c) == Less
    {
      TextIsOrdered(a, b, c);
    }
  }

  // Precedence is a total order on versions, equal only for the same core and
  // prerelease: build metadata never takes part.
  lemma CompareIsTotal(a: Version, b: Version, c: Version)
    ensures Compare(a, b) == Equal <==> a == b
    ensures Compare(b, a) == Compare(a, b).Flip()
    ensures Compare(a, b) == Less && Compare(b, c) == Less ==> Compare(a, c) == Less
  {
    NumberIsOrdered();
    IdentifierIsOrdered();
    LexicographicEqual(CompareNumber, a.core, b.core);
    LexicographicEqual(CompareNumber, b.core, c.core);
    LexicographicFlips(CompareNumber, a.core, b.core);
    LexicographicEqual(CompareIdentifier, a.pre, b.pre);
    LexicographicFlips(CompareIdentifier, a.pre, b.pre);
    if Compare(a, b) == Less && Compare(b, c) == Less {
      if CompareCore(a.core, b.core) == Less && CompareCore(b.core, c.core) == Less {
        LexicographicTransitive(CompareNumber, a.core, b.core, c.core);
      } else if CompareCore(a.core, b.core) == Equal && CompareCore(b.core, c.core) == Equal && c.pre != [] {
        LexicographicTransitive(CompareIdentifier, a.pre, b.pre, c.pre);
      }
    }
  }
}
