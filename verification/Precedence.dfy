// The comparison agrees with section 11 of Semantic Versioning 2.0.0, stated
// independently over the numbers the numerals stand for.
module Precedence {
  import opened Decimals
  import opened Orderings
  import opened Versions

  // ---- Section 11 ----

  ghost function Part(v: Version, k: nat): nat
    requires ValidVersion(v) && k < 3
  {
    assert v.core[k] in v.core;
    Value(v.core[k])
  }

  ghost predicate CoreBelow(a: Version, b: Version)
    requires ValidVersion(a) && ValidVersion(b)
  {
    exists k :: 0 <= k < 3 && CoreDecidedAt(a, b, k)
  }

  ghost predicate CoreDecidedAt(a: Version, b: Version, k: nat)
    requires ValidVersion(a) && ValidVersion(b) && k < 3
  {
    && (forall j | 0 <= j < k :: Part(a, j) == Part(b, j))
    && Part(a, k) < Part(b, k)
  }

  // "lexically in ASCII sort order"
  ghost predicate TextBelow(a: string, b: string) {
    a < b || exists k: nat :: k < |a| && k < |b| && a[..k] == b[..k] && a[k] < b[k]
  }

  ghost predicate IdentifierBelow(a: string, b: string) {
    if AllDigits(a) && AllDigits(b) then Value(a) < Value(b)
    else if AllDigits(a) || AllDigits(b) then AllDigits(a)
    else TextBelow(a, b)
  }

  ghost predicate PreDecidedAt(a: seq<string>, b: seq<string>, k: nat) {
    k < |a| && k < |b| && a[..k] == b[..k] && IdentifierBelow(a[k], b[k])
  }

  ghost predicate PreBelow(a: Version, b: Version) {
    if b.pre == [] then a.pre != []
    else a.pre != [] && (a.pre < b.pre || exists k: nat :: PreDecidedAt(a.pre, b.pre, k))
  }

  ghost predicate Precedes(a: Version, b: Version)
    requires ValidVersion(a) && ValidVersion(b)
  {
    CoreBelow(a, b) || (a.core == b.core && PreBelow(a, b))
  }

  // ---- Agreement ----

  lemma {:induction false} SameLengthValue(a: string, b: string)
    requires |a| == |b| && AllDigits(a) && AllDigits(b)
    ensures CompareText(a, b) == CompareInt(Value(a), Value(b))
  {
    if a != "" {
      var n := |a| - 1;
      SameLengthValue(a[..n], b[..n]);
      LastDecides(a[..n], b[..n], a[n], b[n]);
      assert a == a[..n] + [a[n]] && b == b[..n] + [b[n]];
    }
  }

  lemma {:induction false} LastDecides(a: string, b: string, x: char, y: char)
    requires |a| == |b|
    ensures CompareText(a + [x], b + [y]) == CompareText(a, b).Then(CompareChar(x, y))
  {
    if a != "" {
      LastDecides(a[1..], b[1..], x, y);
      assert (a + [x])[1..] == a[1..] + [x] && (b + [y])[1..] == b[1..] + [y];
    } else {
      assert (a + [x])[1..] == "" && (b + [y])[1..] == "";
    }
  }

  // Length first, then text, is exactly the order of the numbers.
  lemma NumberAgrees(a: string, b: string)
    requires Numeric(a) && Numeric(b)
    ensures CompareNumber(a, b) == CompareInt(Value(a), Value(b))
  {
    if |a| < |b| {
      LongerIsLarger(a, b);
    } else if |b| < |a| {
      LongerIsLarger(b, a);
    } else {
      SameLengthValue(a, b);
    }
  }

  lemma NumeralIsUnique(a: string, b: string)
    requires Numeric(a) && Numeric(b)
    ensures Value(a) == Value(b) <==> a == b
  {
    NumberAgrees(a, b);
    NumberIsOrdered();
  }

  lemma CoreAgrees(a: Version, b: Version)
    requires ValidVersion(a) && ValidVersion(b)
    ensures CompareCore(a.core, b.core) == Less <==> CoreBelow(a, b)
  {
    NumberIsOrdered();
    LexicographicMeaning(CompareNumber, a.core, b.core);
    forall k | 0 <= k < 3
      ensures (a.core[k] == b.core[k] <==> Part(a, k) == Part(b, k))
           && (CompareNumber(a.core[k], b.core[k]) == Less <==> Part(a, k) < Part(b, k))
    {
      assert a.core[k] in a.core && b.core[k] in b.core;
      NumberAgrees(a.core[k], b.core[k]);
      NumeralIsUnique(a.core[k], b.core[k]);
    }
    forall k: nat | k < 3 ensures FirstDifference(CompareNumber, a.core, b.core, k) <==> CoreDecidedAt(a, b, k) {
      assert (forall j | 0 <= j < k :: a.core[j] == b.core[j]) <==> a.core[..k] == b.core[..k] by {
        forall j | 0 <= j < k ensures a.core[..k][j] == a.core[j] && b.core[..k][j] == b.core[j] {}
      }
    }
    if CompareCore(a.core, b.core) == Less {
      var k: nat :| FirstDifference(CompareNumber, a.core, b.core, k);
      assert CoreDecidedAt(a, b, k);
    }
    if CoreBelow(a, b) {
      var k :| 0 <= k < 3 && CoreDecidedAt(a, b, k);
      assert FirstDifference(CompareNumber, a.core, b.core, k);
    }
  }

  lemma TextAgrees(a: string, b: string)
    ensures CompareText(a, b) == Less <==> TextBelow(a, b)
  {
    CharIsOrdered();
    LexicographicMeaning(CompareChar, a, b);
    if k: nat :| FirstDifference(CompareChar, a, b, k) {
      assert a[..k] == b[..k] && a[k] < b[k];
    }
    if k: nat :| k < |a| && k < |b| && a[..k] == b[..k] && a[k] < b[k] {
      assert FirstDifference(CompareChar, a, b, k);
    }
  }

  lemma IdentifierAgrees(a: string, b: string)
    requires AllDigits(a) ==> Numeric(a)
    requires AllDigits(b) ==> Numeric(b)
    ensures CompareIdentifier(a, b) == Less <==> IdentifierBelow(a, b)
  {
    TextAgrees(a, b);
    if AllDigits(a) && AllDigits(b) {
      NumberAgrees(a, b);
    }
  }

  lemma PreAgrees(a: Version, b: Version)
    requires ValidVersion(a) && ValidVersion(b)
    ensures ComparePre(a.pre, b.pre) == Less <==> PreBelow(a, b)
  {
    IdentifierIsOrdered();
    LexicographicMeaning(CompareIdentifier, a.pre, b.pre);
    forall k: nat | k < |a.pre| && k < |b.pre|
      ensures FirstDifference(CompareIdentifier, a.pre, b.pre, k) <==> PreDecidedAt(a.pre, b.pre, k)
    {
      assert a.pre[k] in a.pre && b.pre[k] in b.pre;
      IdentifierAgrees(a.pre[k], b.pre[k]);
    }
    if k: nat :| FirstDifference(CompareIdentifier, a.pre, b.pre, k) {
      assert PreDecidedAt(a.pre, b.pre, k);
    }
    if k: nat :| PreDecidedAt(a.pre, b.pre, k) {
      assert FirstDifference(CompareIdentifier, a.pre, b.pre, k);
    }
  }

  lemma CompareAgreesWithSection11(a: Version, b: Version)
    requires ValidVersion(a) && ValidVersion(b)
    ensures Compare(a, b) == Less <==> Precedes(a, b)
  {
    CoreAgrees(a, b);
    PreAgrees(a, b);
    NumberIsOrdered();
    LexicographicEqual(CompareNumber, a.core, b.core);
  }
}
