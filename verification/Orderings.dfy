// Three-way comparison and its lexicographic lifting to sequences.
module Orderings {
  datatype Ordering = Less | Equal | Greater {
    function Flip(): Ordering {
      match this
      case Less => Greater
      case Equal => Equal
      case Greater => Less
    }

    function Then(next: Ordering): Ordering {
      if this == Equal then next else this
    }
  }

  function CompareInt(a: int, b: int): Ordering {
    if a < b then Less else if a == b then Equal else Greater
  }

  // Element by element, then by length.
  function Lexicographic<T>(compare: (T, T) -> Ordering, a: seq<T>, b: seq<T>): Ordering {
    if a == [] || b == [] then CompareInt(|a|, |b|)
    else compare(a[0], b[0]).Then(Lexicographic(compare, a[1..], b[1..]))
  }

  ghost predicate TotalOrder<T(!new)>(compare: (T, T) -> Ordering) {
    && (forall a, b :: compare(a, b) == Equal <==> a == b)
    && (forall a, b :: compare(b, a) == compare(a, b).Flip())
    && (forall a, b, c :: compare(a, b) == Less && compare(b, c) == Less ==> compare(a, c) == Less)
  }

  lemma {:induction false} LexicographicEqual<T(!new)>(compare: (T, T) -> Ordering, a: seq<T>, b: seq<T>)
    requires TotalOrder(compare)
    ensures Lexicographic(compare, a, b) == Equal <==> a == b
  {
    if a != [] && b != [] {
      LexicographicEqual(compare, a[1..], b[1..]);
      assert a == [a[0]] + a[1..] && b == [b[0]] + b[1..];
    }
  }

  lemma {:induction false} LexicographicFlips<T(!new)>(compare: (T, T) -> Ordering, a: seq<T>, b: seq<T>)
    requires TotalOrder(compare)
    ensures Lexicographic(compare, b, a) == Lexicographic(compare, a, b).Flip()
  {
    if a != [] && b != [] {
      LexicographicFlips(compare, a[1..], b[1..]);
    }
  }

  lemma {:induction false} LexicographicTransitive<T(!new)>(compare: (T, T) -> Ordering, a: seq<T>, b: seq<T>, c: seq<T>)
    requires TotalOrder(compare)
    requires Lexicographic(compare, a, b) == Less && Lexicographic(compare, b, c) == Less
    ensures Lexicographic(compare, a, c) == Less
  {
    if a != [] && b != [] && c != [] {
      if compare(a[0], b[0]) == Equal && compare(b[0], c[0]) == Equal {
        LexicographicTransitive(compare, a[1..], b[1..], c[1..]);
      }
    }
  }

  // The first position where two sequences differ decides.
  ghost predicate FirstDifference<T>(compare: (T, T) -> Ordering, a: seq<T>, b: seq<T>, k: nat) {
    k < |a| && k < |b| && a[..k] == b[..k] && compare(a[k], b[k]) == Less
  }

  lemma {:induction false} LexicographicMeaning<T(!new)>(compare: (T, T) -> Ordering, a: seq<T>, b: seq<T>)
    requires TotalOrder(compare)
    ensures Lexicographic(compare, a, b) == Less <==>
            a < b || exists k: nat :: FirstDifference(compare, a, b, k)
  {
    if a != [] && b != [] {
      var x, y := a[1..], b[1..];
      LexicographicMeaning(compare, x, y);
      assert a == [a[0]] + x && b == [b[0]] + y;
      if Lexicographic(compare, a, b) == Less {
        if a[0] != b[0] {
          assert FirstDifference(compare, a, b, 0);
        } else if !(x < y) {
          var k: nat :| FirstDifference(compare, x, y, k);
          assert a[..k + 1] == [a[0]] + x[..k] && b[..k + 1] == [b[0]] + y[..k];
          assert FirstDifference(compare, a, b, k + 1);
        }
      }
      if a < b {
        assert a == b[..|a|];
        assert x == y[..|x|];
        assert a[0] == b[0];
      } else if k: nat :| FirstDifference(compare, a, b, k) {
        if k > 0 {
          assert a[0] == a[..k][0] == b[..k][0] == b[0];
          assert x[..k - 1] == a[..k][1..] && y[..k - 1] == b[..k][1..];
          assert FirstDifference(compare, x, y, k - 1);
        }
      }
    } else {
      assert forall k: nat :: !FirstDifference(compare, a, b, k);
    }
  }
}
