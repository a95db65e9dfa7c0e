// Splitting, joining and folding text the way the standard library does.
module Texts {
  import opened Results

  // `str::split`: always at least one part.
  function Split(s: string, separator: char): (parts: seq<string>)
    ensures |parts| >= 1
  {
    if s == "" then [""]
    else
      var rest := Split(s[1..], separator);
      if s[0] == separator then [""] + rest
      else [[s[0]] + rest[0]] + rest[1..]
  }

  function Join(parts: seq<string>, separator: char): string
    requires |parts| >= 1
  {
    if |parts| == 1 then parts[0] else parts[0] + [separator] + Join(parts[1..], separator)
  }

  // `str::split_once`: cut at the first separator.
  function Index(s: string, c: char): (i: nat)
    ensures i <= |s|
    ensures c !in s[..i] && (i < |s| ==> s[i] == c)
  {
    if s == "" || s[0] == c then 0
    else
      assert s[..1 + Index(s[1..], c)] == [s[0]] + s[1..][..Index(s[1..], c)];
      1 + Index(s[1..], c)
  }

  datatype Cut = Cut(head: string, tail: Option<string>)

  function SplitOnce(s: string, separator: char): Cut {
    var i := Index(s, separator);
    if i == |s| then Cut(s, None) else Cut(s[..i], Some(s[i + 1..]))
  }

  function Rejoin(cut: Cut, separator: char): string {
    match cut.tail
    case None => cut.head
    case Some(tail) => cut.head + [separator] + tail
  }

  lemma {:induction false} IndexIsFirst(s: string, c: char, i: nat)
    requires i <= |s| && c !in s[..i] && (i < |s| ==> s[i] == c)
    ensures Index(s, c) == i
  {
    if i > 0 {
      assert s[0] == s[..i][0];
      assert s[1..][..i - 1] == s[..i][1..];
      IndexIsFirst(s[1..], c, i - 1);
    }
  }

  lemma SplitOnceMeaning(s: string, separator: char, cut: Cut)
    ensures SplitOnce(s, separator) == cut <==> s == Rejoin(cut, separator) && separator !in cut.head
  {
    if s == Rejoin(cut, separator) && separator !in cut.head {
      assert s[..|cut.head|] == cut.head;
      IndexIsFirst(s, separator, |cut.head|);
    }
  }

  lemma {:induction false} SplitJoin(s: string, separator: char)
    ensures Join(Split(s, separator), separator) == s
    ensures forall p | p in Split(s, separator) :: separator !in p
  {
    if s != "" {
      var rest := Split(s[1..], separator);
      SplitJoin(s[1..], separator);
      var parts := Split(s, separator);
      assert s == [s[0]] + s[1..];
      if s[0] == separator {
        assert parts[1..] == rest;
      } else {
        assert rest[0] in rest;
        assert parts[1..] == rest[1..];
        forall p | p in parts ensures separator !in p {
          if p != parts[0] { assert p in rest; }
        }
      }
    }
  }

  lemma {:induction false} SplitPrefix(p: string, s: string, separator: char)
    requires separator !in p
    ensures Split(p + s, separator) == [p + Split(s, separator)[0]] + Split(s, separator)[1..]
  {
    if p == "" {
      assert p + s == s;
      assert p + Split(s, separator)[0] == Split(s, separator)[0];
    } else {
      SplitPrefix(p[1..], s, separator);
      assert (p + s)[1..] == p[1..] + s;
      assert (p + s)[0] == p[0] && p[0] in p;
      assert [p[0]] + (p[1..] + Split(s, separator)[0]) == p + Split(s, separator)[0];
    }
  }

  lemma {:induction false} JoinSplit(parts: seq<string>, separator: char)
    requires |parts| >= 1 && forall p | p in parts :: separator !in p
    ensures Split(Join(parts, separator), separator) == parts
  {
    if |parts| == 1 {
      SplitPrefix(parts[0], "", separator);
      assert parts[0] + "" == parts[0];
    } else {
      var tail := [separator] + Join(parts[1..], separator);
      JoinSplit(parts[1..], separator);
      assert tail[1..] == Join(parts[1..], separator);
      SplitPrefix(parts[0], tail, separator);
      assert parts[0] + [separator] + Join(parts[1..], separator) == parts[0] + tail;
      assert parts[0] + "" == parts[0];
    }
  }

  // ---- Parts, by their places ----

  // s[i..j] is what stands between two separators, or an end and one.
  ghost predicate Segment(s: string, separator: char, i: nat, j: nat) {
    && i <= j <= |s| && separator !in s[i..j]
    && (i > 0 ==> s[i - 1] == separator)
    && (j < |s| ==> s[j] == separator)
  }

  lemma SplitFirst(s: string, separator: char)
    ensures var i := Index(s, separator);
            Split(s, separator) == [s[..i]] + if i == |s| then [] else Split(s[i + 1..], separator)
  {
    var i := Index(s, separator);
    SplitPrefix(s[..i], s[i..], separator);
    assert s[..i] + s[i..] == s;
    if i < |s| {
      assert s[i..][1..] == s[i + 1..];
      assert s[..i] + "" == s[..i];
    } else {
      assert s[i..] == "" && s[..i] + "" == s[..i];
    }
  }

  lemma SegmentLater(s: string, separator: char, i: nat, k: nat, m: nat)
    requires i < |s| && s[i] == separator && Segment(s[i + 1..], separator, k, m)
    ensures Segment(s, separator, i + 1 + k, i + 1 + m) && s[i + 1 + k..i + 1 + m] == s[i + 1..][k..m]
  {
    assert s[i + 1 + k..i + 1 + m] == s[i + 1..][k..m];
  }

  lemma {:induction false} SplitSegments(s: string, separator: char, part: string)
    ensures part in Split(s, separator) <==> exists i: nat, j: nat :: Segment(s, separator, i, j) && part == s[i..j]
    decreases |s|
  {
    var n := Index(s, separator);
    SplitFirst(s, separator);
    assert Segment(s, separator, 0, n);
    if n < |s| {
      var rest := s[n + 1..];
      SplitSegments(rest, separator, part);
      if k: nat, m: nat :| Segment(rest, separator, k, m) && part == rest[k..m] {
        SegmentLater(s, separator, n, k, m);
      }
    }
    if k: nat, m: nat :| Segment(s, separator, k, m) && part == s[k..m] {
      SegmentPlace(s, separator, n, k, m);
    }
  }

  lemma SegmentPlace(s: string, separator: char, i: nat, k: nat, m: nat)
    requires Segment(s, separator, k, m) && i <= |s| && separator !in s[..i] && (i < |s| ==> s[i] == separator)
    ensures if k == 0 then m == i else i < k && i < |s| && Segment(s[i + 1..], separator, k - i - 1, m - i - 1)
                                       && s[i + 1..][k - i - 1..m - i - 1] == s[k..m]
  {
    forall q | 0 <= q < i ensures s[q] != separator {
      assert s[q] in s[..i];
    }
    forall q | k <= q < m ensures s[q] != separator {
      assert s[q] in s[k..m];
    }
    if k > 0 {
      assert i < k && i < |s|;
      var rest := s[i + 1..];
      assert rest[k - i - 1..m - i - 1] == s[k..m];
      assert k - i - 1 > 0 ==> rest[k - i - 2] == s[k - 1];
    }
  }

  // ---- ASCII case ----

  function LowerChar(c: char): char {
    if 'A' <= c <= 'Z' then (c as int + 32) as char else c
  }

  // `to_ascii_lowercase`
  function Lower(s: string): (r: string)
    ensures |r| == |s| && forall i | 0 <= i < |s| :: r[i] == LowerChar(s[i])
  {
    seq(|s|, i requires 0 <= i < |s| => LowerChar(s[i]))
  }

  // The same letter, in either case, or the same character.
  predicate SameLetter(c: char, d: char) {
    || c == d
    || ('A' <= c <= 'Z' && d as int == c as int + 32)
    || ('A' <= d <= 'Z' && c as int == d as int + 32)
  }

  lemma LowerMeaning(a: string, b: string)
    ensures Lower(a) == Lower(b) <==> |a| == |b| && forall i | 0 <= i < |a| :: SameLetter(a[i], b[i])
  {
    if Lower(a) == Lower(b) {
      forall i | 0 <= i < |a| ensures SameLetter(a[i], b[i]) {
        assert Lower(a)[i] == Lower(b)[i];
      }
    }
  }

  lemma LowerAppend(a: string, b: string)
    ensures Lower(a + b) == Lower(a) + Lower(b)
  {
  }
}
