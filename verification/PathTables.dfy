// Relative paths, and the tables that keep two of them from claiming the same
// place on a case-insensitive disk.
module PathTables {
  import opened Results
  import opened Texts

  const MAX_PATHS: nat := 8704

  // ---- `relative_path` ----

  predicate PathChar(c: char) {
    'a' <= c <= 'z' || 'A' <= c <= 'Z' || '0' <= c <= '9' || c in "_ .-"
  }

  function UpperChar(c: char): char {
    if 'a' <= c <= 'z' then (c as int - 32) as char else c
  }

  function Upper(s: string): string {
    seq(|s|, i requires 0 <= i < |s| => UpperChar(s[i]))
  }

  function TrimSpaces(s: string): string {
    if s != "" && s[|s| - 1] == ' ' then TrimSpaces(s[..|s| - 1]) else s
  }

  predicate DeviceStem(stem: string) {
    || stem in ["CON", "PRN", "AUX", "NUL"]
    || (|stem| == 4 && (stem[..3] == "COM" || stem[..3] == "LPT") && '1' <= stem[3] <= '9')
  }

  predicate ValidPart(part: string) {
    && part != ""
    && (forall i | 0 <= i < |part| :: PathChar(part[i]))
    && part != "." && part != ".."
    && part[|part| - 1] != '.' && part[|part| - 1] != ' '
    && !DeviceStem(Upper(TrimSpaces(Split(part, '.')[0])))
  }

  predicate Relative(value: string) {
    value != "" && |value| <= 240 && forall part | part in Split(value, '/') :: ValidPart(part)
  }

  function RelativePath(value: string): Option<string> {
    if Relative(value) then Some(Lower(value)) else None
  }

  // ---- What a relative path is, by its places ----

  // One of the names that Windows reserves for devices.
  ghost predicate IsDevice(name: string) {
    name in ["CON", "PRN", "AUX", "NUL"] || exists digit | digit in "123456789" :: name == "COM" + [digit] || name == "LPT" + [digit]
  }

  // Before the first dot, or the end, stands a device name in either case, and then only spaces.
  ghost predicate NamesDevice(part: string) {
    exists name, n: nat :: IsDevice(name) && NamedUpTo(part, name, n)
  }

  ghost predicate NamedUpTo(part: string, name: string, n: nat) {
    && |name| <= n <= |part| && (n < |part| ==> part[n] == '.')
    && (forall i | 0 <= i < |name| :: SameLetter(part[i], name[i]))
    && forall i | |name| <= i < n :: part[i] == ' '
  }

  predicate MayStand(c: char) {
    ' ' <= c <= 'z' && c !in "!\"#$%&'()*+,/:;<=>?@[\\]^`"
  }

  // Not empty, ".", ".." or reserved, without any character that a path may not hold, and not ending in a dot or a space.
  ghost predicate GoodPart(part: string) {
    && part != "" && part != "." && part != ".."
    && (forall c | c in part :: MayStand(c))
    && part[|part| - 1] != '.' && part[|part| - 1] != ' '
    && !NamesDevice(part)
  }

  ghost predicate IsRelative(value: string) {
    && 0 < |value| <= 240
    && forall i: nat, j: nat | Segment(value, '/', i, j) :: GoodPart(value[i..j])
  }

  lemma {:induction false} TrimmedAt(s: string, k: nat)
    requires k <= |s| && (forall i | k <= i < |s| :: s[i] == ' ') && (k > 0 ==> s[k - 1] != ' ')
    ensures TrimSpaces(s) == s[..k]
  {
    if k < |s| {
      TrimmedAt(s[..|s| - 1], k);
      assert s[..|s| - 1][..k] == s[..k];
    } else {
      assert s[..k] == s;
    }
  }

  lemma {:induction false} TrimMeaning(s: string)
    ensures TrimSpaces(s) <= s && forall i | |TrimSpaces(s)| <= i < |s| :: s[i] == ' '
  {
    if s != "" && s[|s| - 1] == ' ' {
      TrimMeaning(s[..|s| - 1]);
    }
  }

  lemma DeviceMeaning(stem: string)
    ensures DeviceStem(stem) <==> IsDevice(stem)
  {
    if |stem| == 4 && '1' <= stem[3] <= '9' {
      assert stem == stem[..3] + [stem[3]];
      assert stem[3] in "123456789";
    }
  }

  lemma UpperMeaning(s: string, name: string)
    requires IsDevice(name)
    ensures Upper(s) == name <==> |s| == |name| && forall i | 0 <= i < |name| :: SameLetter(s[i], name[i])
  {
    forall i | 0 <= i < |name| ensures 'A' <= name[i] <= 'Z' || '1' <= name[i] <= '9' {
      DeviceLetters(name, i);
    }
    if Upper(s) == name {
      forall i | 0 <= i < |name| ensures SameLetter(s[i], name[i]) {
        assert Upper(s)[i] == name[i];
      }
    }
  }

  lemma DeviceLetters(name: string, i: nat)
    requires IsDevice(name) && i < |name|
    ensures 'A' <= name[i] <= 'Z' || '1' <= name[i] <= '9'
  {
    if digit :| digit in "123456789" && (name == "COM" + [digit] || name == "LPT" + [digit]) {
    }
  }

  lemma NamesDeviceMeaning(part: string)
    ensures NamesDevice(part) <==> DeviceStem(Upper(TrimSpaces(Split(part, '.')[0])))
  {
    var n := Index(part, '.');
    var stem := part[..n];
    var name := Upper(TrimSpaces(stem));
    SplitFirst(part, '.');
    DeviceMeaning(name);
    if IsDevice(name) {
      TrimMeaning(stem);
      UpperMeaning(TrimSpaces(stem), name);
      assert NamedUpTo(part, name, n);
    }
    if d, m: nat :| IsDevice(d) && NamedUpTo(part, d, m) {
      NamedStem(part, d, m);
    }
  }

  lemma NamedStem(part: string, d: string, m: nat)
    requires IsDevice(d) && NamedUpTo(part, d, m)
    ensures m == Index(part, '.') && Upper(TrimSpaces(part[..m])) == d
  {
    forall i | 0 <= i < |d| ensures part[i] != '.' && part[i] != ' ' {
      DeviceLetters(d, i);
    }
    IndexIsFirst(part, '.', m);
    TrimmedAt(part[..m], |d|);
    assert part[..m][..|d|] == part[..|d|];
    UpperMeaning(part[..|d|], d);
  }

  lemma PartMeaning(part: string)
    ensures ValidPart(part) <==> GoodPart(part)
  {
    NamesDeviceMeaning(part);
    CharsMeaning(part);
  }

  lemma CharsMeaning(part: string)
    ensures (forall i | 0 <= i < |part| :: PathChar(part[i])) <==> forall c | c in part :: MayStand(c)
  {
    forall i | 0 <= i < |part| ensures part[i] in part && (PathChar(part[i]) <==> MayStand(part[i])) {
      CharMeaning(part[i]);
    }
  }

  lemma CharMeaning(c: char)
    ensures PathChar(c) <==> MayStand(c)
  {
  }

  lemma RelativeMeaning(value: string)
    ensures Relative(value) <==> IsRelative(value)
  {
    forall part ensures part in Split(value, '/') <==> exists i: nat, j: nat :: Segment(value, '/', i, j) && part == value[i..j] {
      SplitSegments(value, '/', part);
    }
    forall part ensures ValidPart(part) <==> GoodPart(part) {
      PartMeaning(part);
    }
    forall i: nat, j: nat | Segment(value, '/', i, j) ensures value[i..j] in Split(value, '/') {
    }
  }

  // ---- Overlap ----

  // a is a directory on the way to b.
  predicate Ancestor(a: string, b: string) {
    |a| < |b| && b[..|a|] == a && b[|a|] == '/'
  }

  predicate Overlaps(a: string, b: string) {
    a == b || Ancestor(a, b) || Ancestor(b, a)
  }

  // Two names claim the same place when they are equal or one lies under the other.
  lemma OverlapMeaning(a: string, b: string)
    ensures Overlaps(a, b) <==> a == b || (exists rest: string :: a == b + "/" + rest) || (exists rest: string :: b == a + "/" + rest)
  {
    UnderMeaning(a, b);
    UnderMeaning(b, a);
  }

  lemma UnderMeaning(a: string, b: string)
    ensures Ancestor(a, b) <==> exists rest: string :: b == a + "/" + rest
  {
    if Ancestor(a, b) {
      assert b == a + "/" + b[|a| + 1..];
    }
    if rest: string :| b == a + "/" + rest {
      assert b[..|a|] == a && b[|a|] == '/';
    }
  }

  // The pairwise specification of a set of deployment paths.
  ghost predicate ValidPaths(paths: set<string>) {
    && |paths| <= MAX_PATHS
    && (forall p {:trigger Relative(p)} | p in paths :: Relative(p))
    && (forall p, q {:trigger Overlaps(Lower(p), Lower(q))} | p in paths && q in paths && p != q :: !Overlaps(Lower(p), Lower(q)))
  }

  // `Path::parent` of a relative path with forward slashes.
  function Parent(path: string): (r: Option<string>)
    ensures r.Some? ==> |r.value| < |path|
  {
    if path == "" then None
    else if path[|path| - 1] == '/' then Some(path[..|path| - 1])
    else
      var rest := Parent(path[..|path| - 1]);
      if rest.None? then Some("") else rest
  }

  lemma {:induction false} ParentIsNearest(path: string)
    requires path != ""
    ensures Parent(path).Some?
    ensures Parent(path).value == "" || Ancestor(Parent(path).value, path)
    ensures forall a | a != "" && Ancestor(a, path) :: a == Parent(path).value || Ancestor(a, Parent(path).value)
  {
    var n := |path| - 1;
    var init := path[..n];
    if path[n] == '/' {
      forall a | a != "" && Ancestor(a, path) ensures a == init || Ancestor(a, init) {
        assert init[..|a|] == path[..|a|];
      }
    } else if init != "" {
      ParentIsNearest(init);
      forall a | a != "" && Ancestor(a, path) ensures Ancestor(a, init) {
        assert init[..|a|] == path[..|a|];
      }
      var up := Parent(path).value;
      if up != "" {
        assert path[..|up|] == init[..|up|];
      }
    }
  }

  lemma AncestorTransitive(a: string, b: string, c: string)
    requires Ancestor(a, b) && Ancestor(b, c)
    ensures Ancestor(a, c)
  {
    assert c[..|a|] == b[..|a|];
  }

  // The walk up from one path meets a member of the table exactly when some
  // member is an ancestor of it.
  method FindAncestor(paths: set<string>, path: string) returns (found: bool)
    requires path != "" && "" !in paths
    ensures found <==> exists a :: a in paths && Ancestor(a, path)
  {
    var parent := Parent(path);
    ParentIsNearest(path);
    while parent.Some?
      invariant parent.Some? && parent.value != "" ==> Ancestor(parent.value, path)
      invariant forall a | a in paths && Ancestor(a, path) ::
        parent.Some? && (a == parent.value || Ancestor(a, parent.value))
      decreases if parent.Some? then 1 + |parent.value| else 0
    {
      var part := parent.value;
      if part in paths {
        return true;
      }
      parent := Parent(part);
      if part != "" {
        ParentIsNearest(part);
        if parent.value != "" {
          AncestorTransitive(parent.value, part, path);
        }
      }
    }
    found := false;
  }

  ghost predicate LowerOf(folded: set<string>, files: set<string>) {
    forall f :: f in folded <==> exists p :: p in files && Lower(p) == f
  }

  ghost predicate CaseDistinct(files: set<string>) {
    forall p, q | p in files && q in files && p != q :: Lower(p) != Lower(q)
  }

  method FoldPaths(files: set<string>) returns (folded: Option<set<string>>)
    ensures folded.Some? <==> CaseDistinct(files) && forall p | p in files :: Relative(p)
    ensures folded.Some? ==> LowerOf(folded.value, files)
  {
    var todo, paths := files, {};
    while todo != {}
      invariant todo <= files && LowerOf(paths, files - todo) && CaseDistinct(files - todo)
      invariant forall p | p in files - todo :: Relative(p)
    {
      var path :| path in todo;
      if RelativePath(path).None? || Lower(path) in paths {
        return None;
      }
      assert files - (todo - {path}) == (files - todo) + {path};
      todo, paths := todo - {path}, paths + {Lower(path)};
    }
    assert files - todo == files;
    return Some(paths);
  }

  lemma ValidPathsFold(files: set<string>)
    requires ValidPaths(files)
    ensures CaseDistinct(files) && forall p | p in files :: Relative(p)
  {
    forall p, q | p in files && q in files && p != q ensures Lower(p) != Lower(q) {
      assert !Overlaps(Lower(p), Lower(q));
    }
  }

  // `validate_files`: one table of folded paths and a walk up from each of them
  // decide the pairwise specification.
  method ValidateFiles(files: set<string>) returns (valid: bool)
    ensures valid <==> ValidPaths(files)
  {
    if |files| > MAX_PATHS {
      return false;
    }
    var folded := FoldPaths(files);
    if folded.None? {
      if ValidPaths(files) {
        ValidPathsFold(files);
      }
      return false;
    }
    var paths := folded.value;
    var todo := paths;
    while todo != {}
      invariant todo <= paths
      invariant forall p, a | p in paths - todo && a in paths :: !Ancestor(a, p)
    {
      var path :| path in todo;
      var overlap := FindAncestor(paths, path);
      if overlap {
        ghost var a :| a in paths && Ancestor(a, path);
        ghost var p :| p in files && Lower(p) == path;
        ghost var q :| q in files && Lower(q) == a;
        assert Overlaps(Lower(p), Lower(q));
        return false;
      }
      todo := todo - {path};
    }
    return true;
  }

  lemma ValidPathsOfSubset(files: set<string>, fewer: set<string>)
    requires ValidPaths(files) && fewer <= files
    ensures ValidPaths(fewer)
  {
    Fewer(files, fewer);
  }

  lemma Fewer(a: set<string>, b: set<string>)
    requires b <= a
    ensures |b| <= |a|
  {
    assert a == b + (a - b);
  }
}
