// The collision table of an archive: entry names folded by case, and the
// directories their paths pass through.
module ArchiveTable {
  import opened Results
  import opened Texts
  import opened PathTables

  // One archive entry: its name without a trailing slash, and whether it is a directory.
  datatype Entry = Entry(name: string, directory: bool)

  type Table = map<string, Entry>

  // ---- What acceptance means ----

  ghost predicate NamesDistinct(entries: seq<Entry>) {
    forall i, j | 0 <= i < j < |entries| :: Lower(entries[i].name) != Lower(entries[j].name)
  }

  // The directory d, on the way to one entry, agrees with the entry e: e is not a
  // file of that name, and spells it the same way.
  predicate AgreesWithEntry(d: string, e: Entry) {
    Lower(e.name) == Lower(d) ==> e.directory && e.name == d
  }

  ghost predicate EntriesAgree(entries: seq<Entry>) {
    forall a, e, d | a in entries && e in entries && Ancestor(d, a.name) :: AgreesWithEntry(d, e)
  }

  predicate SameSpelling(d: string, d': string) {
    Lower(d) == Lower(d') ==> d == d'
  }

  ghost predicate OneSpelling(entries: seq<Entry>) {
    forall a, b, d, d' | a in entries && b in entries && Ancestor(d, a.name) && Ancestor(d', b.name) :: SameSpelling(d, d')
  }

  ghost predicate Consistent(entries: seq<Entry>) {
    && (forall e | e in entries :: Relative(e.name))
    && NamesDistinct(entries)
    && EntriesAgree(entries)
    && OneSpelling(entries)
  }

  // ---- The table of names ----

  ghost predicate NamesTable(entries: seq<Entry>, names: Table) {
    && (forall e | e in entries :: Lower(e.name) in names && names[Lower(e.name)] == e)
    && (forall f | f in names :: names[f] in entries && Lower(names[f].name) == f)
  }

  method CollectNames(entries: seq<Entry>) returns (names: Option<Table>)
    ensures names.Some? <==> NamesDistinct(entries) && forall e | e in entries :: Relative(e.name)
    ensures names.Some? ==> NamesTable(entries, names.value)
  {
    var table: Table := map[];
    for index := 0 to |entries|
      invariant NamesTable(entries[..index], table)
      invariant NamesDistinct(entries[..index]) && forall e | e in entries[..index] :: Relative(e.name)
    {
      var entry := entries[index];
      assert entry in entries;
      assert entries[..index + 1] == entries[..index] + [entry];
      var normalized := RelativePath(entry.name);
      if normalized.None? {
        return None;
      }
      if normalized.value in table {
        assert table[normalized.value] in entries[..index];
        return None;
      }
      table := table[normalized.value := entry];
    }
    assert entries[..|entries|] == entries;
    return Some(table);
  }

  // ---- The table of directories ----

  // What the table holds under f: an entry of that name, or a directory passed through.
  ghost predicate Listed(names: Table, dirs: set<string>, f: string, e: Entry) {
    (f in names && names[f] == e) || (e.directory && e.name in dirs && f == Lower(e.name))
  }

  ghost predicate DirectoryTable(names: Table, dirs: set<string>, directories: Table) {
    forall f, e :: (f in directories && directories[f] == e) <==> Listed(names, dirs, f, e)
  }

  // The directories on the way to a name, shortest first, as the loop builds them
  // from its parts.
  function Prefix(parts: seq<string>, k: nat): string
    requires 0 < k <= |parts|
  {
    Join(parts[..k], '/')
  }

  lemma {:induction false} PrefixGrows(parts: seq<string>, k: nat)
    requires 0 < k < |parts|
    ensures Prefix(parts, k + 1) == Prefix(parts, k) + "/" + parts[k]
  {
    if k == 1 {
      assert parts[..2][1..] == [parts[1]] && parts[..1] == [parts[0]];
      assert Join(parts[..2], '/') == parts[0] + ['/'] + Join([parts[1]], '/');
    } else {
      var rest := parts[1..];
      PrefixGrows(rest, k - 1);
      assert rest[..k] == parts[..k + 1][1..] && rest[..k - 1] == parts[..k][1..];
      var x, y := parts[0] + ['/'], Prefix(rest, k - 1);
      assert x + (y + "/" + parts[k]) == (x + y) + "/" + parts[k];
    }
  }

  lemma {:induction false} PrefixIsAncestor(parts: seq<string>, k: nat)
    requires 0 < k < |parts|
    ensures Ancestor(Prefix(parts, k), Join(parts, '/'))
    decreases |parts| - k
  {
    PrefixGrows(parts, k);
    if k + 1 == |parts| {
      assert parts[..|parts|] == parts;
    } else {
      PrefixIsAncestor(parts, k + 1);
      var a, b, name := Prefix(parts, k), Prefix(parts, k + 1), Join(parts, '/');
      assert name[..|a|] == b[..|a|];
    }
  }

  lemma {:induction false} AncestorIsPrefix(parts: seq<string>, d: string)
    requires |parts| >= 1 && (forall p | p in parts :: '/' !in p)
    requires Ancestor(d, Join(parts, '/'))
    ensures exists k :: 0 < k < |parts| && d == Prefix(parts, k)
  {
    var name := Join(parts, '/');
    assert parts[0] in parts;
    if |parts| > 1 {
      var rest := Join(parts[1..], '/');
      var n := |parts[0]|;
      if |d| == n {
        assert d == parts[0];
        assert parts[..1] == [parts[0]];
        assert d == Prefix(parts, 1);
      } else if |d| > n {
        var tail := d[n + 1..];
        assert name == parts[0] + ['/'] + rest;
        assert d == name[..|d|];
        assert d == parts[0] + ['/'] + tail;
        assert rest[..|tail|] == tail && rest[|tail|] == '/';
        AncestorIsPrefix(parts[1..], tail);
        var k :| 0 < k < |parts| - 1 && tail == Prefix(parts[1..], k);
        assert parts[..k + 1][1..] == parts[1..][..k];
        assert d == Prefix(parts, k + 1);
      }
    }
  }

  ghost function Prefixes(parts: seq<string>, upto: nat): set<string>
    requires upto <= |parts|
  {
    set k | 0 < k < upto :: Prefix(parts, k)
  }

  // The directories a name passes through.
  ghost function Passed(name: string): (dirs: set<string>)
    ensures forall d :: d in dirs <==> Ancestor(d, name)
  {
    var parts := Split(name, '/');
    SplitJoin(name, '/');
    forall d ensures d in Prefixes(parts, |parts|) <==> Ancestor(d, name) {
      if Ancestor(d, name) {
        AncestorIsPrefix(parts, d);
      }
      if d in Prefixes(parts, |parts|) {
        var k :| 0 < k < |parts| && Prefix(parts, k) == d;
        PrefixIsAncestor(parts, k);
      }
    }
    Prefixes(parts, |parts|)
  }

  // The directory d fits a table: nothing else is there under its folded name.
  predicate Fits(directories: Table, d: string) {
    Lower(d) in directories ==> directories[Lower(d)] == Entry(d, true)
  }

  lemma InsertDirectory(names: Table, dirs: set<string>, directories: Table, d: string)
    requires DirectoryTable(names, dirs, directories) && Fits(directories, d)
    ensures DirectoryTable(names, dirs + {d}, directories[Lower(d) := Entry(d, true)])
  {
    var more := directories[Lower(d) := Entry(d, true)];
    forall f, e ensures (f in more && more[f] == e) <==> Listed(names, dirs + {d}, f, e) {
      assert (f in directories && directories[f] == e) <==> Listed(names, dirs, f, e);
      if f == Lower(d) && Listed(names, dirs, f, e) {
        assert e == Entry(d, true);
      }
    }
  }

  // Something else than the directory d is listed under its folded name.
  ghost predicate Clashes(names: Table, dirs: set<string>, d: string, e: Entry) {
    Listed(names, dirs, Lower(d), e) && e != Entry(d, true)
  }

  // One entry: each directory on its way is looked up, then recorded.
  method AddEntry(names: Table, ghost dirs: set<string>, entry: Entry, directories0: Table) returns (r: Option<Table>)
    requires DirectoryTable(names, dirs, directories0) && Relative(entry.name)
    ensures r.Some? ==> DirectoryTable(names, dirs + Passed(entry.name), r.value)
    ensures r.None? ==> exists d, e :: Ancestor(d, entry.name) && Clashes(names, dirs + Passed(entry.name), d, e)
  {
    var parts := Split(entry.name, '/');
    var directories, prefix := directories0, "";
    assert dirs + Prefixes(parts, 1) == dirs;
    for k := 0 to |parts| - 1
      invariant prefix == if k == 0 then "" else Prefix(parts, k)
      invariant k > 0 ==> prefix != ""
      invariant DirectoryTable(names, dirs + Prefixes(parts, k + 1), directories)
    {
      prefix := NextPrefix(parts, k, prefix);
      assert prefix in Prefixes(parts, |parts|);
      var lower := Lower(prefix);
      if lower in directories && (!directories[lower].directory || directories[lower].name != prefix) {
        ghost var e := directories[lower];
        assert Listed(names, dirs + Prefixes(parts, k + 1), lower, e);
        assert Clashes(names, dirs + Passed(entry.name), prefix, e);
        return None;
      }
      InsertDirectory(names, dirs + Prefixes(parts, k + 1), directories, prefix);
      assert dirs + Prefixes(parts, k + 2) == dirs + Prefixes(parts, k + 1) + {prefix};
      directories := directories[lower := Entry(prefix, true)];
    }
    return Some(directories);
  }

  method NextPrefix(parts: seq<string>, k: nat, prefix0: string) returns (prefix: string)
    requires k < |parts| && (forall p | p in parts :: p != "")
    requires prefix0 == if k == 0 then "" else Prefix(parts, k)
    requires k > 0 ==> prefix0 != ""
    ensures prefix == Prefix(parts, k + 1) && prefix != ""
  {
    assert parts[k] in parts;
    prefix := prefix0;
    if k > 0 {
      PrefixGrows(parts, k);
    } else {
      assert parts[..1] == [parts[0]];
    }
    if prefix != "" {
      prefix := prefix + "/";
    }
    prefix := prefix + parts[k];
  }

  ghost function EntrySet(entries: seq<Entry>): set<Entry> {
    set e | e in entries
  }

  ghost predicate PassedBy(done: set<Entry>, dirs: set<string>) {
    forall d :: d in dirs <==> exists a :: a in done && Ancestor(d, a.name)
  }

  lemma ClashIsInconsistent(names: Table, entries: seq<Entry>, done: set<Entry>, dirs: set<string>, entry: Entry, d: string, e: Entry)
    requires NamesTable(entries, names) && done <= EntrySet(entries) && entry in entries && PassedBy(done, dirs)
    requires Ancestor(d, entry.name) && Clashes(names, dirs + Passed(entry.name), d, e)
    ensures !Consistent(entries)
  {
    if Lower(d) in names && names[Lower(d)] == e {
      assert e in entries && !AgreesWithEntry(d, e);
      assert !EntriesAgree(entries);
    } else {
      assert !SameSpelling(d, e.name);
      // Two directories on the way to one entry never fold alike, so another entry passes e.
      if e.name in dirs {
        var a :| a in done && Ancestor(e.name, a.name);
        assert a in entries;
        assert !OneSpelling(entries);
      }
    }
  }

  lemma TableAgrees(names: Table, entries: seq<Entry>, dirs: set<string>, directories: Table, a: Entry, d: string)
    requires NamesTable(entries, names) && DirectoryTable(names, dirs, directories)
    requires PassedBy(EntrySet(entries), dirs) && a in entries && Ancestor(d, a.name)
    ensures Lower(d) in directories && directories[Lower(d)] == Entry(d, true)
    ensures forall e | e in entries :: AgreesWithEntry(d, e)
  {
    assert a in EntrySet(entries);
    assert Listed(names, dirs, Lower(d), Entry(d, true));
    forall e | e in entries ensures AgreesWithEntry(d, e) {
      assert Listed(names, dirs, Lower(e.name), e);
    }
  }

  lemma TableIsConsistent(names: Table, entries: seq<Entry>, dirs: set<string>, directories: Table)
    requires NamesTable(entries, names) && NamesDistinct(entries) && forall e | e in entries :: Relative(e.name)
    requires DirectoryTable(names, dirs, directories) && PassedBy(EntrySet(entries), dirs)
    ensures Consistent(entries)
  {
    forall a, e, d | a in entries && e in entries && Ancestor(d, a.name) ensures AgreesWithEntry(d, e) {
      TableAgrees(names, entries, dirs, directories, a, d);
    }
    forall a, b, d, d' | a in entries && b in entries && Ancestor(d, a.name) && Ancestor(d', b.name) ensures SameSpelling(d, d') {
      TableAgrees(names, entries, dirs, directories, a, d);
      TableAgrees(names, entries, dirs, directories, b, d');
    }
  }

  lemma OneMorePassed(done: set<Entry>, dirs: set<string>, entry: Entry)
    requires PassedBy(done, dirs)
    ensures PassedBy(done + {entry}, dirs + Passed(entry.name))
  {
    forall d ensures d in dirs + Passed(entry.name) <==> exists a :: a in done + {entry} && Ancestor(d, a.name) {
      if d in dirs {
        var a :| a in done && Ancestor(d, a.name);
        assert a in done + {entry};
      } else if d in Passed(entry.name) {
        assert entry in done + {entry};
      }
    }
  }

  // `extract_checked` up to the first byte written: the two tables accept exactly
  // the consistent entry lists, in whatever order the names are visited.
  method CheckEntries(entries: seq<Entry>) returns (accepted: bool)
    ensures accepted <==> Consistent(entries)
  {
    var collected := CollectNames(entries);
    if collected.None? {
      return false;
    }
    var names := collected.value;
    var directories := names;
    var todo := set f | f in names :: names[f];
    ghost var done, dirs: set<string> := {}, {};
    EveryName(entries, names);
    while todo != {}
      invariant todo <= EntrySet(entries) && done + todo == EntrySet(entries)
      invariant PassedBy(done, dirs) && DirectoryTable(names, dirs, directories)
      decreases todo
    {
      var entry :| entry in todo;
      assert entry in entries;
      var more := AddEntry(names, dirs, entry, directories);
      if more.None? {
        ghost var d, e :| Ancestor(d, entry.name) && Clashes(names, dirs + Passed(entry.name), d, e);
        ClashIsInconsistent(names, entries, done, dirs, entry, d, e);
        return false;
      }
      OneMorePassed(done, dirs, entry);
      directories, dirs := more.value, dirs + Passed(entry.name);
      todo, done := todo - {entry}, done + {entry};
    }
    assert done == EntrySet(entries);
    TableIsConsistent(names, entries, dirs, directories);
    return true;
  }

  lemma EveryName(entries: seq<Entry>, names: Table)
    requires NamesTable(entries, names)
    ensures (set f | f in names :: names[f]) == EntrySet(entries)
    ensures PassedBy({}, {}) && DirectoryTable(names, {}, names)
  {
    forall e | e in entries ensures e in set f | f in names :: names[f] {
      assert Lower(e.name) in names;
    }
  }
}
