// The activation document handed to the game, and the validator that reads it.
module ActivationDocument {
  import opened Results
  import opened Texts
  import opened Decimals
  import opened Dependencies
  import opened References
  import opened PathTables

  const MAX_FILES_PER_MOD: nat := 1024
  const MAX_FILES: nat := 8192
  const MAX_REQUIRED: nat := 256
  const MAX_OMITTED: nat := 0x7fff_ffff
  const MAX_SAFE_INTEGER: nat := 9_007_199_254_740_991

  datatype File = File(path: string, sha256: string)

  // A local content id digests the sorted lines of the inventory; the lines stand
  // for their digest.
  datatype Source =
    | FromRegistry(modId: nat, releaseId: ReleaseId, sha256: string)
    | FromLocal(contents: multiset<(string, string)>)

  datatype Listed = Listed(modId: string, name: string, version: string)

  datatype ActiveMod = ActiveMod(
    modId: string, source: Source, root: string, entryAssembly: Option<string>, entryType: Option<string>,
    required: seq<string>, files: seq<File>)

  datatype Activation = Activation(schema: nat, listed: seq<Listed>, omitted: nat, mods: seq<ActiveMod>)

  // ---- Text ----

  predicate Control(c: char) {
    c < ' ' || '\U{7f}' <= c <= '\U{9f}'
  }

  function Utf8Width(c: char): nat {
    if c < '\U{80}' then 1 else if c < '\U{800}' then 2 else if c < '\U{10000}' then 3 else 4
  }

  function Utf8Length(s: string): nat {
    if s == "" then 0 else Utf8Width(s[0]) + Utf8Length(s[1..])
  }

  predicate Text(s: string, most: nat) {
    s != "" && Utf8Length(s) <= most && forall i | 0 <= i < |s| :: !Control(s[i])
  }

  predicate ListedText(item: Listed) {
    ValidId(item.modId) && Text(item.name, 256) && Text(item.version, 128)
  }

  // ---- The payload of one mod ----

  predicate EndsWith(s: string, suffix: string) {
    |suffix| <= |s| && s[|s| - |suffix|..] == suffix
  }

  predicate TypePart(part: string) {
    part != "" && forall i | 0 <= i < |part| ::
      var c := part[i]; c == '_' || 'a' <= c <= 'z' || 'A' <= c <= 'Z' || (i > 0 && IsDigit(c))
  }

  predicate ValidEntry(m: ActiveMod) {
    match m.entryAssembly
    case None => m.entryType.None?
    case Some(assembly) =>
      && Relative(assembly) && EndsWith(Lower(assembly), ".dll")
      && m.entryType.Some? && Text(m.entryType.value, 256)
      && forall part | part in Split(m.entryType.value, '.') :: TypePart(part)
  }

  // No two of these names claim the same place.
  ghost predicate Apart(names: seq<string>) {
    forall i, j | 0 <= i < j < |names| :: !Overlaps(names[j], names[i])
  }

  function FilePaths(files: seq<File>): (names: seq<string>)
    ensures |names| == |files| && forall i | 0 <= i < |names| :: names[i] == Lower(files[i].path)
  {
    seq(|files|, i requires 0 <= i < |files| => Lower(files[i].path))
  }

  predicate ValidFile(file: File) {
    Relative(file.path) && ValidHash(file.sha256)
  }

  ghost predicate ValidFiles(files: seq<File>) {
    && |files| <= MAX_FILES_PER_MOD
    && (forall f | f in files :: ValidFile(f))
    && Apart(FilePaths(files))
  }

  predicate HasEntry(m: ActiveMod) {
    match m.entryAssembly
    case None => m.files != []
    case Some(assembly) => Lower(assembly) in FilePaths(m.files)
  }

  // `content_id`
  function Contents(files: seq<File>): multiset<(string, string)> {
    if files == [] then multiset{}
    else
      var n := |files| - 1;
      Contents(files[..n]) + multiset{(Lower(files[n].path), files[n].sha256)}
  }

  predicate ValidSourceTag(schema: nat, m: ActiveMod) {
    match m.source
    case FromRegistry(modId, releaseId, sha256) =>
      && schema == 4 && 1 <= modId <= MAX_SAFE_INTEGER && m.modId == "registry." + Decimal(modId)
      && releaseId.version == 4 && releaseId.rfc4122 && ValidHash(sha256)
    case FromLocal(contents) => contents == Contents(m.files)
  }

  ghost predicate ValidPayload(schema: nat, m: ActiveMod) {
    && ValidId(m.modId) && Relative(m.root) && ValidEntry(m) && ValidFiles(m.files) && HasEntry(m)
    && ValidSourceTag(schema, m)
  }

  // ---- The document ----

  ghost predicate HasListed(listed: seq<Listed>, modId: string) {
    exists i :: 0 <= i < |listed| && listed[i].modId == modId
  }

  ghost predicate ListedOnce(listed: seq<Listed>) {
    forall i, j | 0 <= i < j < |listed| :: listed[i].modId != listed[j].modId
  }

  // At most 256 entries, and entries are left out only when there is no more room.
  ghost predicate Bounded256(a: Activation) {
    |a.listed| <= MAX_MODS && (a.omitted == 0 || |a.listed| == MAX_MODS)
  }

  ghost predicate Earlier(mods: seq<ActiveMod>, k: nat, modId: string) {
    exists j :: 0 <= j < k && j < |mods| && mods[j].modId == modId
  }

  ghost predicate InOrder(mods: seq<ActiveMod>, k: nat)
    requires k < |mods|
  {
    && !Earlier(mods, k, mods[k].modId)
    && |mods[k].required| <= MAX_REQUIRED
    && DistinctStrings(mods[k].required)
    && forall id | id in mods[k].required :: Earlier(mods, k, id)
  }

  function Roots(mods: seq<ActiveMod>): (names: seq<string>)
    ensures |names| == |mods| && forall i | 0 <= i < |names| :: names[i] == Lower(mods[i].root)
  {
    seq(|mods|, i requires 0 <= i < |mods| => Lower(mods[i].root))
  }

  function TotalFiles(mods: seq<ActiveMod>): nat {
    if mods == [] then 0 else TotalFiles(mods[..|mods| - 1]) + |mods[|mods| - 1].files|
  }

  // How entries, mods, requirements and roots fit together.
  ghost predicate Orderly(a: Activation) {
    && Bounded256(a)
    && ListedOnce(a.listed)
    && |a.mods| <= MAX_MODS
    && (forall m | m in a.mods :: HasListed(a.listed, m.modId))
    && (forall k | 0 <= k < |a.mods| :: InOrder(a.mods, k))
    && Apart(Roots(a.mods))
  }

  // What each entry and each mod says by itself, and the sizes of the whole.
  ghost predicate Presentable(a: Activation) {
    && (forall item | item in a.listed :: ListedText(item))
    && TotalFiles(a.mods) <= MAX_FILES
    && a.omitted <= MAX_OMITTED
  }

  ghost predicate ValidActivation(a: Activation) {
    && Orderly(a)
    && Presentable(a)
    && (forall m | m in a.mods :: ValidPayload(a.schema, m))
  }

  // ---- An entry, in terms of its texts ----

  // The same path on a disk that does not tell cases apart.
  predicate SamePath(a: string, b: string) {
    |a| == |b| && forall i | 0 <= i < |a| :: SameLetter(a[i], b[i])
  }

  // Names joined by dots, of letters, digits and underscores, none beginning with a digit.
  ghost predicate NamesType(text: string) {
    forall i: nat, j: nat | Segment(text, '.', i, j) ::
      && i < j && !('0' <= text[i] <= '9')
      && forall c | c in text[i..j] :: c == '_' || 'a' <= c <= 'z' || 'A' <= c <= 'Z' || '0' <= c <= '9'
  }

  ghost predicate EntersBy(m: ActiveMod, assembly: string) {
    && Relative(assembly) && |assembly| >= 4 && SamePath(assembly[|assembly| - 4..], ".dll")
    && (exists file :: file in m.files && SamePath(assembly, file.path))
    && exists name :: m.entryType == Some(name) && Text(name, 256) && NamesType(name)
  }

  // Without an entry a mod is some files; with one the assembly is among them and its
  // type is named.
  lemma EntryMeaning(m: ActiveMod)
    ensures ValidEntry(m) && HasEntry(m) <==>
            if m.entryAssembly == None then m.entryType == None && m.files != [] else EntersBy(m, m.entryAssembly.value)
  {
    if m.entryAssembly.Some? {
      var assembly := m.entryAssembly.value;
      SuffixMeaning(assembly);
      ListsMeaning(m.files, assembly);
      if m.entryType.Some? {
        TypeMeaning(m.entryType.value);
      }
    }
  }

  lemma SuffixMeaning(s: string)
    ensures EndsWith(Lower(s), ".dll") <==> |s| >= 4 && SamePath(s[|s| - 4..], ".dll")
  {
    if |s| >= 4 {
      assert Lower(s)[|s| - 4..] == Lower(s[|s| - 4..]);
      assert Lower(".dll") == ".dll";
      LowerMeaning(s[|s| - 4..], ".dll");
    }
  }

  lemma ListsMeaning(files: seq<File>, path: string)
    ensures Lower(path) in FilePaths(files) <==> exists file :: file in files && SamePath(path, file.path)
  {
    forall file | file in files ensures Lower(path) == Lower(file.path) <==> SamePath(path, file.path) {
      LowerMeaning(path, file.path);
    }
    if file :| file in files && SamePath(path, file.path) {
      var i :| 0 <= i < |files| && files[i] == file;
      assert FilePaths(files)[i] == Lower(path);
    }
  }

  lemma TypeMeaning(text: string)
    ensures (forall part | part in Split(text, '.') :: TypePart(part)) <==> NamesType(text)
  {
    forall part ensures part in Split(text, '.') <==> exists i: nat, j: nat :: Segment(text, '.', i, j) && part == text[i..j] {
      SplitSegments(text, '.', part);
    }
    forall i: nat, j: nat | Segment(text, '.', i, j)
      ensures text[i..j] in Split(text, '.')
      ensures TypePart(text[i..j]) <==>
              && i < j && !('0' <= text[i] <= '9')
              && forall c | c in text[i..j] :: c == '_' || 'a' <= c <= 'z' || 'A' <= c <= 'Z' || '0' <= c <= '9'
    {
      PartOfType(text[i..j]);
    }
  }

  lemma PartOfType(part: string)
    ensures TypePart(part) <==>
            && part != "" && !('0' <= part[0] <= '9')
            && forall c | c in part :: c == '_' || 'a' <= c <= 'z' || 'A' <= c <= 'Z' || '0' <= c <= '9'
  {
    forall i | 0 <= i < |part| ensures part[i] in part {
    }
  }

  // ---- The validator ----

  method CheckApart(names: seq<string>, name: string) returns (apart: bool)
    ensures apart <==> forall i | 0 <= i < |names| :: !Overlaps(name, names[i])
  {
    for i := 0 to |names|
      invariant forall j | 0 <= j < i :: !Overlaps(name, names[j])
    {
      if Overlaps(name, names[i]) {
        return false;
      }
    }
    return true;
  }

  lemma ApartAppend(names: seq<string>, name: string)
    ensures Apart(names + [name]) <==> Apart(names) && forall i | 0 <= i < |names| :: !Overlaps(name, names[i])
  {
    var all := names + [name];
    if Apart(all) {
      forall i, j | 0 <= i < j < |names| ensures !Overlaps(names[j], names[i]) {
        assert !Overlaps(all[j], all[i]);
      }
      forall i | 0 <= i < |names| ensures !Overlaps(name, names[i]) {
        assert !Overlaps(all[|names|], all[i]);
      }
    }
  }

  lemma ApartPrefix(names: seq<string>, k: nat)
    requires k <= |names| && Apart(names)
    ensures Apart(names[..k])
  {
  }

  // The files of one mod; `before` is the number counted so far.
  method CheckFiles(files: seq<File>, before: nat) returns (r: Option<seq<string>>)
    requires before <= MAX_FILES
    ensures r.Some? <==> ValidFiles(files) && before + |files| <= MAX_FILES
    ensures r.Some? ==> r.value == FilePaths(files)
  {
    if |files| > MAX_FILES_PER_MOD {
      return None;
    }
    var paths := [];
    for i := 0 to |files|
      invariant paths == FilePaths(files[..i]) && Apart(paths) && before + i <= MAX_FILES
      invariant forall f | f in files[..i] :: ValidFile(f)
    {
      var file := files[i];
      assert file in files && files[..i + 1] == files[..i] + [file];
      assert FilePaths(files[..i + 1]) == paths + [Lower(file.path)];
      ApartAppend(paths, Lower(file.path));
      if !Relative(file.path) {
        return None;
      }
      var apart := CheckApart(paths, Lower(file.path));
      if !apart {
        ApartFiles(files, i + 1);
        return None;
      }
      if !ValidHash(file.sha256) || before + i + 1 > MAX_FILES {
        return None;
      }
      paths := paths + [Lower(file.path)];
    }
    assert files[..|files|] == files;
    return Some(paths);
  }

  lemma ApartFiles(files: seq<File>, k: nat)
    requires k <= |files|
    ensures Apart(FilePaths(files)) ==> Apart(FilePaths(files[..k]))
  {
    assert FilePaths(files)[..k] == FilePaths(files[..k]);
    if Apart(FilePaths(files)) {
      ApartPrefix(FilePaths(files), k);
    }
  }

  // Everything one mod says by itself.
  method CheckPayload(schema: nat, m: ActiveMod, before: nat) returns (ok: bool)
    requires before <= MAX_FILES
    ensures ok <==> ValidPayload(schema, m) && before + |m.files| <= MAX_FILES
  {
    if !ValidId(m.modId) || !Relative(m.root) || !ValidEntry(m) {
      return false;
    }
    var paths := CheckFiles(m.files, before);
    if paths.None? {
      return false;
    }
    var entry := match m.entryAssembly
      case None => paths.value != []
      case Some(assembly) => Lower(assembly) in paths.value;
    return entry && ValidSourceTag(schema, m);
  }

  ghost predicate Holds(active: set<string>, mods: seq<ActiveMod>, k: nat) {
    forall id :: id in active <==> Earlier(mods, k, id)
  }

  method CheckRequired(required: seq<string>, active: set<string>) returns (ok: bool)
    ensures ok <==> |required| <= MAX_REQUIRED && DistinctStrings(required) && forall id | id in required :: id in active
  {
    if |required| > MAX_REQUIRED {
      return false;
    }
    var dependencies: set<string> := {};
    for i := 0 to |required|
      invariant forall id :: id in dependencies <==> id in required[..i]
      invariant DistinctStrings(required[..i]) && forall id | id in required[..i] :: id in active
    {
      assert required[i] in required && required[..i + 1] == required[..i] + [required[i]];
      if required[i] !in active {
        return false;
      }
      if required[i] in dependencies {
        var j :| 0 <= j < i && required[..i][j] == required[i];
        assert required[j] == required[i];
        return false;
      }
      dependencies := dependencies + {required[i]};
    }
    assert required[..|required|] == required;
    return true;
  }

  method CheckListed(a: Activation) returns (r: Option<set<string>>)
    ensures r.Some? <==> |a.listed| <= MAX_MODS && ListedOnce(a.listed) && forall item | item in a.listed :: ListedText(item)
    ensures r.Some? ==> |r.value| == |a.listed| && forall id :: id in r.value <==> HasListed(a.listed, id)
  {
    if |a.listed| > MAX_MODS {
      return None;
    }
    var installed: set<string> := {};
    for i := 0 to |a.listed|
      invariant |installed| == i && forall id :: id in installed <==> HasListed(a.listed[..i], id)
      invariant ListedOnce(a.listed[..i]) && forall item | item in a.listed[..i] :: ListedText(item)
    {
      var item := a.listed[i];
      assert item in a.listed;
      ListedAppend(a.listed[..i], item);
      assert a.listed[..i + 1] == a.listed[..i] + [item];
      if !ValidId(item.modId) {
        return None;
      }
      if item.modId in installed {
        var j :| 0 <= j < i && a.listed[..i][j].modId == item.modId;
        assert a.listed[j].modId == item.modId;
        return None;
      }
      if !Text(item.name, 256) || !Text(item.version, 128) {
        return None;
      }
      installed := installed + {item.modId};
    }
    assert a.listed[..|a.listed|] == a.listed;
    return Some(installed);
  }

  lemma ListedAppend(listed: seq<Listed>, item: Listed)
    ensures forall id :: HasListed(listed + [item], id) <==> HasListed(listed, id) || id == item.modId
    ensures ListedOnce(listed + [item]) <==> ListedOnce(listed) && !HasListed(listed, item.modId)
  {
    var all := listed + [item];
    forall id ensures HasListed(all, id) <==> HasListed(listed, id) || id == item.modId {
      if HasListed(listed, id) {
        var i :| 0 <= i < |listed| && listed[i].modId == id;
        assert all[i].modId == id;
      }
      assert all[|listed|] == item;
    }
    if ListedOnce(all) {
      forall i, j | 0 <= i < j < |listed| ensures listed[i].modId != listed[j].modId {
        assert all[i].modId != all[j].modId;
      }
      forall i | 0 <= i < |listed| ensures listed[i].modId != item.modId {
        assert all[i].modId != all[|listed|].modId;
      }
    }
  }

  ghost predicate ModPasses(a: Activation, k: nat)
    requires k < |a.mods|
  {
    HasListed(a.listed, a.mods[k].modId) && InOrder(a.mods, k) && ValidPayload(a.schema, a.mods[k])
  }

  ghost predicate ModsPass(a: Activation, k: nat)
    requires k <= |a.mods|
  {
    && (forall j | 0 <= j < k :: ModPasses(a, j))
    && Apart(Roots(a.mods[..k]))
    && TotalFiles(a.mods[..k]) <= MAX_FILES
  }

  lemma RootsAppend(mods: seq<ActiveMod>, k: nat)
    requires k < |mods|
    ensures Roots(mods[..k + 1]) == Roots(mods[..k]) + [Lower(mods[k].root)]
    ensures TotalFiles(mods[..k + 1]) == TotalFiles(mods[..k]) + |mods[k].files|
  {
    assert mods[..k + 1][..k] == mods[..k];
  }

  lemma {:induction false} TotalGrows(mods: seq<ActiveMod>, k: nat)
    requires k <= |mods|
    ensures TotalFiles(mods[..k]) <= TotalFiles(mods)
    decreases |mods| - k
  {
    if k < |mods| {
      RootsAppend(mods, k);
      TotalGrows(mods, k + 1);
    } else {
      assert mods[..k] == mods;
    }
  }

  // A failure among the first mods is a failure of the document.
  lemma FirstPass(a: Activation, k: nat)
    requires k <= |a.mods| && ValidActivation(a)
    ensures ModsPass(a, k)
  {
    TotalGrows(a.mods, k);
    ApartPrefix(Roots(a.mods), k);
    assert Roots(a.mods)[..k] == Roots(a.mods[..k]);
    forall j | 0 <= j < k ensures ModPasses(a, j) {
      assert a.mods[j] in a.mods;
    }
  }

  lemma AllPass(a: Activation)
    requires ModsPass(a, |a.mods|) && |a.mods| <= MAX_MODS && a.omitted <= MAX_OMITTED
    requires Bounded256(a) && ListedOnce(a.listed) && forall item | item in a.listed :: ListedText(item)
    ensures ValidActivation(a)
  {
    assert a.mods[..|a.mods|] == a.mods;
    forall k | 0 <= k < |a.mods| ensures InOrder(a.mods, k) {
      assert ModPasses(a, k);
    }
    forall m | m in a.mods ensures HasListed(a.listed, m.modId) && ValidPayload(a.schema, m) {
      var k :| 0 <= k < |a.mods| && a.mods[k] == m;
      assert ModPasses(a, k);
    }
  }

  predicate RootApart(a: Activation, k: nat)
    requires k < |a.mods|
  {
    forall i | 0 <= i < k :: !Overlaps(Lower(a.mods[k].root), Lower(a.mods[i].root))
  }

  lemma OneMorePasses(a: Activation, k: nat)
    requires k < |a.mods| && ModsPass(a, k)
    ensures ModsPass(a, k + 1) <==>
      && ModPasses(a, k)
      && RootApart(a, k)
      && TotalFiles(a.mods[..k]) + |a.mods[k].files| <= MAX_FILES
  {
    RootsAppend(a.mods, k);
    ApartAppend(Roots(a.mods[..k]), Lower(a.mods[k].root));
  }

  method CheckMod(a: Activation, k: nat, installed: set<string>, active: set<string>, roots: seq<string>, before: nat)
    returns (ok: bool)
    requires k < |a.mods| && ModsPass(a, k)
    requires (forall id :: id in installed <==> HasListed(a.listed, id)) && Holds(active, a.mods, k)
    requires roots == Roots(a.mods[..k]) && before == TotalFiles(a.mods[..k])
    ensures ok <==> ModsPass(a, k + 1)
  {
    var item := a.mods[k];
    OneMorePasses(a, k);
    var standing := CheckStanding(a, k, installed, active, roots);
    if !standing {
      return false;
    }
    ok := CheckPayload(a.schema, item, before);
  }

  method CheckStanding(a: Activation, k: nat, installed: set<string>, active: set<string>, roots: seq<string>) returns (ok: bool)
    requires k < |a.mods| && (forall id :: id in installed <==> HasListed(a.listed, id)) && Holds(active, a.mods, k)
    requires roots == Roots(a.mods[..k])
    ensures ok <==> HasListed(a.listed, a.mods[k].modId) && InOrder(a.mods, k) && RootApart(a, k)
  {
    var placed := CheckPlace(a, k, installed, active);
    if !placed {
      return false;
    }
    ok := CheckApart(roots, Lower(a.mods[k].root));
  }

  // The mod is listed, is not active yet, and what it requires is.
  method CheckPlace(a: Activation, k: nat, installed: set<string>, active: set<string>) returns (ok: bool)
    requires k < |a.mods| && (forall id :: id in installed <==> HasListed(a.listed, id)) && Holds(active, a.mods, k)
    ensures ok <==> HasListed(a.listed, a.mods[k].modId) && InOrder(a.mods, k)
  {
    var item := a.mods[k];
    if item.modId !in installed || item.modId in active {
      return false;
    }
    ok := CheckRequired(item.required, active);
  }

  // `activation`
  method Check(a: Activation) returns (ok: bool)
    ensures ok <==> ValidActivation(a)
  {
    if a.omitted > MAX_OMITTED {
      return false;
    }
    var installed := CheckListed(a);
    if installed.None? || (a.omitted != 0 && |installed.value| != MAX_MODS) || |a.mods| > MAX_MODS {
      return false;
    }
    var active: set<string> := {};
    var roots := [];
    var total := 0;
    for k := 0 to |a.mods|
      invariant ModsPass(a, k) && Holds(active, a.mods, k)
      invariant roots == Roots(a.mods[..k]) && total == TotalFiles(a.mods[..k])
    {
      var passes := CheckMod(a, k, installed.value, active, roots, total);
      if !passes {
        if ValidActivation(a) {
          FirstPass(a, k + 1);
          assert false;
        }
        return false;
      }
      RootsAppend(a.mods, k);
      HoldsMore(active, a.mods, k);
      active := active + {a.mods[k].modId};
      roots := roots + [Lower(a.mods[k].root)];
      total := total + |a.mods[k].files|;
    }
    AllPass(a);
    return true;
  }

  lemma HoldsMore(active: set<string>, mods: seq<ActiveMod>, k: nat)
    requires k < |mods| && Holds(active, mods, k)
    ensures Holds(active + {mods[k].modId}, mods, k + 1)
  {
    forall id ensures id in active + {mods[k].modId} <==> Earlier(mods, k + 1, id) {
      assert Earlier(mods, k + 1, id) <==> Earlier(mods, k, id) || id == mods[k].modId;
    }
  }
}
