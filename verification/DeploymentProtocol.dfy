// The journaled deployment as a state machine over its durable steps: what is on
// disk, the saved record, and the content store. A crash is simply a run that stops.
module DeploymentProtocol {
  import opened Results
  import opened PathTables

  type Path = string
  type Content = seq<bv8>

  // SHA-256, taken to be injective: a digest determines the content it names.
  datatype Digest = Digest(content: Content)

  type Files = map<Path, Digest>
  type Disk = map<Path, Content>

  // The content directory and the database table of backups.
  datatype Store = Store(retained: map<Digest, Content>, blobs: map<Digest, Content>)

  datatype Journal = Journal(next: Files, borrowed: Files)

  datatype Record = Record(owned: Files, pending: Option<Journal>)

  datatype State = State(disk: Disk, record: Record, store: Store)

  // ---- Looking things up ----

  function At(disk: Disk, path: Path): Option<Digest> {
    if path in disk then Some(Digest(disk[path])) else None
  }

  function Get(files: Files, path: Path): Option<Digest> {
    if path in files then Some(files[path]) else None
  }

  function Put(disk: Disk, path: Path, digest: Option<Digest>): (r: Disk)
    ensures At(r, path) == digest
    ensures forall p | p != path :: At(r, p) == At(disk, p)
  {
    if digest.Some? then disk[path := digest.value.content] else disk - {path}
  }

  // `content::reader`: the content directory first, then the database, each verified.
  function Read(store: Store, digest: Digest): Option<Content> {
    if digest in store.retained then
      (if Digest(store.retained[digest]) == digest then Some(store.retained[digest]) else None)
    else if digest in store.blobs && Digest(store.blobs[digest]) == digest then Some(store.blobs[digest])
    else None
  }

  function After(record: Record): Files {
    if record.pending.Some? then record.pending.value.next else record.owned
  }

  function Borrowed(record: Record): Files {
    if record.pending.Some? then record.pending.value.borrowed else map[]
  }

  // The paths an operation may touch.
  predicate Tracked(record: Record, path: Path) {
    path in record.owned || path in After(record)
  }

  function Changed(before: Files, after: Files): (r: set<Path>)
    ensures forall p :: p in r <==> Get(before, p) != Get(after, p)
  {
    set p | p in before.Keys + after.Keys && Get(before, p) != Get(after, p)
  }

  // ---- Records and stores that are always kept ----

  ghost predicate ValidRecord(record: Record) {
    && ValidPaths(record.owned.Keys)
    && (record.pending.Some? ==>
         && ValidPaths(record.pending.value.next.Keys)
         && ValidPaths(record.pending.value.borrowed.Keys)
         && forall p | p in record.pending.value.borrowed :: p !in record.pending.value.next)
  }

  ghost predicate ValidStore(store: Store) {
    && (forall d | d in store.retained :: store.retained[d] == d.content)
    && (forall d | d in store.blobs :: store.blobs[d] == d.content)
  }

  predicate Stored(store: Store, digest: Digest) {
    Read(store, digest) == Some(digest.content)
  }

  // Both deployments can be rebuilt from the store.
  ghost predicate Recoverable(record: Record, store: Store) {
    && (forall p {:trigger Stored(store, record.owned[p])} | p in record.owned :: Stored(store, record.owned[p]))
    && (forall p {:trigger Stored(store, After(record)[p])} | p in After(record) :: Stored(store, After(record)[p]))
  }

  ghost predicate Safe(s: State) {
    ValidRecord(s.record) && ValidStore(s.store) && Recoverable(s.record, s.store)
  }

  // ---- Steps ----

  datatype Step =
    | Edit(disk: Disk)                                        // somebody else changes the game directory
    | Retain(digest: Digest)                                  // content copied into the store
    | Begin(journal: Journal, blobs: map<Digest, Content>)    // journal saved together with its backups
    | Forward(path: Path)                                     // one file moved to its new state
    | Backward(path: Path)                                    // one file moved back
    | Commit                                                  // final save
    | Abort                                                   // recovery saved
    | Forget(paths: set<Path>)                                // missing files dropped from ownership

  // Nobody else holds the new paths; everything owned or borrowed is as recorded.
  ghost predicate Clear(disk: Disk, owned: Files, journal: Journal) {
    && (forall p | p in owned :: At(disk, p) == Some(owned[p]))
    && (forall p | p in journal.next && p !in owned :: At(disk, p) == None)
    && (forall p | p in journal.borrowed :: p !in owned && At(disk, p) == Some(journal.borrowed[p]))
  }

  ghost predicate Matches(disk: Disk, paths: set<Path>, files: Files) {
    forall p | p in paths :: At(disk, p) == Get(files, p)
  }

  // Backups already in the database are kept as they are.
  function AddBlobs(store: Store, blobs: map<Digest, Content>): Store {
    store.(blobs := blobs + store.blobs)
  }

  // Every file the record speaks of is as in `files`.
  ghost predicate Settles(disk: Disk, record: Record, files: Files) {
    forall p | Tracked(record, p) :: At(disk, p) == Get(files, p)
  }

  function Do(s: State, step: Step): State {
    match step
    case Edit(disk) => s.(disk := disk)
    case Retain(d) => s.(store := s.store.(retained := s.store.retained[d := d.content]))
    case Begin(journal, blobs) =>
      s.(record := Record(s.record.owned, Some(journal)), store := AddBlobs(s.store, blobs))
    case Forward(p) => s.(disk := Put(s.disk, p, Get(After(s.record), p)))
    case Backward(p) => s.(disk := Put(s.disk, p, Get(s.record.owned, p)))
    case Commit => s.(record := Record(After(s.record), None))
    case Abort => s.(record := Record(s.record.owned, None))
    case Forget(paths) => s.(record := Record(s.record.owned - paths, None))
  }

  // When a step may be taken. In a tame run nobody edits the directory, so what
  // was verified before a save still holds when it is saved.
  ghost predicate Enabled(tame: bool, s: State, step: Step) {
    match step
    case Edit(_) => !tame
    case Retain(_) => true
    case Begin(journal, blobs) =>
      && s.record.pending.None?
      && (forall d | d in blobs :: blobs[d] == d.content)
      && ValidRecord(Record(s.record.owned, Some(journal)))
      && Recoverable(Record(s.record.owned, Some(journal)), AddBlobs(s.store, blobs))
      && (tame ==> Clear(s.disk, s.record.owned, journal))
    case Forward(p) => Touches(s.record, p) && At(s.disk, p) == Get(s.record.owned, p)
    case Backward(p) => Touches(s.record, p) && At(s.disk, p) == Get(After(s.record), p)
    case Commit => s.record.pending.Some? && (tame ==> Settles(s.disk, s.record, After(s.record)))
    case Abort => s.record.pending.Some? && (tame ==> Settles(s.disk, s.record, s.record.owned))
    case Forget(paths) =>
      s.record.pending.None? && paths <= s.record.owned.Keys && (tame ==> forall p | p in paths :: At(s.disk, p) == None)
  }

  // A file is only ever touched under a saved journal that changes it.
  predicate Touches(record: Record, path: Path) {
    record.pending.Some? && path in Changed(record.owned, After(record))
  }

  // A state of a run, and the step that led to it; how the first one came about is
  // not part of the run.
  datatype Moment = Moment(state: State, step: Step)

  ghost predicate Follows(tame: bool, s: State, m: Moment) {
    Enabled(tame, s, m.step) && m.state == Do(s, m.step)
  }

  ghost predicate IsRun(tame: bool, run: seq<Moment>) {
    && |run| > 0
    && forall i, j {:trigger Follows(tame, run[i].state, run[j])} | 0 <= i < j == i + 1 < |run| :: Follows(tame, run[i].state, run[j])
  }

  // What the engine did to the directory and the record in a run, and what others did.
  predicate Acts(step: Step) {
    !step.Edit? && !step.Retain?
  }

  function Deeds(run: seq<Moment>): seq<Step> {
    if |run| <= 1 then []
    else
      var last := run[|run| - 1].step;
      Deeds(run[..|run| - 1]) + if Acts(last) then [last] else []
  }

  function Edits(run: seq<Moment>): seq<Disk> {
    if |run| <= 1 then []
    else
      var last := run[|run| - 1].step;
      Edits(run[..|run| - 1]) + if last.Edit? then [last.disk] else []
  }

  // What others have done at their first n turns; they were not asked by the engine.
  function Answers(others: nat -> Option<Disk>, n: nat): seq<Disk> {
    if n == 0 then []
    else Answers(others, n - 1) + if others(n - 1).Some? then [others(n - 1).value] else []
  }

  // At some moment from the n-th on the path held this, or something else.
  ghost predicate Seen(run: seq<Moment>, n: nat, path: Path, digest: Option<Digest>) {
    exists k {:trigger run[k]} :: n <= k < |run| && At(run[k].state.disk, path) == digest
  }

  ghost predicate Strayed(run: seq<Moment>, n: nat, path: Path, digest: Option<Digest>) {
    exists k {:trigger run[k]} :: n <= k < |run| && At(run[k].state.disk, path) != digest
  }

  // ---- Safety, whatever anyone else does to the directory ----

  lemma StoreOnlyGrows(s: Store, t: Store, d: Digest)
    requires ValidStore(s) && ValidStore(t)
    requires s.retained.Keys <= t.retained.Keys && s.blobs.Keys <= t.blobs.Keys
    requires Stored(s, d)
    ensures Stored(t, d)
  {
  }

  lemma StepKeepsStored(tame: bool, s: State, step: Step, d: Digest)
    requires ValidStore(s.store) && Enabled(tame, s, step) && Stored(s.store, d)
    ensures Stored(Do(s, step).store, d)
  {
    var t := Do(s, step);
    assert ValidStore(t.store);
    StoreOnlyGrows(s.store, t.store, d);
  }

  lemma StepKeepsSafe(tame: bool, s: State, step: Step)
    requires Safe(s) && Enabled(tame, s, step)
    ensures Safe(Do(s, step))
  {
    var t := Do(s, step);
    assert ValidStore(t.store);
    forall p | p in t.record.owned && !step.Begin? ensures Stored(t.store, t.record.owned[p]) {
      StepKeepsStored(tame, s, step, t.record.owned[p]);
    }
    forall p | p in After(t.record) && !step.Begin? ensures Stored(t.store, After(t.record)[p]) {
      StepKeepsStored(tame, s, step, After(t.record)[p]);
    }
    if step.Forget? {
      ValidPathsOfSubset(s.record.owned.Keys, t.record.owned.Keys);
    }
  }

  // What a step of the engine removes is one side of the journal, and stays in the store.
  ghost predicate Preserves(s: State, t: State) {
    forall p | At(s.disk, p) != At(t.disk, p) ::
      && s.record == t.record && s.record.pending.Some?
      && (At(s.disk, p) == Get(s.record.owned, p) || At(s.disk, p) == Get(After(s.record), p))
      && (At(t.disk, p) == Get(s.record.owned, p) || At(t.disk, p) == Get(After(s.record), p))
      && (At(s.disk, p).Some? ==> Stored(s.store, At(s.disk, p).value))
  }

  lemma EngineStepPreserves(tame: bool, s: State, step: Step)
    requires Safe(s) && Enabled(tame, s, step) && !step.Edit?
    ensures Preserves(s, Do(s, step))
  {
    var t := Do(s, step);
    if step.Forward? || step.Backward? {
      assert forall p | p != step.path :: At(t.disk, p) == At(s.disk, p);
      assert At(s.disk, step.path).Some? ==> Stored(s.store, At(s.disk, step.path).value);
    }
  }

  lemma SafeNext(tame: bool, run: seq<Moment>, i: nat)
    requires IsRun(tame, run) && i + 1 < |run| && Safe(run[i].state)
    ensures Safe(run[i + 1].state)
  {
    assert Follows(tame, run[i].state, run[i + 1]);
    StepKeepsSafe(tame, run[i].state, run[i + 1].step);
  }

  lemma {:induction false} RunIsSafe(tame: bool, run: seq<Moment>, i: nat)
    requires IsRun(tame, run) && Safe(run[0].state) && i < |run|
    ensures Safe(run[i].state)
  {
    if i > 0 {
      RunIsSafe(tame, run, i - 1);
      SafeNext(tame, run, i - 1);
    }
  }

  lemma StoredNext(tame: bool, run: seq<Moment>, i: nat, d: Digest)
    requires IsRun(tame, run) && Safe(run[0].state) && i + 1 < |run| && Stored(run[i].state.store, d)
    ensures Stored(run[i + 1].state.store, d)
  {
    RunIsSafe(tame, run, i);
    assert Follows(tame, run[i].state, run[i + 1]);
    StepKeepsStored(tame, run[i].state, run[i + 1].step, d);
  }

  lemma {:induction false} StoredForever(tame: bool, run: seq<Moment>, i: nat, j: nat, d: Digest)
    requires IsRun(tame, run) && Safe(run[0].state) && i <= j < |run|
    requires Stored(run[i].state.store, d)
    ensures Stored(run[j].state.store, d)
    decreases j
  {
    if i < j {
      StoredForever(tame, run, i, j - 1, d);
      StoredNext(tame, run, j - 1, d);
    }
  }

  // No content is ever lost to the engine. In every run, whatever others do in it: a
  // step that is not theirs replaces or removes nothing but the recorded or the
  // journaled content, and that can be read back in every later state.
  lemma NothingIsLost(tame: bool, run: seq<Moment>, i: nat, j: nat, p: Path)
    requires IsRun(tame, run) && Safe(run[0].state) && i + 1 <= j < |run|
    requires !run[i + 1].step.Edit?
    ensures Preserves(run[i].state, run[i + 1].state)
    ensures At(run[i].state.disk, p) != At(run[i + 1].state.disk, p) && At(run[i].state.disk, p).Some? ==>
      Stored(run[j].state.store, At(run[i].state.disk, p).value)
  {
    RunIsSafe(tame, run, i);
    assert Follows(tame, run[i].state, run[i + 1]);
    EngineStepPreserves(tame, run[i].state, run[i + 1].step);
    if At(run[i].state.disk, p) != At(run[i + 1].state.disk, p) && At(run[i].state.disk, p).Some? {
      StoredForever(tame, run, i, j, At(run[i].state.disk, p).value);
    }
  }

  // Somebody else changed this path in the step to the k-th moment.
  ghost predicate EditedAt(run: seq<Moment>, k: nat, p: Path) {
    0 < k < |run| && run[k].step.Edit? && At(run[k].state.disk, p) != At(run[k - 1].state.disk, p)
  }

  // Neither side of an open journal.
  predicate Foreign(record: Record, p: Path, content: Option<Digest>) {
    record.pending.Some? ==> content != Get(record.owned, p) && content != Get(After(record), p)
  }

  // What no journal knows stays where it is until somebody else changes it, however
  // many operations come, fail, die and are recovered meanwhile.
  lemma {:induction false} ForeignStays(tame: bool, run: seq<Moment>, i: nat, j: nat, p: Path)
    requires IsRun(tame, run) && i <= j < |run|
    requires forall k | i < k <= j :: !EditedAt(run, k, p)
    requires forall k | i <= k < j :: Foreign(run[k].state.record, p, At(run[i].state.disk, p))
    ensures At(run[j].state.disk, p) == At(run[i].state.disk, p)
    decreases j
  {
    if i < j {
      ForeignStays(tame, run, i, j - 1, p);
      assert Follows(tame, run[j - 1].state, run[j]) && !EditedAt(run, j, p);
      assert Foreign(run[j - 1].state.record, p, At(run[i].state.disk, p));
    }
  }

  // ---- Atomicity and conservation, when nobody edits the directory ----

  // The directory is a fixed base of files nobody here owns, plus the owned files;
  // under a journal each touched file is in its old or its new state.
  ghost predicate Intact(base: Disk, s: State) {
    && (forall p | p in base :: p !in s.record.owned && p !in After(s.record))
    && (forall p | p in Borrowed(s.record) :: At(base, p) == Some(Borrowed(s.record)[p]))
    && (forall p: Path :: IntactAt(base, s, p))
  }

  ghost predicate IntactAt(base: Disk, s: State, p: Path) {
    if Tracked(s.record, p) then At(s.disk, p) == Get(s.record.owned, p) || At(s.disk, p) == Get(After(s.record), p)
    else At(s.disk, p) == At(base, p)
  }

  lemma BeginKeepsIntact(base: Disk, s: State, journal: Journal, blobs: map<Digest, Content>)
    requires Intact(base, s) && Enabled(true, s, Begin(journal, blobs))
    ensures Intact(base, Do(s, Begin(journal, blobs)))
  {
    var t := Do(s, Begin(journal, blobs));
    forall p: Path
      ensures IntactAt(base, t, p)
      ensures Tracked(t.record, p) ==> p !in base
      ensures p in journal.borrowed ==> At(base, p) == Some(journal.borrowed[p])
    {
      assert IntactAt(base, s, p);
    }
  }

  lemma StepKeepsIntact(base: Disk, s: State, step: Step)
    requires Intact(base, s) && Enabled(true, s, step)
    ensures Intact(base, Do(s, step))
  {
    var t := Do(s, step);
    if step.Begin? {
      BeginKeepsIntact(base, s, step.journal, step.blobs);
    } else {
      if step.Forget? {
        NothingToForget(base, s, step.paths);
      }
      forall p: Path ensures IntactAt(base, t, p) {
        assert IntactAt(base, s, p);
      }
    }
  }

  // With nobody editing the directory no owned file can be missing.
  lemma NothingToForget(base: Disk, s: State, paths: set<Path>)
    requires Intact(base, s) && Enabled(true, s, Forget(paths))
    ensures paths == {} && Do(s, Forget(paths)) == s
  {
    forall p: Path | p in s.record.owned ensures At(s.disk, p) != None {
      assert IntactAt(base, s, p);
    }
    assert paths == {};
    assert s.record.owned - {} == s.record.owned;
  }

  function ContentsOf(files: Files): Disk {
    map p | p in files :: files[p].content
  }

  // With no journal open, the directory is exactly the base and the owned files.
  lemma QuiescentDisk(base: Disk, s: State)
    requires Intact(base, s) && s.record.pending.None?
    ensures s.disk == base + ContentsOf(s.record.owned) && base.Keys !! s.record.owned.Keys
  {
    var whole := base + ContentsOf(s.record.owned);
    forall p: Path ensures At(s.disk, p) == At(whole, p) {
      assert IntactAt(base, s, p);
    }
    SameDisk(s.disk, whole);
  }

  lemma SameDisk(a: Disk, b: Disk)
    requires forall p: Path :: At(a, p) == At(b, p)
    ensures a == b
  {
    forall p: Path ensures p in a <==> p in b {
      assert At(a, p) == At(b, p);
    }
    forall p | p in a ensures a[p] == b[p] {
      assert At(a, p) == At(b, p);
    }
  }

  lemma {:induction false} RunIsIntact(base: Disk, run: seq<Moment>, i: nat)
    requires IsRun(true, run) && Intact(base, run[0].state) && i < |run|
    ensures Intact(base, run[i].state)
  {
    if i > 0 {
      RunIsIntact(base, run, i - 1);
      assert Follows(true, run[i - 1].state, run[i]);
      StepKeepsIntact(base, run[i - 1].state, run[i].step);
    }
  }

  // Ownership only moves at the final save.
  lemma {:induction false} OwnedUntilCommit(base: Disk, run: seq<Moment>, i: nat, j: nat)
    requires IsRun(true, run) && Intact(base, run[0].state) && i <= j < |run|
    requires forall k | i < k <= j :: run[k].step != Commit
    ensures run[j].state.record.owned == run[i].state.record.owned
    decreases j
  {
    if i < j {
      OwnedUntilCommit(base, run, i, j - 1);
      RunIsIntact(base, run, j - 1);
      assert Follows(true, run[j - 1].state, run[j]) && run[j].step != Commit;
      if run[j].step.Forget? {
        NothingToForget(base, run[j - 1].state, run[j].step.paths);
      }
    }
  }

  // Atomicity. Start and end with no journal open; in between apply, crash and
  // recover any number of times. Without a final save the directory and the record
  // are what they were; the last final save, if any, decides what is deployed.
  lemma AllOrNothing(base: Disk, run: seq<Moment>, i: nat, j: nat)
    requires IsRun(true, run) && Intact(base, run[0].state) && i <= j < |run|
    requires run[j].state.record.pending.None?
    requires forall k | i < k <= j :: run[k].step != Commit
    ensures run[j].state.disk == base + ContentsOf(run[i].state.record.owned)
    ensures run[i].state.record.pending.None? ==>
      run[j].state.disk == run[i].state.disk && run[j].state.record == run[i].state.record
  {
    OwnedUntilCommit(base, run, i, j);
    RunIsIntact(base, run, i);
    RunIsIntact(base, run, j);
    QuiescentDisk(base, run[j].state);
    if run[i].state.record.pending.None? {
      QuiescentDisk(base, run[i].state);
    }
  }

  // Conservation. A run that begins with nothing owned and ends with nothing owned
  // gives back the original directory, byte for byte; borrowed files were never touched.
  lemma EverythingIsGivenBack(run: seq<Moment>)
    requires IsRun(true, run)
    requires run[0].state.record == Record(map[], None)
    requires run[|run| - 1].state.record == Record(map[], None)
    ensures run[|run| - 1].state.disk == run[0].state.disk
  {
    var base := run[0].state.disk;
    assert Intact(base, run[0].state) by {
      forall p: Path ensures IntactAt(base, run[0].state, p) {}
    }
    RunIsIntact(base, run, |run| - 1);
    QuiescentDisk(base, run[|run| - 1].state);
    assert ContentsOf(map[]) == map[];
  }

  lemma BaseIsNeverTouched(base: Disk, run: seq<Moment>, i: nat, p: Path)
    requires IsRun(true, run) && Intact(base, run[0].state) && i < |run|
    requires p in base
    ensures At(run[i].state.disk, p) == At(base, p)
  {
    RunIsIntact(base, run, i);
    assert IntactAt(base, run[i].state, p);
  }

  // ---- Path by path, when others edit elsewhere ----

  // Nobody else has changed this path so far.
  ghost predicate Unedited(run: seq<Moment>, p: Path) {
    forall k: nat :: !EditedAt(run, k, p)
  }

  // What Intact says of one path.
  ghost predicate PathIntact(base: Disk, s: State, p: Path) {
    && (p in base ==> p !in s.record.owned && p !in After(s.record))
    && (p in Borrowed(s.record) ==> At(base, p) == Some(Borrowed(s.record)[p]))
    && IntactAt(base, s, p)
  }

  // What was found out about the path before a save still holds.
  ghost predicate StillTrue(s: State, step: Step, p: Path) {
    match step
    case Begin(journal, _) =>
      && (p in s.record.owned ==> At(s.disk, p) == Some(s.record.owned[p]))
      && (p in journal.next && p !in s.record.owned ==> At(s.disk, p) == None)
      && (p in journal.borrowed ==> p !in s.record.owned && At(s.disk, p) == Some(journal.borrowed[p]))
    case Commit => Tracked(s.record, p) ==> At(s.disk, p) == Get(After(s.record), p)
    case Abort => Tracked(s.record, p) ==> At(s.disk, p) == Get(s.record.owned, p)
    case Forget(paths) => p in paths ==> At(s.disk, p) == None
    case _ => true
  }

  lemma StepKeepsPath(tame: bool, base: Disk, s: State, step: Step, p: Path)
    requires PathIntact(base, s, p) && Enabled(tame, s, step) && StillTrue(s, step, p)
    requires At(Do(s, step).disk, p) == At(s.disk, p) || !step.Edit?
    ensures PathIntact(base, Do(s, step), p)
  {
  }

  // A path that only the engine has changed is, with no journal open, as the base or
  // the owned files have it.
  ghost predicate PathGivenBack(base: Disk, s: State, p: Path) {
    if p in s.record.owned then p !in base && At(s.disk, p) == Some(s.record.owned[p]) else At(s.disk, p) == At(base, p)
  }

  ghost predicate PathsIntact(base: Disk, run: seq<Moment>)
    requires |run| > 0
  {
    forall p | Unedited(run, p) :: PathIntact(base, run[|run| - 1].state, p)
  }

  lemma PathsIntactMore(tame: bool, base: Disk, run: seq<Moment>, m: Moment)
    requires |run| > 0 && PathsIntact(base, run) && Follows(tame, run[|run| - 1].state, m)
    requires forall p | Unedited(run, p) :: StillTrue(run[|run| - 1].state, m.step, p)
    ensures PathsIntact(base, run + [m])
  {
    forall p | Unedited(run + [m], p) ensures PathIntact(base, m.state, p) {
      UneditedBefore(run, run + [m], p);
      assert !EditedAt(run + [m], |run|, p);
      StepKeepsPath(tame, base, run[|run| - 1].state, m.step, p);
    }
  }

  lemma UneditedBefore(run0: seq<Moment>, run1: seq<Moment>, p: Path)
    requires run0 <= run1 && Unedited(run1, p)
    ensures Unedited(run0, p)
  {
    forall k: nat ensures !EditedAt(run0, k, p) {
      assert !EditedAt(run1, k, p);
      assert k < |run0| ==> run0[k] == run1[k] && (k > 0 ==> run0[k - 1] == run1[k - 1]);
    }
  }

  // Outside `paths` nothing has changed but by others.
  ghost predicate Kept(run: seq<Moment>, before: Disk, after: Disk, paths: set<Path>) {
    forall p | p !in paths && Unedited(run, p) :: At(after, p) == At(before, p)
  }

  // Between two moments the engine did nothing.
  ghost predicate Idle(run: seq<Moment>, n: nat) {
    forall k | n < k < |run| :: !Acts(run[k].step)
  }

  lemma DeedsGrow(run: seq<Moment>, n: nat)
    requires n < |run|
    ensures |Deeds(run[..n + 1])| <= |Deeds(run)|
    ensures |Deeds(run[..n + 1])| == |Deeds(run)| ==> Idle(run, n)
    decreases |run|
  {
    if n + 1 < |run| {
      var shorter := run[..|run| - 1];
      DeedsGrow(shorter, n);
      assert shorter[..n + 1] == run[..n + 1];
      assert forall k | 0 <= k < |shorter| :: shorter[k] == run[k];
    } else {
      assert run[..n + 1] == run;
    }
  }

  lemma IdleStays(tame: bool, run: seq<Moment>, n: nat, k: nat, p: Path)
    requires IsRun(tame, run) && n <= k < |run| && Idle(run, n) && Unedited(run, p)
    ensures At(run[k].state.disk, p) == At(run[n].state.disk, p)
  {
    if n < k {
      IdleStays(tame, run, n, k - 1, p);
      assert Follows(tame, run[k - 1].state, run[k]) && !EditedAt(run, k, p);
    }
  }

  // What an unedited path held at some moment since, it holds now.
  lemma SeenIsNow(tame: bool, run: seq<Moment>, n: nat, p: Path, d: Option<Digest>)
    requires IsRun(tame, run) && n < |run| && Idle(run, n) && Unedited(run, p) && Seen(run, n, p, d)
    ensures At(run[|run| - 1].state.disk, p) == d
  {
    var k: nat :| n <= k < |run| && At(run[k].state.disk, p) == d;
    IdleStays(tame, run, n, k, p);
    IdleStays(tame, run, n, |run| - 1, p);
  }
}
