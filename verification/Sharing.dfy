// The states of a shared collection's import, and how the online task, the worker,
// the user and a restart may move them.
module Sharing {
  import opened Results
  import opened References

  datatype Status = Pending | Preparing | Ready | Unresolved

  datatype Entry = Entry(reference: Reference, status: Status, operation: Option<nat>)

  datatype Progress = Working | Cancelling | Cancelled | Completed | Failed

  // importing: a local build is being copied; its hash is not known yet.
  datatype Operation = Operation(hash: string, importing: bool, progress: Progress)

  // imports and stored are in the database, running is in memory; finished are the
  // operations that are or have been completed.
  datatype State = State(
    imports: map<string, seq<Entry>>, stored: map<nat, Operation>, running: map<nat, Operation>, next: nat,
    finished: set<nat>)

  const MAX_RUNNING: nat := 3

  predicate Over(p: Progress) {
    p == Cancelled || p == Completed || p == Failed
  }

  // ---- What holds in every state ----

  ghost predicate Attached(s: State, e: Entry, id: nat) {
    id in s.stored && !s.stored[id].importing && s.stored[id].hash == HashOf(e.reference)
  }

  ghost predicate GoodEntry(s: State, e: Entry) {
    && (e.operation.Some? ==> Attached(s, e, e.operation.value))
    && (e.status == Pending ==> e.operation.None?)
    && (e.status == Ready ==> e.operation.Some? && e.operation.value in s.finished)
  }

  ghost predicate GoodQueue(s: State) {
    && |s.running| <= MAX_RUNNING
    && (forall id | id in s.stored :: id < s.next)
    && (forall id | id in s.finished :: id < s.next)
    && (forall id | id in s.running :: id in s.stored && SameWork(s.stored[id], s.running[id]))
    && (forall id | id in s.stored && s.stored[id].progress == Completed :: id in s.finished)
    && (forall id | id in s.running && s.running[id].progress == Completed :: id in s.finished)
    && OncePerHash(s.running)
  }

  predicate WorksOn(running: map<nat, Operation>, id: nat, hash: string) {
    id in running && !running[id].importing && running[id].hash == hash
  }

  // Imports aside, no content is worked on twice at a time.
  ghost predicate OncePerHash(running: map<nat, Operation>) {
    forall i: nat, j: nat, hash | WorksOn(running, i, hash) && WorksOn(running, j, hash) :: i == j
  }

  predicate SameWork(a: Operation, b: Operation) {
    a.importing == b.importing && (!a.importing ==> a.hash == b.hash)
  }

  predicate HasOperation(imports: map<string, seq<Entry>>, c: string, i: nat, id: nat) {
    c in imports && i < |imports[c]| && imports[c][i].operation == Some(id)
  }

  // No operation serves two entries.
  ghost predicate AttachedOnce(imports: map<string, seq<Entry>>, from: nat) {
    forall id: nat, c, i: nat, d, j: nat |
      HasOperation(imports, c, i, id) && HasOperation(imports, d, j, id) && id >= from :: c == d && i == j
  }

  ghost predicate Inv(s: State) {
    && GoodQueue(s)
    && AttachedOnce(s.imports, 0)
    && forall c, i | c in s.imports && 0 <= i < |s.imports[c]| :: GoodEntry(s, s.imports[c][i])
  }

  // ---- Steps ----

  datatype Actor = Online | Worker | Queue | Restart | Begin(collection: string) | Retry(collection: string) | Delete(collection: string)

  // Operations are never forgotten, keep their work, and get new numbers.
  ghost predicate QueueGrows(s: State, t: State) {
    && s.next <= t.next && s.finished <= t.finished
    && (forall id | id in s.stored :: id in t.stored && SameWork(s.stored[id], t.stored[id]))
  }

  // The operation is over and was a success, as recorded or as the queue has it.
  predicate IsCompleted(s: State, id: nat) {
    || (id in s.stored && s.stored[id].progress == Completed)
    || (id in s.running && s.running[id].progress == Completed)
  }

  ghost predicate FinishedGrow(s: State, t: State) {
    forall id | id in t.finished :: id in s.finished || IsCompleted(t, id)
  }

  // A new operation for the reference.
  ghost predicate Started(s: State, t: State, r: Reference, id: nat) {
    s.next <= id && id in t.stored && !t.stored[id].importing && t.stored[id].hash == HashOf(r)
  }

  predicate Waiting(e: Entry) {
    e.status == Preparing && e.operation.None?
  }

  predicate Attending(e: Entry) {
    e.status == Preparing && e.operation.Some?
  }

  ghost predicate Starts(s: State, t: State, e: Entry, f: Entry) {
    && f.operation.Some? && Started(s, t, e.reference, f.operation.value)
    && f == e.(status := Preparing, operation := f.operation)
  }

  ghost predicate EntryStep(actor: Actor, s: State, t: State, e: Entry, f: Entry) {
    || f == e
    || match actor
       case Online =>
         || (e.status == Unresolved && f == e.(status := Preparing, operation := None))
         || (Waiting(e) && f == e.(status := Unresolved))
         || (Waiting(e) && Starts(s, t, e, f))
       case Worker =>
         || (Attending(e) && IsCompleted(s, e.operation.value) && f == e.(status := Ready))
         || (Attending(e) && f == e.(status := Unresolved))
         || (e.status == Pending && f == e.(status := Unresolved))
         || (e.status == Pending && Starts(s, t, e, f))
       case Restart => (e.status == Pending || e.status == Preparing) && f == e.(status := Unresolved)
       case _ => false
  }

  // Entries keep their places; operations new in this step serve one entry each.
  ghost predicate EntriesStep(actor: Actor, s: State, t: State) {
    && t.imports.Keys == s.imports.Keys
    && AttachedOnce(t.imports, s.next)
    && forall c | c in s.imports ::
         |t.imports[c]| == |s.imports[c]|
         && forall i | 0 <= i < |s.imports[c]| :: EntryStep(actor, s, t, s.imports[c][i], t.imports[c][i])
  }

  predicate Fresh(e: Entry) {
    (e.status == Pending || e.status == Unresolved) && e.operation.None?
  }

  predicate Stopped(e: Entry) {
    e.status == Ready || e.status == Unresolved
  }

  ghost predicate Step(actor: Actor, s: State, t: State) {
    && QueueGrows(s, t) && GoodQueue(t)
    && (if actor == Queue then FinishedGrow(s, t) else t.finished == s.finished)
    && match actor
       case Online => EntriesStep(actor, s, t)
       case Worker => EntriesStep(actor, s, t)
       case Queue => t.imports == s.imports
       case Restart => EntriesStep(actor, s, t) && t.running == map[]
       case Begin(c) => c !in s.imports && t.imports == s.imports[c := Entries(t, c)] && AllFresh(Entries(t, c))
       case Retry(c) =>
         && c in s.imports && (forall e | e in s.imports[c] :: Stopped(e))
         && t.imports == s.imports[c := Entries(t, c)] && AllFresh(Entries(t, c))
       case Delete(c) => t.imports == s.imports - {c}
  }

  function Entries(s: State, c: string): seq<Entry> {
    if c in s.imports then s.imports[c] else []
  }

  predicate AllFresh(entries: seq<Entry>) {
    forall e | e in entries :: Fresh(e)
  }

  // ---- Every step keeps what holds ----

  lemma StillAttached(s: State, t: State, e: Entry, id: nat)
    requires QueueGrows(s, t) && Attached(s, e, id)
    ensures Attached(t, e, id)
  {
  }

  lemma GoodStays(s: State, t: State, e: Entry)
    requires QueueGrows(s, t) && GoodEntry(s, e)
    ensures GoodEntry(t, e)
  {
  }

  lemma EntryStaysGood(actor: Actor, s: State, t: State, e: Entry, f: Entry)
    requires GoodQueue(s) && QueueGrows(s, t) && GoodEntry(s, e) && EntryStep(actor, s, t, e, f)
    ensures GoodEntry(t, f)
  {
    if f != e && f.operation == e.operation && f.operation.Some? {
      StillAttached(s, t, e, f.operation.value);
    }
    GoodStays(s, t, e);
  }

  lemma StillOnce(actor: Actor, s: State, t: State)
    requires Inv(s) && EntriesStep(actor, s, t)
    ensures AttachedOnce(t.imports, 0)
  {
    forall id: nat, c, i: nat, d, j: nat | HasOperation(t.imports, c, i, id) && HasOperation(t.imports, d, j, id)
      ensures c == d && i == j
    {
      if id < s.next {
        OldOperation(actor, s, t, c, i, id);
        OldOperation(actor, s, t, d, j, id);
      }
    }
  }

  lemma OldOperation(actor: Actor, s: State, t: State, c: string, i: nat, id: nat)
    requires EntriesStep(actor, s, t) && HasOperation(t.imports, c, i, id) && id < s.next
    ensures HasOperation(s.imports, c, i, id)
  {
    assert EntryStep(actor, s, t, s.imports[c][i], t.imports[c][i]);
  }

  lemma OnceReplaced(imports: map<string, seq<Entry>>, c: string, entries: seq<Entry>)
    requires AttachedOnce(imports, 0) && AllFresh(entries)
    ensures AttachedOnce(imports[c := entries], 0)
  {
    var after: map<string, seq<Entry>> := imports[c := entries];
    assert forall i | 0 <= i < |entries| :: entries[i] in entries;
    assert forall d, i: nat, id: nat | HasOperation(after, d, i, id) :: HasOperation(imports, d, i, id);
  }

  lemma StepKeepsInv(actor: Actor, s: State, t: State)
    requires Inv(s) && Step(actor, s, t)
    ensures Inv(t)
  {
    match actor {
      case Online | Worker | Restart =>
        StillOnce(actor, s, t);
        forall c, i | c in t.imports && 0 <= i < |t.imports[c]| ensures GoodEntry(t, t.imports[c][i]) {
          EntryStaysGood(actor, s, t, s.imports[c][i], t.imports[c][i]);
        }
      case Begin(b) => ReplacedKeepsInv(s, t, b);
      case Retry(b) => ReplacedKeepsInv(s, t, b);
      case _ => FewerKeepInv(s, t);
    }
  }

  lemma FewerKeepInv(s: State, t: State)
    requires Inv(s) && QueueGrows(s, t) && GoodQueue(t)
    requires forall c | c in t.imports :: c in s.imports && t.imports[c] == s.imports[c]
    ensures Inv(t)
  {
    assert forall c, i: nat, id: nat | HasOperation(t.imports, c, i, id) :: HasOperation(s.imports, c, i, id);
    forall c, i | c in t.imports && 0 <= i < |t.imports[c]| ensures GoodEntry(t, t.imports[c][i]) {
      GoodStays(s, t, s.imports[c][i]);
    }
  }

  lemma ReplacedKeepsInv(s: State, t: State, b: string)
    requires Inv(s) && QueueGrows(s, t) && GoodQueue(t)
    requires t.imports == s.imports[b := Entries(t, b)] && AllFresh(Entries(t, b))
    ensures Inv(t)
  {
    OnceReplaced(s.imports, b, Entries(t, b));
    forall c, i | c in t.imports && 0 <= i < |t.imports[c]| ensures GoodEntry(t, t.imports[c][i]) {
      if c == b {
        assert t.imports[b][i] in Entries(t, b);
      } else {
        GoodStays(s, t, s.imports[c][i]);
      }
    }
  }

  // ---- Changes of the queue ----

  lemma GrowsOn(s: State, t: State, u: State)
    requires QueueGrows(s, t) && QueueGrows(t, u)
    ensures QueueGrows(s, u)
  {
  }

  lemma LaunchIsOnce(running: map<nat, Operation>, id: nat, work: Operation)
    requires OncePerHash(running) && id !in running && |running| < MAX_RUNNING
    requires work.importing || forall i | i in running :: !running[i].importing && running[i].hash != work.hash
    ensures OncePerHash(running[id := work]) && |running[id := work]| <= MAX_RUNNING
  {
    var after := running[id := work];
    assert after.Keys == running.Keys + {id};
    assert forall i: nat, hash | WorksOn(after, i, hash) :: WorksOn(running, i, hash) || (i == id && hash == work.hash);
    assert forall i: nat, hash | WorksOn(running, i, hash) && !work.importing :: hash != work.hash;
  }

  lemma LaunchIsGood(s: State, t: State, work: Operation)
    requires GoodQueue(s) && work.progress == Working
    requires OncePerHash(s.running[s.next := work]) && |s.running[s.next := work]| <= MAX_RUNNING
    requires t == s.(stored := s.stored[s.next := work], running := s.running[s.next := work], next := s.next + 1)
    ensures QueueGrows(s, t) && GoodQueue(t)
  {
  }

  // The progress of a running operation changes in memory,
  lemma RunningIsGood(s: State, t: State, id: nat, p: Progress, finished: set<nat>)
    requires GoodQueue(s) && id in s.running && s.finished <= finished <= s.finished + {id}
    requires p == Completed ==> id in finished
    requires t == s.(running := s.running[id := s.running[id].(progress := p)], finished := finished)
    ensures QueueGrows(s, t) && GoodQueue(t)
  {
    var running := s.running[id := s.running[id].(progress := p)];
    assert running.Keys == s.running.Keys;
    ProgressIsOnce(s.running, running);
  }

  // and then in the database.
  lemma StoredIsGood(s: State, t: State, id: nat, p: Progress)
    requires GoodQueue(s) && id in s.stored && (p == Completed ==> id in s.finished)
    requires t == s.(stored := s.stored[id := s.stored[id].(progress := p)])
    ensures QueueGrows(s, t) && GoodQueue(t)
  {
  }

  lemma ProgressIsOnce(running: map<nat, Operation>, after: map<nat, Operation>)
    requires OncePerHash(running) && after.Keys == running.Keys
    requires forall id | id in running :: after[id] == running[id].(progress := after[id].progress)
    ensures OncePerHash(after) && |after| == |running|
  {
    assert |after.Keys| == |after| && |running.Keys| == |running|;
    assert forall i: nat, hash | WorksOn(after, i, hash) :: WorksOn(running, i, hash);
  }

  // What was completed for a moment and is not any more does not count as finished.
  lemma TakenBack(s: State, t: State, id: nat)
    requires GoodQueue(s) && QueueGrows(s, t) && GoodQueue(t)
    requires t.finished <= s.finished + {id} && (id in s.finished || !IsCompleted(t, id))
    ensures QueueGrows(s, t.(finished := s.finished)) && GoodQueue(t.(finished := s.finished))
  {
  }

  // An operation leaves the queue.
  lemma DropIsGood(s: State, t: State, id: nat)
    requires GoodQueue(s) && id in s.running && t == s.(running := s.running - {id})
    ensures QueueGrows(s, t) && GoodQueue(t)
  {
    assert t.running.Keys == s.running.Keys - {id};
    assert forall i: nat, hash | WorksOn(t.running, i, hash) :: WorksOn(s.running, i, hash);
  }

  lemma QueueMoves(s: State, t: State)
    requires Inv(s) && QueueGrows(s, t) && GoodQueue(t) && t.imports == s.imports
    requires FinishedGrow(s, t)
    ensures Step(Queue, s, t) && Inv(t)
  {
    StepKeepsInv(Queue, s, t);
  }

  // ---- Changes of the imports ----

  ghost predicate Below(imports: map<string, seq<Entry>>, n: nat) {
    forall c, i: nat, id: nat | HasOperation(imports, c, i, id) :: id < n
  }

  lemma InvBelow(s: State)
    requires Inv(s)
    ensures Below(s.imports, s.next)
  {
    forall c, i: nat, id: nat | HasOperation(s.imports, c, i, id) ensures id < s.next {
      assert GoodEntry(s, s.imports[c][i]);
    }
  }

  // A place whose operation stays, or is the newest of all.
  lemma OnePlace(m: map<string, seq<Entry>>, c: string, i: nat, f: Entry, k: nat, n: nat, after: nat)
    requires AttachedOnce(m, k) && Below(m, n) && k <= n <= after && c in m && i < |m[c]|
    requires f.operation == m[c][i].operation || (f.operation.Some? && n <= f.operation.value < after)
    ensures AttachedOnce(m[c := m[c][i := f]], k) && Below(m[c := m[c][i := f]], after)
  {
    var t: map<string, seq<Entry>> := m[c := m[c][i := f]];
    assert forall d, j: nat, id: nat | HasOperation(t, d, j, id) :: HasOperation(m, d, j, id) || (d == c && j == i && n <= id < after);
  }

  // No entry has a new operation.
  lemma NoneNew(imports: map<string, seq<Entry>>, n: nat, c: string, entries: seq<Entry>)
    requires Below(imports, n) && c in imports && |entries| == |imports[c]|
    requires forall i | 0 <= i < |entries| :: entries[i].operation.None? || entries[i].operation == imports[c][i].operation
    ensures AttachedOnce(imports[c := entries], n)
  {
    var after: map<string, seq<Entry>> := imports[c := entries];
    assert forall d, i: nat, id: nat | HasOperation(after, d, i, id) :: HasOperation(imports, d, i, id);
  }

  lemma OnceAbove(imports: map<string, seq<Entry>>, n: nat)
    requires Below(imports, n)
    ensures AttachedOnce(imports, n)
  {
  }

  lemma EntriesMove(actor: Actor, s: State, t: State, c: string, entries: seq<Entry>)
    requires Inv(s) && QueueGrows(s, t) && GoodQueue(t) && t.finished == s.finished
    requires actor == Online || actor == Worker
    requires c in s.imports && |entries| == |s.imports[c]| && t.imports == s.imports[c := entries]
    requires forall i | 0 <= i < |entries| :: EntryStep(actor, s, t, s.imports[c][i], entries[i])
    requires AttachedOnce(t.imports, s.next)
    ensures Step(actor, s, t) && Inv(t)
  {
    assert t.imports.Keys == s.imports.Keys;
    StepKeepsInv(actor, s, t);
  }

  // Nothing but the queue has changed.
  lemma NoEntryMoves(actor: Actor, s: State, t: State)
    requires Inv(s) && QueueGrows(s, t) && GoodQueue(t) && t.finished == s.finished && t.imports == s.imports
    requires actor == Online || actor == Worker
    ensures Step(actor, s, t) && Inv(t)
  {
    InvBelow(s);
    OnceAbove(s.imports, s.next);
    StepKeepsInv(actor, s, t);
  }

  // ---- Who moves an entry ----

  ghost predicate At(s: State, c: string, i: nat, e: Entry) {
    c in s.imports && i < |s.imports[c]| && s.imports[c][i] == e
  }

  // The import is deleted, or the entry is moved by one of these two.
  ghost predicate Moved(actor: Actor, t: State, c: string, i: nat, e: Entry, owner: Actor) {
    !At(t, c, i, e) ==> actor == owner || actor.Restart? || actor == Delete(c)
  }

  lemma StoppedBeforeRetry(s: State, c: string, i: nat, e: Entry)
    requires At(s, c, i, e) && forall x | x in s.imports[c] :: Stopped(x)
    ensures Stopped(e)
  {
    assert s.imports[c][i] in s.imports[c];
  }

  // An entry that is being prepared without an operation is the online task's; with
  // one, or while it waits for the worker, it is the worker's. A restart stops both.
  lemma Ownership(actor: Actor, s: State, t: State, c: string, i: nat, e: Entry)
    requires Inv(s) && Step(actor, s, t) && At(s, c, i, e)
    ensures Waiting(e) ==> Moved(actor, t, c, i, e, Online)
    ensures Attending(e) || e.status == Pending ==> Moved(actor, t, c, i, e, Worker)
  {
    if actor == Retry(c) {
      StoppedBeforeRetry(s, c, i, e);
    }
    if actor == Online || actor == Worker || actor.Restart? {
      assert EntryStep(actor, s, t, s.imports[c][i], t.imports[c][i]);
    }
  }

  // Only the worker makes an entry ready, and only when the operation attached to
  // it is completed.
  lemma BecomesReady(actor: Actor, s: State, t: State, c: string, i: nat, f: Entry)
    requires Inv(s) && Step(actor, s, t) && At(t, c, i, f) && !At(s, c, i, f) && f.status == Ready
    ensures actor == Worker && At(s, c, i, f.(status := Preparing))
    ensures f.operation.Some? && IsCompleted(s, f.operation.value) && f.operation.value in s.finished
  {
    FreshAreNotMoved(actor, s, t, c, i, f);
    assert EntryStep(actor, s, t, s.imports[c][i], f);
    assert s.imports[c][i].(status := Preparing) == s.imports[c][i];
  }

  // An operation is attached when it is started, by the online task or the worker.
  lemma BecomesAttending(actor: Actor, s: State, t: State, c: string, i: nat, f: Entry)
    requires Inv(s) && Step(actor, s, t) && At(t, c, i, f) && !At(s, c, i, f) && Attending(f)
    ensures (actor == Online && At(s, c, i, f.(operation := None)))
         || (actor == Worker && At(s, c, i, f.(status := Pending, operation := None)))
    ensures Started(s, t, f.reference, f.operation.value)
  {
    FreshAreNotMoved(actor, s, t, c, i, f);
    assert EntryStep(actor, s, t, s.imports[c][i], f);
    assert GoodEntry(s, s.imports[c][i]);
  }

  lemma ReplacedAreFresh(s: State, t: State, b: string, c: string, i: nat, f: Entry)
    requires t.imports == s.imports[b := Entries(t, b)] && AllFresh(Entries(t, b)) && At(t, c, i, f)
    ensures At(s, c, i, f) || Fresh(f)
  {
    if c == b {
      assert t.imports[c][i] in Entries(t, b);
    }
  }

  lemma FreshAreNotMoved(actor: Actor, s: State, t: State, c: string, i: nat, f: Entry)
    requires Step(actor, s, t) && At(t, c, i, f) && !At(s, c, i, f) && !Fresh(f)
    ensures (actor == Online || actor == Worker || actor.Restart?) && c in s.imports && i < |s.imports[c]|
  {
    if actor.Begin? || actor.Retry? {
      ReplacedAreFresh(s, t, actor.collection, c, i, f);
    }
  }

  // ---- Runs ----

  ghost predicate IsRun(run: seq<State>, actors: seq<Actor>) {
    |run| == |actors| + 1 && forall k | 0 <= k < |actors| :: Step(actors[k], run[k], run[k + 1])
  }

  lemma RunMore(run: seq<State>, actors: seq<Actor>, actor: Actor, t: State)
    requires IsRun(run, actors) && Step(actor, run[|run| - 1], t)
    ensures IsRun(run + [t], actors + [actor])
  {
    var longer, more := run + [t], actors + [actor];
    forall k | 0 <= k < |more| ensures Step(more[k], longer[k], longer[k + 1]) {
      if k < |actors| {
        assert Step(actors[k], run[k], run[k + 1]);
      }
    }
  }

  lemma {:induction false} RunKeepsInv(run: seq<State>, actors: seq<Actor>, n: nat)
    requires IsRun(run, actors) && Inv(run[0]) && n < |run|
    ensures Inv(run[n])
  {
    if n > 0 {
      RunKeepsInv(run, actors, n - 1);
      StepKeepsInv(actors[n - 1], run[n - 1], run[n]);
    }
  }

  // The entry stands there from k to n.
  ghost predicate Stands(run: seq<State>, k: nat, n: nat, c: string, i: nat, e: Entry)
    requires n < |run|
  {
    forall m | k <= m <= n :: At(run[m], c, i, e)
  }

  // In step k the entry becomes what it then stays until n.
  ghost predicate Becomes(run: seq<State>, k: nat, n: nat, c: string, i: nat, e: Entry)
    requires n < |run|
  {
    k < n && !At(run[k], c, i, e) && Stands(run, k + 1, n, c, i, e)
  }

  lemma {:induction false} BecameOnce(run: seq<State>, n: nat, c: string, i: nat, e: Entry)
    requires n < |run| && run[0].imports == map[] && At(run[n], c, i, e)
    ensures exists k: nat :: Becomes(run, k, n, c, i, e)
  {
    if At(run[n - 1], c, i, e) {
      BecameOnce(run, n - 1, c, i, e);
      var k: nat :| Becomes(run, k, n - 1, c, i, e);
      assert Becomes(run, k, n, c, i, e);
    } else {
      assert Becomes(run, n - 1, n, c, i, e);
    }
  }

  // What counts as finished has been completed in some state of the run.
  lemma {:induction false} FinishedWasCompleted(run: seq<State>, actors: seq<Actor>, n: nat, id: nat)
    requires IsRun(run, actors) && run[0].finished == {} && n < |run| && id in run[n].finished
    ensures exists k: nat :: k <= n && IsCompleted(run[k], id)
  {
    if id in run[n - 1].finished {
      FinishedWasCompleted(run, actors, n - 1, id);
    } else {
      assert Step(actors[n - 1], run[n - 1], run[n]);
      assert IsCompleted(run[n], id);
    }
  }

  // The entry has come the whole way: an operation was started for exactly its content
  // and attached to it, it stayed attached until the operation was completed, and then
  // the worker made the entry ready.
  ghost predicate IsEarned(run: seq<State>, actors: seq<Actor>, n: nat, c: string, i: nat, e: Entry)
    requires n < |run| == |actors| + 1
  {
    && e.operation.Some?
    && exists j: nat, k: nat {:trigger Becomes(run, j, k, c, i, e.(status := Preparing)), Becomes(run, k, n, c, i, e)} ::
      && k < n && Becomes(run, j, k, c, i, e.(status := Preparing)) && Becomes(run, k, n, c, i, e)
      && Started(run[j], run[j + 1], e.reference, e.operation.value)
      && actors[k] == Worker && IsCompleted(run[k], e.operation.value)
  }

  lemma ReadyIsEarned(run: seq<State>, actors: seq<Actor>, n: nat, c: string, i: nat, e: Entry)
    requires IsRun(run, actors) && Inv(run[0]) && run[0].imports == map[]
    requires n < |run| && At(run[n], c, i, e) && e.status == Ready
    ensures IsEarned(run, actors, n, c, i, e)
  {
    BecameOnce(run, n, c, i, e);
    var k: nat :| Becomes(run, k, n, c, i, e);
    RunKeepsInv(run, actors, k);
    assert At(run[k + 1], c, i, e);
    BecomesReady(actors[k], run[k], run[k + 1], c, i, e);
    var before := e.(status := Preparing);
    BecameOnce(run, k, c, i, before);
    var j: nat :| Becomes(run, j, k, c, i, before);
    RunKeepsInv(run, actors, j);
    assert At(run[j + 1], c, i, before);
    BecomesAttending(actors[j], run[j], run[j + 1], c, i, before);
  }
}
