// The shared-collection imports and the package queue, as the worker owns them.
module SharingService {
  import opened Results
  import opened Sequences
  import opened References
  import opened Sharing

  // What the rest of the library answers at the moment of a call.
  datatype World = World(content: set<Reference>, blocked: set<string>, verifiable: set<Reference>)

  // `assess`: the exact content is there and not blocked.
  predicate Available(world: World, r: Reference) {
    HashOf(r) !in world.blocked && r in world.content
  }

  // ---- One entry ----

  // `Plan`: a missing release is taken up by the online task.
  predicate IsMissing(world: World, e: Entry) {
    e.reference.Registry? && e.status == Unresolved && e.reference !in world.content
  }

  function Planned(world: World, e: Entry): Entry {
    if IsMissing(world, e) && HashOf(e.reference) !in world.blocked
    then e.(status := Preparing, operation := None) else e
  }

  function PlannedAll(world: World, entries: seq<Entry>): (r: seq<Entry>)
    ensures |r| == |entries| && forall i | 0 <= i < |r| :: r[i] == Planned(world, entries[i])
  {
    seq(|entries|, i requires 0 <= i < |entries| => Planned(world, entries[i]))
  }

  predicate WaitsFor(e: Entry, r: Reference) {
    e.reference == r && Waiting(e)
  }

  function FindWaiting(entries: seq<Entry>, r: Reference, i: nat): (place: Option<nat>)
    requires i <= |entries|
    ensures place.Some? ==> i <= place.value < |entries| && WaitsFor(entries[place.value], r)
    ensures place.Some? ==> forall j | i <= j < place.value :: !WaitsFor(entries[j], r)
    ensures place.None? ==> forall j | i <= j < |entries| :: !WaitsFor(entries[j], r)
    decreases |entries| - i
  {
    if i == |entries| then None
    else if WaitsFor(entries[i], r) then Some(i)
    else FindWaiting(entries, r, i + 1)
  }

  // `review`: the state of an import that is just beginning.
  function Reviewed(world: World, references: seq<Reference>): (r: seq<Entry>)
    ensures |r| == |references| && AllFresh(r)
    ensures forall i | 0 <= i < |r| ::
              r[i] == Entry(references[i], if Available(world, references[i]) then Pending else Unresolved, None)
  {
    seq(|references|, i requires 0 <= i < |references| =>
      Entry(references[i], if Available(world, references[i]) then Pending else Unresolved, None))
  }

  function Halted(e: Entry): Entry {
    if Stopped(e) then e else e.(status := Unresolved)
  }

  function HaltedAll(entries: seq<Entry>): (r: seq<Entry>)
    ensures |r| == |entries| && forall i | 0 <= i < |r| :: r[i] == Halted(entries[i])
  {
    seq(|entries|, i requires 0 <= i < |entries| => Halted(entries[i]))
  }

  // ---- The service ----

  class Service {
    var imports: map<string, seq<Entry>>
    var stored: map<nat, Operation>
    var running: map<nat, Operation>
    var next: nat
    ghost var finished: set<nat>
    // No write fails now; and the contents whose operation could not be recorded since
    // the last poll began, in turn.
    var calm: bool
    ghost var lost: seq<string>

    ghost function Now(): State
      reads this
    {
      State(imports, stored, running, next, finished)
    }

    constructor ()
      ensures Inv(Now()) && Now() == State(map[], map[], map[], 0, {})
      ensures !calm && lost == []
    {
      imports, stored, running, next, finished := map[], map[], map[], 0, {};
      calm, lost := false, [];
    }

    // A write to the database may fail.
    method Saves() returns (ok: bool)
      ensures calm ==> ok
    {
      ok := true;
      if !calm {
        ok := *;
      }
    }

    // ---- The queue ----

    predicate Busy(hash: string)
      reads this
    {
      exists id | id in running :: running[id].importing || running[id].hash == hash
    }

    // `can_start`
    predicate CanStart(hash: string)
      reads this
    {
      |running| < MAX_RUNNING && !Busy(hash)
    }

    // Records an operation and starts its work.
    method Launch(hash: string, importing: bool) returns (r: Option<nat>)
      requires GoodQueue(Now()) && |running| < MAX_RUNNING && (importing || !Busy(hash))
      modifies this`stored, this`running, this`next, this`lost
      ensures calm ==> r.Some?
      ensures lost == if r.Some? then old(lost) else old(lost) + [hash]
      ensures r.None? ==> Now() == old(Now())
      ensures r.Some? ==> r.value == old(next) && next == old(next) + 1
      ensures r.Some? ==> stored == old(stored)[r.value := Operation(hash, importing, Working)]
      ensures r.Some? ==> running == old(running)[r.value := Operation(hash, importing, Working)]
      ensures QueueGrows(old(Now()), Now()) && GoodQueue(Now())
    {
      var ok := Saves();
      if !ok {
        lost := lost + [hash];
        return None;
      }
      r := Some(next);
      var work := Operation(hash, importing, Working);
      LaunchIsOnce(running, next, work);
      stored := stored[next := work];
      running := running[next := work];
      next := next + 1;
      LaunchIsGood(old(Now()), Now(), work);
    }

    // `import_local`: a local build is copied into the library.
    method Import(already: bool) returns (r: Option<nat>)
      requires Inv(Now())
      modifies this`stored, this`running, this`next, this`lost
      ensures Inv(Now()) && Step(Queue, old(Now()), Now())
      ensures r.Some? ==> |old(running)| < MAX_RUNNING && !already && r.value in running && running[r.value].importing
      ensures calm && |old(running)| < MAX_RUNNING && !already ==> r.Some?
    {
      r := None;
      if |running| < MAX_RUNNING && !already {
        r := Launch("", true);
      }
      QueueMoves(old(Now()), Now());
    }

    // `verify_local` and `verify_registry_installed`
    method Verify(world: World, r: Reference) returns (id: Option<nat>)
      requires GoodQueue(Now())
      modifies this`stored, this`running, this`next, this`lost
      ensures id.None? ==> Now() == old(Now())
      ensures id.Some? ==> CanStartIn(old(running), HashOf(r)) && HashOf(r) !in world.blocked && r in world.verifiable
      ensures id.Some? ==> id.value == old(next) && Started(old(Now()), Now(), r, id.value) && next == old(next) + 1
      ensures id.Some? ==> lost == old(lost) && running == old(running)[id.value := Operation(HashOf(r), false, Working)]
      // Refused for a reason.
      ensures id.None? ==>
        || (lost == old(lost) && (!CanStartIn(old(running), HashOf(r)) || HashOf(r) in world.blocked || r !in world.verifiable))
        || (lost == old(lost) + [HashOf(r)] && !calm)
      ensures QueueGrows(old(Now()), Now()) && GoodQueue(Now())
    {
      if !CanStart(HashOf(r)) || HashOf(r) in world.blocked || r !in world.verifiable {
        return None;
      }
      id := Launch(HashOf(r), false);
    }

    method Cancel(id: nat) returns (ok: bool)
      requires Inv(Now())
      modifies this`stored, this`running
      ensures Inv(Now()) && Step(Queue, old(Now()), Now())
      ensures ok ==> id in old(running)
      ensures calm && id in old(running) ==> ok
      ensures running == if id in old(running) then old(running)[id := old(running)[id].(progress := Cancelling)] else old(running)
      ensures stored == if ok then old(stored)[id := old(stored)[id].(progress := Cancelling)] else old(stored)
    {
      ok := false;
      if id in running {
        ok := Record(id, Cancelling);
      }
      QueueMoves(old(Now()), Now());
    }

    // The progress changes in memory; the write that follows may fail.
    method Record(id: nat, p: Progress) returns (ok: bool)
      requires GoodQueue(Now()) && id in running && p != Completed
      modifies this`stored, this`running
      ensures calm ==> ok
      ensures running == old(running)[id := old(running)[id].(progress := p)]
      ensures stored == if ok then old(stored)[id := old(stored)[id].(progress := p)] else old(stored)
      ensures QueueGrows(old(Now()), Now()) && GoodQueue(Now())
    {
      running := running[id := running[id].(progress := p)];
      RunningIsGood(old(Now()), Now(), id, p, finished);
      ghost var between := Now();
      ok := Saves();
      if ok {
        stored := stored[id := stored[id].(progress := p)];
        StoredIsGood(between, Now(), id, p);
      }
    }

    method Leave(id: nat)
      requires GoodQueue(Now()) && id in running
      modifies this`running
      ensures running == old(running) - {id}
      ensures QueueGrows(old(Now()), Now()) && GoodQueue(Now())
    {
      running := running - {id};
      DropIsGood(old(Now()), Now(), id);
    }

    // An answer other than success: the operation leaves once that is recorded.
    method Fail(id: nat, p: Progress) returns (removed: bool)
      requires GoodQueue(Now()) && id in running && p != Completed && Over(p)
      modifies this`stored, this`running
      ensures calm ==> removed
      ensures removed <==> id !in running
      ensures removed ==> Left(old(running), running, old(stored), stored, id, p)
      ensures !removed ==> stored == old(stored) && running == old(running)[id := old(running)[id].(progress := p)]
      ensures running.Keys <= old(running).Keys && QueueGrows(old(Now()), Now()) && GoodQueue(Now())
    {
      removed := Record(id, p);
      if removed {
        ghost var between := Now();
        LeavesAnyway(old(running), id, running[id]);
        Leave(id);
        GrowsOn(old(Now()), between, Now());
      }
    }

    // Success is recorded as completed.
    method Complete(id: nat) returns (removed: bool)
      requires GoodQueue(Now()) && id in running
      modifies this`stored, this`running, this`finished
      ensures finished == old(finished) + {id}
      ensures calm ==> removed
      ensures IsCompleted(Now(), id)
      ensures removed <==> id !in running
      ensures removed ==> Left(old(running), running, old(stored), stored, id, Completed)
      ensures !removed ==> stored == old(stored) && running == old(running)[id := old(running)[id].(progress := Completed)]
      ensures running.Keys <= old(running).Keys && QueueGrows(old(Now()), Now()) && GoodQueue(Now())
    {
      running := running[id := running[id].(progress := Completed)];
      finished := finished + {id};
      RunningIsGood(old(Now()), Now(), id, Completed, finished);
      ghost var between := Now();
      removed := Saves();
      if removed {
        stored := stored[id := stored[id].(progress := Completed)];
        StoredIsGood(between, Now(), id, Completed);
        ghost var recorded := Now();
        GrowsOn(old(Now()), between, recorded);
        LeavesAnyway(old(running), id, running[id]);
        Leave(id);
        GrowsOn(old(Now()), recorded, Now());
      }
    }

    // A local verification that cannot be saved as completed is saved as failed.
    method CompleteOrFail(id: nat, local: bool) returns (removed: bool)
      requires GoodQueue(Now()) && id in running
      modifies this`stored, this`running, this`finished
      ensures FinishedGrow(old(Now()), Now())
      ensures calm ==> removed
      ensures removed <==> id !in running
      ensures removed ==> LeftAfter(old(running), running, old(stored), stored, id, local && !calm)
      ensures !removed ==> stored == old(stored)
      ensures running.Keys <= old(running).Keys && QueueGrows(old(Now()), Now()) && GoodQueue(Now())
    {
      removed := Complete(id);
      if removed || !local {
        return;
      }
      removed := FailInstead(id, old(Now()));
    }

    // The operation was completed, but that could not be recorded.
    method FailInstead(id: nat, ghost s: State) returns (removed: bool)
      requires GoodQueue(s) && QueueGrows(s, Now()) && GoodQueue(Now()) && id in running
      requires stored == s.stored && finished <= s.finished + {id}
      requires id in s.running && running == s.running[id := running[id]]
      modifies this`stored, this`running, this`finished
      ensures calm ==> removed
      ensures finished == s.finished && QueueGrows(s, Now()) && GoodQueue(Now())
      ensures removed <==> id !in running
      ensures removed ==> Left(s.running, running, s.stored, stored, id, Failed)
      ensures !removed ==> stored == s.stored
      ensures running.Keys <= s.running.Keys
    {
      LeavesAnyway(s.running, id, running[id]);
      removed := Fail(id, Failed);
      GrowsOn(s, old(Now()), Now());
      TakeBack(id, s);
    }

    ghost method TakeBack(id: nat, s: State)
      requires GoodQueue(s) && QueueGrows(s, Now()) && GoodQueue(Now())
      requires finished <= s.finished + {id} && (id in s.finished || !IsCompleted(Now(), id))
      modifies this`finished
      ensures finished == s.finished && QueueGrows(s, Now()) && GoodQueue(Now())
    {
      TakenBack(s, Now(), id);
      finished := s.finished;
    }

    // `poll` for one verification whose worker has answered. Completion is committed
    // here, so a cancellation still wins.
    method Commit(id: nat, passed: bool, local: bool) returns (removed: bool)
      requires Inv(Now()) && id in running
      modifies this`stored, this`running, this`finished
      ensures Inv(Now()) && Step(Queue, old(Now()), Now())
      ensures calm ==> removed
      ensures calm && passed && old(running)[id].progress != Cancelling ==> Left(old(running), running, old(stored), stored, id, Completed)
      ensures removed <==> id !in running
      ensures !removed ==> stored == old(stored)
      ensures removed && old(running)[id].progress == Cancelling ==> Left(old(running), running, old(stored), stored, id, Cancelled)
      ensures removed && old(running)[id].progress != Cancelling && !passed ==> Left(old(running), running, old(stored), stored, id, Failed)
      ensures removed && old(running)[id].progress != Cancelling && passed ==>
        Left(old(running), running, old(stored), stored, id, Completed) || (local && Left(old(running), running, old(stored), stored, id, Failed))
      ensures id in finished && id !in old(finished) ==> passed && old(running)[id].progress != Cancelling
    {
      var cancelled := running[id].progress == Cancelling;
      if passed && !cancelled {
        removed := CompleteOrFail(id, local);
      } else {
        removed := Fail(id, if cancelled then Cancelled else Failed);
      }
      QueueMoves(old(Now()), Now());
    }

    // A registry job reports: its progress changes, it may be dropped, and once its
    // work has succeeded it may be recorded as completed.
    method Advance(id: nat, p: Progress, passed: bool, dropped: bool)
      requires Inv(Now()) && id in running && (p == Completed ==> passed)
      modifies this`stored, this`running, this`finished
      ensures Inv(Now()) && Step(Queue, old(Now()), Now())
    {
      ReportAndDrop(id, p, passed, dropped);
      QueueMoves(old(Now()), Now());
    }

    method ReportAndDrop(id: nat, p: Progress, passed: bool, dropped: bool)
      requires GoodQueue(Now()) && id in running && (p == Completed ==> passed)
      modifies this`stored, this`running, this`finished
      ensures QueueGrows(old(Now()), Now()) && GoodQueue(Now()) && FinishedGrow(old(Now()), Now())
    {
      var saved := Report(id, p, passed);
      if dropped {
        Drop(id, saved, old(Now()));
      }
    }

    // A completion that was not recorded leaves no trace.
    method Drop(id: nat, saved: bool, ghost s: State)
      requires GoodQueue(s) && QueueGrows(s, Now()) && GoodQueue(Now()) && id in running && finished <= s.finished + {id}
      requires if saved then FinishedGrow(s, Now()) && stored[id].progress == running[id].progress else stored == s.stored
      modifies this`running, this`finished
      ensures running == old(running) - {id}
      ensures QueueGrows(s, Now()) && GoodQueue(Now()) && FinishedGrow(s, Now())
    {
      Leave(id);
      GrowsOn(s, old(Now()), Now());
      if !saved {
        TakeBack(id, s);
      }
    }

    method Report(id: nat, p: Progress, passed: bool) returns (saved: bool)
      requires GoodQueue(Now()) && id in running && (p == Completed ==> passed)
      modifies this`stored, this`running, this`finished
      ensures QueueGrows(old(Now()), Now()) && GoodQueue(Now())
      ensures calm ==> saved
      ensures running == old(running)[id := old(running)[id].(progress := p)]
      ensures stored == if saved then old(stored)[id := old(stored)[id].(progress := p)] else old(stored)
      ensures finished == old(finished) + (if p == Completed then {id} else {})
      ensures FinishedGrow(old(Now()), Now())
    {
      running := running[id := running[id].(progress := p)];
      finished := finished + (if p == Completed then {id} else {});
      RunningIsGood(old(Now()), Now(), id, p, finished);
      ghost var between := Now();
      saved := Saves();
      if saved {
        stored := stored[id := stored[id].(progress := p)];
        StoredIsGood(between, Now(), id, p);
        GrowsOn(old(Now()), between, Now());
      }
    }

    // ---- The online task ----

    // `Plan`: takes up every missing release; nothing is written when there is none.
    method Plan(world: World, c: string) returns (r: Option<seq<Reference>>)
      requires Inv(Now())
      modifies this`imports
      ensures Inv(Now()) && Step(Online, old(Now()), Now())
      ensures r.Some? ==> c in old(imports) && imports == old(imports)[c := PlannedAll(world, old(imports)[c])]
      ensures r.Some? ==> TakesUp(world, old(imports)[c], imports[c], r.value)
      ensures r.None? ==> imports == old(imports)
      ensures calm && c in old(imports) ==> r.Some?
    {
      r := PlanImport(world, c);
      if r.Some? {
        PlannedTakesUp(world, old(imports)[c]);
      }
    }

    method PlanImport(world: World, c: string) returns (r: Option<seq<Reference>>)
      requires Inv(Now())
      modifies this`imports
      ensures Inv(Now()) && Step(Online, old(Now()), Now())
      ensures r.Some? ==> c in old(imports) && imports == old(imports)[c := PlannedAll(world, old(imports)[c])]
      ensures r.Some? ==> r.value == Taken(world, old(imports)[c])
      ensures r.None? ==> imports == old(imports)
      ensures calm && c in old(imports) ==> r.Some?
    {
      NoEntryMoves(Online, Now(), Now());
      if c !in imports {
        return None;
      }
      var entries, missing := PlanEntries(world, imports[c]);
      if missing != [] {
        var ok := Saves();
        if !ok {
          return None;
        }
        PlanMoves(world, c, entries);
        imports := imports[c := entries];
      } else {
        NothingTaken(world, imports[c]);
        assert imports == imports[c := PlannedAll(world, imports[c])];
      }
      return Some(missing);
    }

    method PlanEntries(world: World, before: seq<Entry>) returns (entries: seq<Entry>, missing: seq<Reference>)
      ensures entries == PlannedAll(world, before) && missing == Taken(world, before)
    {
      entries, missing := before, [];
      for i := 0 to |entries|
        invariant |entries| == |before| && PlannedUpTo(world, before, entries, i, missing)
      {
        var e := entries[i];
        PlannedMore(world, before, entries, i, missing);
        if e.reference.Registry? && e.status == Unresolved && e.reference !in world.content && HashOf(e.reference) !in world.blocked {
          entries := entries[i := Entry(e.reference, Preparing, None)];
          missing := missing + [e.reference];
        }
      }
      PlannedWhole(world, before, entries, missing);
    }

    lemma PlanMoves(world: World, c: string, entries: seq<Entry>)
      requires Inv(Now()) && c in imports && |entries| == |imports[c]|
      requires forall j | 0 <= j < |entries| :: entries[j] == Planned(world, imports[c][j])
      ensures var t := Now().(imports := imports[c := entries]);
              Step(Online, Now(), t) && Inv(t)
    {
      InvBelow(Now());
      NoneNew(imports, next, c, entries);
      EntriesMove(Online, Now(), Now().(imports := imports[c := entries]), c, entries);
    }

    // `Fail`: the release could not be approved.
    method GiveUp(c: string, r: Reference) returns (ok: bool)
      requires Inv(Now())
      modifies this`imports
      ensures Inv(Now()) && Step(Online, old(Now()), Now())
      ensures calm && c in old(imports) ==> ok
      ensures !ok || c !in old(imports) || FindWaiting(old(imports)[c], r, 0).None? ==> imports == old(imports)
      ensures ok && c in old(imports) && FindWaiting(old(imports)[c], r, 0).Some? ==>
        var p := FindWaiting(old(imports)[c], r, 0).value;
        imports == old(imports)[c := old(imports)[c][p := Entry(r, Unresolved, None)]]
    {
      NoEntryMoves(Online, Now(), Now());
      if c !in imports {
        return false;
      }
      var place := FindWaiting(imports[c], r, 0);
      if place.None? {
        return true;
      }
      ok := Saves();
      if ok {
        var entries := imports[c][place.value := Entry(r, Unresolved, None)];
        InvBelow(Now());
        NoneNew(imports, next, c, entries);
        EntriesMove(Online, Now(), Now().(imports := imports[c := entries]), c, entries);
        imports := imports[c := entries];
      }
    }

    // The registry approves the exact release and a job starts, or it does not.
    method Approve(r: Reference, approved: bool) returns (id: Option<nat>)
      requires GoodQueue(Now())
      modifies this`stored, this`running, this`next, this`lost
      ensures calm && approved && CanStartIn(old(running), HashOf(r)) ==> id.Some?
      ensures id.None? ==> Now() == old(Now())
      ensures id.Some? ==> id.value == old(next) && Started(old(Now()), Now(), r, id.value) && next == old(next) + 1
      ensures id.Some? ==> id.value in running && CanStartIn(old(running), HashOf(r)) && approved
      ensures QueueGrows(old(Now()), Now()) && GoodQueue(Now())
    {
      if !approved || !CanStart(HashOf(r)) {
        return None;
      }
      id := Launch(HashOf(r), false);
    }

    // Content that is there is verified, other content is downloaded.
    method Prepare(world: World, r: Reference, approved: bool) returns (id: Option<nat>)
      requires GoodQueue(Now()) && CanStart(HashOf(r)) && HashOf(r) !in world.blocked
      modifies this`stored, this`running, this`next, this`lost
      ensures calm && MayBegin(world, r, approved) ==> id.Some?
      ensures id.Some? ==> MayBegin(world, r, approved)
      ensures id.None? ==> Now() == old(Now())
      ensures id.Some? ==> Started(old(Now()), Now(), r, id.value) && id.value in running
      ensures QueueGrows(old(Now()), Now()) && GoodQueue(Now())
    {
      if r in world.content {
        id := Verify(world, r);
      } else {
        id := Approve(r, approved);
      }
    }

    // `Install`: a job or a verification is started and attached to the waiting entry.
    // When that cannot be saved the new operation is cancelled.
    method Install(world: World, c: string, r: Reference, signedOut: bool, approved: bool) returns (reply: Reply)
      requires Inv(Now())
      modifies this`imports, this`stored, this`running, this`next, this`lost
      ensures Inv(Now()) && Step(Online, old(Now()), Now())
      ensures !reply.Begun? ==> imports == old(imports)
      ensures reply.Begun? ==>
        && c in old(imports) && FindWaiting(old(imports)[c], r, 0).Some? && !signedOut && HashOf(r) !in world.blocked
        && CanStartIn(old(running), HashOf(r)) && MayBegin(world, r, approved) && Started(old(Now()), Now(), r, reply.id)
        && imports == old(imports)[c := old(imports)[c][FindWaiting(old(imports)[c], r, 0).value := Entry(r, Preparing, Some(reply.id))]]
      ensures reply.Full? ==> !CanStartIn(old(running), HashOf(r)) && Now() == old(Now())
      // Nothing stands against it: it begins, or is put off while nothing can start.
      ensures c in old(imports) && (exists e :: e in old(imports)[c] && WaitsFor(e, r)) && !signedOut && HashOf(r) !in world.blocked ==>
        && (reply.Full? <==> !CanStartIn(old(running), HashOf(r)))
        && (calm && CanStartIn(old(running), HashOf(r)) && MayBegin(world, r, approved) ==> reply.Begun?)
    {
      reply := Refused;
      if c in imports && !signedOut && HashOf(r) !in world.blocked {
        var place := FindWaiting(imports[c], r, 0);
        if place.Some? {
          if CanStart(HashOf(r)) {
            reply := InstallAt(world, c, place.value, r, approved);
            return;
          }
          reply := Full;
        }
      }
      NoEntryMoves(Online, old(Now()), Now());
    }

    method InstallAt(world: World, c: string, p: nat, r: Reference, approved: bool) returns (reply: Reply)
      requires Inv(Now()) && c in imports && p < |imports[c]| && WaitsFor(imports[c][p], r) && CanStart(HashOf(r))
      requires HashOf(r) !in world.blocked
      modifies this`imports, this`stored, this`running, this`next, this`lost
      ensures calm && MayBegin(world, r, approved) ==> reply.Begun?
      ensures reply.Begun? ==> MayBegin(world, r, approved)
      ensures Inv(Now()) && Step(Online, old(Now()), Now())
      ensures !reply.Full? && (reply.Refused? ==> imports == old(imports))
      ensures reply.Begun? ==> imports == old(imports)[c := old(imports)[c][p := Entry(r, Preparing, Some(reply.id))]]
      ensures reply.Begun? ==> Started(old(Now()), Now(), r, reply.id)
    {
      var id := Prepare(world, r, approved);
      if id.None? {
        NoEntryMoves(Online, old(Now()), Now());
        return Refused;
      }
      reply := Attach(c, p, r, id.value, old(Now()));
    }

    method Attach(c: string, p: nat, r: Reference, id: nat, ghost s: State) returns (reply: Reply)
      requires Inv(s) && s.imports == imports && QueueGrows(s, Now()) && GoodQueue(Now()) && finished == s.finished
      requires c in imports && p < |imports[c]| && WaitsFor(imports[c][p], r) && Started(s, Now(), r, id) && id in running
      modifies this`imports, this`stored, this`running
      ensures Inv(Now()) && Step(Online, s, Now())
      ensures reply == Refused || reply == Begun(id)
      ensures calm ==> reply.Begun?
      ensures reply.Refused? ==> imports == old(imports)
      ensures reply.Begun? ==> imports == old(imports)[c := old(imports)[c][p := Entry(r, Preparing, Some(id))]]
      ensures reply.Begun? ==> Started(s, Now(), r, id)
    {
      var ok := Saves();
      if ok {
        Bind(c, p, r, id, s);
        return Begun(id);
      }
      CallOff(id, s);
      return Refused;
    }

    // The new operation serves nobody and is cancelled.
    method CallOff(id: nat, ghost s: State)
      requires Inv(s) && s.imports == imports && QueueGrows(s, Now()) && GoodQueue(Now()) && finished == s.finished && id in running
      modifies this`stored, this`running
      ensures Inv(Now()) && Step(Online, s, Now())
    {
      ghost var before := Now();
      var _ := Record(id, Cancelling);
      GrowsOn(s, before, Now());
      NoEntryMoves(Online, s, Now());
    }

    // The entry and its new operation are saved together.
    method Bind(c: string, p: nat, r: Reference, id: nat, ghost s: State)
      requires Inv(s) && s.imports == imports && QueueGrows(s, Now()) && GoodQueue(Now()) && finished == s.finished
      requires c in imports && p < |imports[c]| && WaitsFor(imports[c][p], r) && Started(s, Now(), r, id)
      modifies this`imports
      ensures Inv(Now()) && Step(Online, s, Now())
      ensures imports == old(imports)[c := old(imports)[c][p := Entry(r, Preparing, Some(id))]]
    {
      var entries := imports[c][p := Entry(r, Preparing, Some(id))];
      InvBelow(s);
      OnceAbove(imports, s.next);
      OnePlace(imports, c, p, entries[p], s.next, s.next, id + 1);
      imports := imports[c := entries];
      EntriesMove(Online, s, Now(), c, entries);
    }

    // ---- The user ----

    // `Accept`: a collection that is not known yet begins an import.
    method Accept(world: World, c: string, references: seq<Reference>, known: bool) returns (ok: bool)
      requires Inv(Now()) && (c in imports ==> known)
      modifies this`imports
      ensures Inv(Now())
      ensures imports != old(imports) ==> Step(Begin(c), old(Now()), Now())
      ensures calm ==> ok
      ensures imports == if ok && !known then old(imports)[c := Reviewed(world, references)] else old(imports)
    {
      if known {
        return true;
      }
      ok := Saves();
      if ok {
        imports := imports[c := Reviewed(world, references)];
        StepKeepsInv(Begin(c), old(Now()), Now());
      }
    }

    // `Retry`: only an import with nothing left to do begins again.
    method Retry(world: World, c: string, references: seq<Reference>) returns (ok: bool)
      requires Inv(Now())
      modifies this`imports
      ensures Inv(Now())
      ensures ok ==> Step(Sharing.Retry(c), old(Now()), Now()) && c in old(imports) && imports == old(imports)[c := Reviewed(world, references)]
      ensures !ok ==> imports == old(imports)
      ensures c in old(imports) && (exists e :: e in old(imports)[c] && (e.status == Pending || e.status == Preparing)) ==> !ok
      ensures calm && c in old(imports) && (forall e | e in old(imports)[c] :: e.status == Ready || e.status == Unresolved) ==> ok
    {
      if c !in imports || exists e :: e in imports[c] && !Stopped(e) {
        return false;
      }
      ok := Saves();
      if ok {
        imports := imports[c := Reviewed(world, references)];
        StepKeepsInv(Sharing.Retry(c), old(Now()), Now());
      }
    }

    // Deleting a collection deletes its import.
    method Remove(c: string)
      requires Inv(Now())
      modifies this`imports
      ensures Inv(Now()) && Step(Delete(c), old(Now()), Now())
    {
      imports := imports - {c};
      StepKeepsInv(Delete(c), old(Now()), Now());
    }

    // ---- Restart ----

    // `open`: what was running when the program ended has failed.
    method Reopen() returns (done: bool)
      requires Inv(Now())
      modifies this`imports, this`stored, this`running
      ensures Inv(Now()) && Step(Restart, old(Now()), Now())
      // Completed, it leaves nothing running, pending or preparing, in an import or in
      // the queue, and everything that was ready or over is as it was.
      ensures calm ==> done
      ensures done ==> AllStopped(Now())
      ensures done ==> EndsAll(old(stored), stored) && imports.Keys == old(imports).Keys
      ensures done ==> forall c | c in imports :: StopsAll(old(imports)[c], imports[c])
    {
      running := map[];
      done := Saves();
      if done {
        stored := FailedAll(stored);
        done := RecoverImports();
      }
      ReopenMoves(old(Now()), Now());
      if done {
        ReopenedIsStopped(old(Now()), Now());
        forall c | c in imports ensures StopsAll(old(imports)[c], imports[c]) {
          HaltedStops(old(imports)[c]);
        }
      }
    }

    // `recover`
    method RecoverImports() returns (done: bool)
      modifies this`imports
      ensures HaltedSome(old(imports), imports)
      ensures calm ==> done
      ensures done ==> forall c | c in imports :: imports[c] == HaltedAll(old(imports)[c])
    {
      var todo := imports.Keys;
      while todo != {}
        invariant todo <= imports.Keys && HaltedSome(old(imports), imports)
        invariant forall c | c in imports && c in todo :: imports[c] == old(imports)[c]
        invariant forall c | c in imports && c !in todo :: imports[c] == HaltedAll(old(imports)[c])
        decreases |todo|
      {
        var c :| c in todo;
        var entries := HaltedAll(imports[c]);
        if entries != imports[c] {
          var ok := Saves();
          if !ok {
            return false;
          }
          imports := imports[c := entries];
        }
        todo := todo - {c};
      }
      return true;
    }

    // ---- The worker ----

    // `operations`: the recent records, and whatever is running besides.
    function Listing(recent: set<nat>): map<nat, Progress>
      reads this
    {
      map id | id in stored.Keys + running.Keys && (id in running || id in recent) ::
        if id in recent && id in stored then stored[id].progress else running[id].progress
    }

    lemma ListingIsSound(recent: set<nat>)
      requires GoodQueue(Now())
      ensures Sound(Now(), Listing(recent)) && Lists(Now(), recent, Listing(recent))
    {
    }

    // One entry, as the loop body of `poll` treats it.
    method PollEntry(world: World, listing: map<nat, Progress>, e: Entry) returns (f: Entry)
      requires GoodQueue(Now())
      modifies this`stored, this`running, this`next, this`lost
      ensures QueueGrows(old(Now()), Now()) && GoodQueue(Now()) && RunsOn(old(running), running)
      ensures old(lost) <= lost && (calm ==> lost == old(lost))
      ensures Polled(old(Now()), Now(), world, listing, lost[|old(lost)|..], e, f)
      // A pending entry waits exactly while nothing can start for it. Otherwise its
      // verification runs, unless the content is gone, blocked or cannot be verified, or
      // the new operation could not be recorded.
      ensures e.status == Pending ==> (f == e <==> !CanStartIn(old(running), HashOf(e.reference)))
      ensures e.status == Pending && f.status == Unresolved ==>
        || e.reference !in world.content || HashOf(e.reference) in world.blocked || e.reference !in world.verifiable
        || (!calm && lost == old(lost) + [HashOf(e.reference)])
      ensures e.status == Pending && CanStartIn(old(running), HashOf(e.reference)) && calm
              && e.reference in world.content && HashOf(e.reference) !in world.blocked && e.reference in world.verifiable ==>
        && f == Entry(e.reference, Preparing, Some(old(next)))
        && running == old(running)[old(next) := Operation(HashOf(e.reference), false, Working)]
      ensures f.operation == e.operation || (f.operation == Some(old(next)) && next == old(next) + 1)
    {
      f := e;
      if e.status == Preparing {
        if e.operation.None? {
          return;
        }
        var id := e.operation.value;
        if id in listing && (listing[id] == Working || listing[id] == Cancelling) {
          return;
        }
        if id in listing && listing[id] == Completed && Available(world, e.reference) {
          return e.(status := Ready);
        }
        return e.(status := Unresolved);
      }
      if e.status == Pending && CanStart(HashOf(e.reference)) {
        f := PollPending(world, e);
      }
    }

    method PollPending(world: World, e: Entry) returns (f: Entry)
      requires GoodQueue(Now()) && e.status == Pending && CanStart(HashOf(e.reference))
      modifies this`stored, this`running, this`next, this`lost
      ensures QueueGrows(old(Now()), Now()) && GoodQueue(Now()) && RunsOn(old(running), running)
      ensures old(lost) <= lost && (calm ==> lost == old(lost))
      ensures f.status != Pending && PolledPending(old(Now()), Now(), world, lost[|old(lost)|..], e, f)
      ensures f.status == Unresolved ==>
        || e.reference !in world.content || HashOf(e.reference) in world.blocked || e.reference !in world.verifiable
        || (!calm && lost == old(lost) + [HashOf(e.reference)])
      ensures f.status != Unresolved ==>
        && f == Entry(e.reference, Preparing, Some(old(next)))
        && running == old(running)[old(next) := Operation(HashOf(e.reference), false, Working)]
      ensures f.operation == e.operation || (f.operation == Some(old(next)) && next == old(next) + 1)
    {
      f := e.(status := Unresolved);
      if Available(world, e.reference) {
        var id := Verify(world, e.reference);
        if id.Some? {
          f := e.(status := Preparing, operation := id);
        }
      }
    }

    // The entries of one import; nothing is written yet.
    method PollEntries(world: World, listing: map<nat, Progress>, c: string, ghost s: State) returns (entries: seq<Entry>)
      requires QueueGrows(s, Now()) && GoodQueue(Now()) && RunsOn(s.running, running)
      requires c in imports && AttachedOnce(imports, s.next) && Below(imports, next)
      modifies this`stored, this`running, this`next, this`lost
      ensures QueueGrows(old(Now()), Now()) && QueueGrows(s, Now()) && GoodQueue(Now())
      ensures RunsOn(old(running), running) && RunsOn(s.running, running) && old(lost) <= lost && (calm ==> lost == old(lost))
      ensures |entries| == |imports[c]|
      ensures AttachedOnce(imports[c := entries], s.next) && Below(imports[c := entries], next)
      ensures forall i | 0 <= i < |entries| :: Polled(s, Now(), world, listing, lost, imports[c][i], entries[i])
    {
      entries := imports[c];
      assert imports[c := entries] == imports;
      for i := 0 to |entries|
        invariant |entries| == |imports[c]|
        invariant QueueGrows(old(Now()), Now()) && QueueGrows(s, Now()) && GoodQueue(Now())
        invariant RunsOn(old(running), running) && RunsOn(s.running, running) && old(lost) <= lost && (calm ==> lost == old(lost))
        invariant AttachedOnce(imports[c := entries], s.next) && Below(imports[c := entries], next)
        invariant forall j | i <= j < |entries| :: entries[j] == imports[c][j]
        invariant forall j | 0 <= j < i :: Polled(s, Now(), world, listing, lost, imports[c][j], entries[j])
      {
        ghost var before := Now();
        entries := PollAt(world, listing, c, entries, i, s);
        GrowsOn(old(Now()), before, Now());
      }
    }

    lemma StillBelow(n: nat)
      requires Below(imports, n) && n <= next
      ensures Below(imports, next)
    {
    }

    // An import is written once, at the end.
    method PollImport(world: World, listing: map<nat, Progress>, c: string, ghost s: State) returns (ok: bool)
      requires QueueGrows(s, Now()) && GoodQueue(Now()) && RunsOn(s.running, running)
      requires c in imports && AttachedOnce(imports, s.next) && Below(imports, next)
      modifies this`imports, this`stored, this`running, this`next, this`lost
      ensures QueueGrows(old(Now()), Now()) && QueueGrows(s, Now()) && GoodQueue(Now())
      ensures RunsOn(old(running), running) && RunsOn(s.running, running) && old(lost) <= lost && (calm ==> lost == old(lost))
      ensures AttachedOnce(imports, s.next) && Below(imports, next)
      ensures imports.Keys == old(imports).Keys && forall d | d in imports && d != c :: imports[d] == old(imports)[d]
      ensures |imports[c]| == |old(imports)[c]|
      ensures (!ok ==> imports == old(imports)) && (calm ==> ok)
      ensures ok ==> forall i | 0 <= i < |imports[c]| :: Polled(s, Now(), world, listing, lost, old(imports)[c][i], imports[c][i])
    {
      ghost var n := next;
      var entries := PollEntries(world, listing, c, s);
      StillBelow(n);
      ok := SaveEntries(c, entries, s, old(Now()));
    }

    method SaveEntries(c: string, entries: seq<Entry>, ghost s: State, ghost started: State) returns (ok: bool)
      requires QueueGrows(s, Now()) && QueueGrows(started, Now()) && GoodQueue(Now()) && c in imports
      modifies this`imports
      ensures QueueGrows(s, Now()) && QueueGrows(started, Now()) && GoodQueue(Now())
      ensures imports == (if ok then old(imports)[c := entries] else old(imports)) && (calm ==> ok)
    {
      ok := true;
      if entries != imports[c] {
        ok := Saves();
        if ok {
          imports := imports[c := entries];
        }
      }
    }

    method PollAt(world: World, listing: map<nat, Progress>, c: string, entries: seq<Entry>, i: nat, ghost s: State)
      returns (r: seq<Entry>)
      requires QueueGrows(s, Now()) && GoodQueue(Now()) && RunsOn(s.running, running)
      requires c in imports && i < |entries| == |imports[c]|
      requires AttachedOnce(imports[c := entries], s.next) && Below(imports[c := entries], next)
      requires entries[i] == imports[c][i]
      requires forall j | 0 <= j < i :: Polled(s, Now(), world, listing, lost, imports[c][j], entries[j])
      modifies this`stored, this`running, this`next, this`lost
      ensures QueueGrows(old(Now()), Now()) && QueueGrows(s, Now()) && GoodQueue(Now())
      ensures RunsOn(old(running), running) && RunsOn(s.running, running) && old(lost) <= lost && (calm ==> lost == old(lost))
      ensures |r| == |entries| && forall j | 0 <= j < |r| && j != i :: r[j] == entries[j]
      ensures forall j | 0 <= j <= i :: Polled(s, Now(), world, listing, lost, imports[c][j], r[j])
      ensures AttachedOnce(imports[c := r], s.next) && Below(imports[c := r], next)
    {
      ghost var before, missed := Now(), lost;
      var f := PollEntry(world, listing, entries[i]);
      r := entries[i := f];
      GrowsOn(s, before, Now());
      PolledSince(s, before, Now(), world, listing, lost[|missed|..], lost, entries[i], f);
      forall j | 0 <= j < i ensures Polled(s, Now(), world, listing, lost, imports[c][j], r[j]) {
        PolledStays(s, before, Now(), world, listing, missed, lost, imports[c][j], entries[j]);
      }
      OnePlace(imports[c := entries], c, i, f, s.next, before.next, next);
      assert imports[c := entries][c := r] == imports[c := r];
    }

    // Every import in turn; the first failed write ends it.
    method PollImports(world: World, listing: map<nat, Progress>, ghost s: State) returns (ok: bool)
      requires s == Now() && GoodQueue(s) && AttachedOnce(imports, next) && Below(imports, next)
      modifies this`imports, this`stored, this`running, this`next, this`lost
      ensures QueueGrows(s, Now()) && GoodQueue(Now()) && AttachedOnce(imports, s.next)
      ensures calm ==> ok && lost == old(lost)
      ensures PolledSome(s, Now(), world, listing, lost, {}) && (ok ==> PolledAll(s, Now(), world, listing, lost, {}))
    {
      var todo := imports.Keys;
      ok := true;
      PollingBegins(s, world, listing, lost);
      while ok && todo != {}
        invariant calm ==> ok && lost == old(lost)
        invariant Polling(s, Now(), world, listing, lost, todo, ok)
        decreases todo
      {
        var c :| c in todo;
        ok := PollNext(world, listing, todo, c, s);
        todo := todo - {c};
      }
    }

    method PollNext(world: World, listing: map<nat, Progress>, ghost todo: set<string>, c: string, ghost s: State)
      returns (ok: bool)
      requires Polling(s, Now(), world, listing, lost, todo, true) && c in todo
      modifies this`imports, this`stored, this`running, this`next, this`lost
      ensures calm ==> ok && lost == old(lost)
      ensures Polling(s, Now(), world, listing, lost, todo - {c}, ok)
    {
      ghost var before, missed := Now(), lost;
      ok := PollImport(world, listing, c, s);
      PolledMore(s, before, Now(), world, listing, missed, lost, todo, c, ok);
    }

    // `poll`: what was started before a failed write goes on running.
    method Poll(world: World, recent: set<nat>) returns (ok: bool)
      requires Inv(Now())
      modifies this`imports, this`stored, this`running, this`next, this`lost
      ensures Inv(Now()) && Step(Worker, old(Now()), Now())
      ensures calm ==> ok && lost == []
      ensures ok ==> PolledAll(old(Now()), Now(), world, old(Listing(recent)), lost, {})
      // With what becomes of each entry, status by status:
      ensures ok ==> forall c | c in old(imports) ::
        c in imports && |imports[c]| == |old(imports)[c]| &&
        forall i | 0 <= i < |imports[c]| ::
          BecomesOf(old(Now()), Now(), world, recent, lost, old(imports)[c][i], imports[c][i])
    {
      ListingIsSound(recent);
      InvBelow(Now());
      OnceAbove(imports, next);
      lost := [];
      ok := PollImports(world, Listing(recent), Now());
      PollIsStep(old(Now()), Now(), world, old(Listing(recent)), lost, {});
      if ok {
        PolledBecomes(old(Now()), Now(), world, recent, old(Listing(recent)), lost);
      }
    }
  }

  // ---- Whole runs ----

  // What anyone may ask of the service, and what it meets then.
  datatype Command =
    | Import(already: bool)
    | Cancel(id: nat)
    | Commit(id: nat, passed: bool, local: bool)
    | Advance(id: nat, progress: Progress, passed: bool, dropped: bool)
    | Plan(world: World, c: string)
    | GiveUp(c: string, reference: Reference)
    | Install(world: World, c: string, reference: Reference, signedOut: bool, approved: bool)
    | Accept(world: World, c: string, references: seq<Reference>, known: bool)
    | Retry(world: World, c: string, references: seq<Reference>)
    | Remove(c: string)
    | Reopen
    | Poll(world: World, recent: set<nat>)

  method ServeQueue(i: Service, command: Command) returns (ghost actor: Actor)
    requires Inv(i.Now())
    modifies i
    ensures Inv(i.Now()) && Step(actor, old(i.Now()), i.Now())
  {
    actor := Queue;
    if command.Import? {
      var _ := i.Import(command.already);
    } else if command.Cancel? {
      var _ := i.Cancel(command.id);
    } else if command.Commit? && command.id in i.running {
      var _ := i.Commit(command.id, command.passed, command.local);
    } else if command.Advance? && command.id in i.running && (command.progress == Completed ==> command.passed) {
      i.Advance(command.id, command.progress, command.passed, command.dropped);
    } else {
      QueueMoves(i.Now(), i.Now());
    }
  }

  method ServeUser(i: Service, command: Command) returns (ghost actor: Actor)
    requires Inv(i.Now()) && (command.Accept? || command.Retry?)
    modifies i
    ensures Inv(i.Now()) && Step(actor, old(i.Now()), i.Now())
  {
    actor := Queue;
    var ok;
    match command {
      case Accept(world, c, references, known) =>
        ok := i.Accept(world, c, references, known || c in i.imports);
        if i.imports != old(i.imports) {
          actor := Begin(c);
        } else {
          QueueMoves(old(i.Now()), i.Now());
        }
      case Retry(world, c, references) =>
        ok := i.Retry(world, c, references);
        if ok {
          actor := Sharing.Retry(c);
        } else {
          QueueMoves(old(i.Now()), i.Now());
        }
    }
  }

  // One command is one step.
  method Serve(i: Service, command: Command) returns (ghost actor: Actor)
    requires Inv(i.Now())
    modifies i
    ensures Inv(i.Now()) && Step(actor, old(i.Now()), i.Now())
  {
    i.calm := *;
    match command {
      case Plan(world, c) =>
        var _ := i.Plan(world, c);
        actor := Online;
      case GiveUp(c, r) =>
        var _ := i.GiveUp(c, r);
        actor := Online;
      case Install(world, c, r, signedOut, approved) =>
        var _ := i.Install(world, c, r, signedOut, approved);
        actor := Online;
      case Poll(world, recent) =>
        var _ := i.Poll(world, recent);
        actor := Worker;
      case Remove(c) =>
        i.Remove(c);
        actor := Delete(c);
      case Reopen =>
        var _ := i.Reopen();
        actor := Restart;
      case Accept(_, _, _, _) => actor := ServeUser(i, command);
      case Retry(_, _, _) => actor := ServeUser(i, command);
      case _ => actor := ServeQueue(i, command);
    }
  }

  // Any commands in any order, with failing writes and restarts: every entry that is
  // ready at any time has been earned.
  method Session(commands: seq<Command>) returns (i: Service, ghost run: seq<State>, ghost actors: seq<Actor>)
    ensures Inv(i.Now()) && |actors| == |commands| && IsRun(run, actors) && run[|commands|] == i.Now()
    ensures run[0] == State(map[], map[], map[], 0, {})
    ensures forall n: nat, c, p: nat, e: Entry | n < |run| && At(run[n], c, p, e) && e.status == Ready :: IsEarned(run, actors, n, c, p, e)
  {
    i := new Service();
    run, actors := [i.Now()], [];
    for k := 0 to |commands|
      invariant fresh(i) && Inv(i.Now()) && |actors| == k && IsRun(run, actors) && run[k] == i.Now()
      invariant run[0] == State(map[], map[], map[], 0, {})
    {
      ghost var actor := Serve(i, commands[k]);
      RunMore(run, actors, actor, i.Now());
      run, actors := run + [i.Now()], actors + [actor];
    }
    forall n: nat, c, p: nat, e: Entry | n < |run| && At(run[n], c, p, e) && e.status == Ready ensures IsEarned(run, actors, n, c, p, e) {
      ReadyIsEarned(run, actors, n, c, p, e);
    }
  }

  // The imports that are not still to do have been polled, entry by entry.
  ghost predicate PolledAll(s: State, t: State, world: World, listing: map<nat, Progress>, lost: seq<string>, todo: set<string>) {
    forall c | c in s.imports && c in t.imports && c !in todo ::
      && |t.imports[c]| == |s.imports[c]|
      && forall i | 0 <= i < |t.imports[c]| :: Polled(s, t, world, listing, lost, s.imports[c][i], t.imports[c][i])
  }

  ghost predicate PolledSome(s: State, t: State, world: World, listing: map<nat, Progress>, lost: seq<string>, todo: set<string>) {
    && t.imports.Keys == s.imports.Keys
    && (forall c | c in todo && c in s.imports :: t.imports[c] == s.imports[c])
    && forall c | c in s.imports :: |t.imports[c]| == |s.imports[c]|
         && forall i | 0 <= i < |t.imports[c]| ::
              t.imports[c][i] == s.imports[c][i] || Polled(s, t, world, listing, lost, s.imports[c][i], t.imports[c][i])
  }

  // The imports in `todo` are still to be polled.
  ghost predicate Polling(s: State, t: State, world: World, listing: map<nat, Progress>, lost: seq<string>, todo: set<string>, ok: bool) {
    && QueueGrows(s, t) && GoodQueue(t) && RunsOn(s.running, t.running)
    && todo <= s.imports.Keys && AttachedOnce(t.imports, s.next) && Below(t.imports, t.next)
    && PolledSome(s, t, world, listing, lost, todo)
    && (ok ==> PolledAll(s, t, world, listing, lost, todo))
  }

  lemma PollingBegins(s: State, world: World, listing: map<nat, Progress>, lost: seq<string>)
    requires GoodQueue(s) && AttachedOnce(s.imports, s.next) && Below(s.imports, s.next)
    ensures Polling(s, s, world, listing, lost, s.imports.Keys, true)
  {
  }

  lemma PolledMore(s: State, t: State, u: State, world: World, listing: map<nat, Progress>, lost0: seq<string>, lost: seq<string>,
                   todo: set<string>, c: string, ok: bool)
    requires c in todo && c in s.imports
    requires PolledSome(s, t, world, listing, lost0, todo) && PolledAll(s, t, world, listing, lost0, todo)
    requires QueueGrows(t, u) && RunsOn(t.running, u.running) && lost0 <= lost
    requires u.imports.Keys == t.imports.Keys && forall d | d in u.imports && d != c :: u.imports[d] == t.imports[d]
    requires |u.imports[c]| == |t.imports[c]| && (!ok ==> u.imports == t.imports)
    requires ok ==> forall i | 0 <= i < |u.imports[c]| :: Polled(s, u, world, listing, lost, t.imports[c][i], u.imports[c][i])
    ensures PolledSome(s, u, world, listing, lost, todo - {c})
    ensures ok ==> PolledAll(s, u, world, listing, lost, todo - {c})
  {
    forall d, i | d in s.imports && 0 <= i < |u.imports[d]| && Polled(s, t, world, listing, lost0, s.imports[d][i], t.imports[d][i])
      ensures Polled(s, u, world, listing, lost, s.imports[d][i], t.imports[d][i])
    {
      PolledStays(s, t, u, world, listing, lost0, lost, s.imports[d][i], t.imports[d][i]);
    }
  }

  lemma PollIsStep(s: State, t: State, world: World, listing: map<nat, Progress>, lost: seq<string>, todo: set<string>)
    requires Inv(s) && Sound(s, listing) && QueueGrows(s, t) && GoodQueue(t) && t.finished == s.finished
    requires PolledSome(s, t, world, listing, lost, todo) && AttachedOnce(t.imports, s.next)
    ensures Step(Worker, s, t) && Inv(t)
  {
    forall c, i | c in s.imports && 0 <= i < |s.imports[c]| ensures EntryStep(Worker, s, t, s.imports[c][i], t.imports[c][i]) {
      if t.imports[c][i] != s.imports[c][i] {
        PolledIsStep(s, t, world, listing, lost, s.imports[c][i], t.imports[c][i]);
      }
    }
    StepKeepsInv(Worker, s, t);
  }

  ghost predicate HaltedSome(before: map<string, seq<Entry>>, after: map<string, seq<Entry>>) {
    && after.Keys == before.Keys
    && forall c | c in before :: after[c] == before[c] || after[c] == HaltedAll(before[c])
  }

  // `recover_packages`
  function FailedAll(stored: map<nat, Operation>): (r: map<nat, Operation>)
    ensures r.Keys == stored.Keys
    ensures forall id | id in r :: r[id] == if Over(stored[id].progress) then stored[id] else stored[id].(progress := Failed)
  {
    map id | id in stored :: if Over(stored[id].progress) then stored[id] else stored[id].(progress := Failed)
  }

  // What had ended stays as it was, everything else has failed.
  ghost predicate EndsAll(before: map<nat, Operation>, after: map<nat, Operation>) {
    && after.Keys == before.Keys
    && forall id | id in before ::
         && after[id].hash == before[id].hash && after[id].importing == before[id].importing
         && after[id].progress ==
              if before[id].progress == Completed || before[id].progress == Cancelled then before[id].progress else Failed
  }

  // What was ready stays ready, everything else is unresolved.
  ghost predicate StopsAll(before: seq<Entry>, after: seq<Entry>) {
    && |after| == |before|
    && forall i | 0 <= i < |before| ::
         after[i] == Entry(before[i].reference, if before[i].status == Ready then Ready else Unresolved, before[i].operation)
  }

  lemma HaltedStops(entries: seq<Entry>)
    ensures StopsAll(entries, HaltedAll(entries))
  {
  }

  lemma ReopenQueue(s: State, t: State)
    requires GoodQueue(s) && t.running == map[] && t.next == s.next && t.finished == s.finished
    requires t.stored == s.stored || t.stored == FailedAll(s.stored)
    ensures QueueGrows(s, t) && GoodQueue(t)
  {
  }

  // No import waits for anything, and nothing is or is taken to be running.
  ghost predicate AllStopped(s: State) {
    && s.running == map[]
    && (forall c, i | c in s.imports && 0 <= i < |s.imports[c]| :: Stopped(s.imports[c][i]))
    && (forall id | id in s.stored :: Over(s.stored[id].progress))
  }

  lemma ReopenedIsStopped(s: State, t: State)
    requires t.running == map[] && t.stored == FailedAll(s.stored) && t.imports.Keys == s.imports.Keys
    requires forall c | c in t.imports :: t.imports[c] == HaltedAll(s.imports[c])
    ensures AllStopped(t)
  {
  }

  lemma ReopenMoves(s: State, t: State)
    requires Inv(s) && t.running == map[] && t.next == s.next && t.finished == s.finished && HaltedSome(s.imports, t.imports)
    requires t.stored == FailedAll(s.stored) || t.stored == s.stored
    ensures Step(Restart, s, t) && Inv(t)
  {
    InvBelow(s);
    HaltedSame(s.imports, t.imports, s.next);
    ReopenQueue(s, t);
    StepKeepsInv(Restart, s, t);
  }

  lemma HaltedSame(before: map<string, seq<Entry>>, after: map<string, seq<Entry>>, n: nat)
    requires HaltedSome(before, after) && Below(before, n)
    ensures AttachedOnce(after, n)
  {
    assert forall c, i: nat, id: nat | HasOperation(after, c, i, id) :: HasOperation(before, c, i, id);
  }

  predicate StillRunning(listing: map<nat, Progress>, id: nat) {
    id in listing && (listing[id] == Working || listing[id] == Cancelling)
  }

  // What becomes of an entry whose operation is looked up.
  function Attended(world: World, listing: map<nat, Progress>, e: Entry, id: nat): Entry {
    if StillRunning(listing, id) then e
    else if id in listing && listing[id] == Completed && Available(world, e.reference) then e.(status := Ready)
    else e.(status := Unresolved)
  }

  // One turn of the worker: an entry whose operation is over is settled, ready only
  // if it completed and the content is available; a pending one waits while nothing
  // can start, and otherwise starts or is given up. Meanwhile the operations for `lost`
  // could not be recorded.
  ghost predicate Polled(s: State, t: State, world: World, listing: map<nat, Progress>, lost: seq<string>, e: Entry, f: Entry) {
    if Attending(e) then f == Attended(world, listing, e, e.operation.value)
    else if e.status == Pending then PolledPending(s, t, world, lost, e, f)
    else f == e
  }

  ghost predicate PolledPending(s: State, t: State, world: World, lost: seq<string>, e: Entry, f: Entry) {
    || (f == e && !CanStartIn(t.running, HashOf(e.reference)))
    || (f == e.(status := Unresolved)
        && (!Available(world, e.reference) || e.reference !in world.verifiable || HashOf(e.reference) in lost))
    || (Available(world, e.reference) && e.reference in world.verifiable && Starts(s, t, e, f)
        && WorksOn(t.running, f.operation.value, HashOf(e.reference)))
  }

  // Nothing that runs ends or changes.
  ghost predicate RunsOn(before: map<nat, Operation>, after: map<nat, Operation>) {
    forall id | id in before :: id in after && after[id] == before[id]
  }

  lemma StillFull(before: map<nat, Operation>, after: map<nat, Operation>, hash: string)
    requires RunsOn(before, after) && !CanStartIn(before, hash)
    ensures !CanStartIn(after, hash)
  {
    assert before.Keys <= after.Keys;
    assert |after.Keys| == |before.Keys| + |after.Keys - before.Keys|;
  }

  // ---- What a poll makes of an entry, status by status ----

  ghost predicate BecomesOf(s: State, t: State, world: World, recent: set<nat>, lost: seq<string>, e: Entry, f: Entry) {
    && f.reference == e.reference
    // Ready: as it was, or its operation completed and the exact content is there, not blocked.
    && (f.status == Ready <==> e.status == Ready || (e.status == Preparing && CompletedWell(s, world, recent, e)))
    // Preparing: not begun yet, still at work, or begun now.
    && (f.status == Preparing <==>
         || (e.status == Preparing && (e.operation == None || AtWork(s, recent, e)))
         || (e.status == Pending && f.operation != None))
    && (e.status != Pending ==> f.operation == e.operation)
    && (e.status == Pending && f.status == Preparing ==>
         && e.reference in world.content && HashOf(e.reference) !in world.blocked && e.reference in world.verifiable
         && exists id :: f.operation == Some(id) && s.next <= id && id in t.running && t.running[id].hash == HashOf(e.reference))
    // Pending: nothing could start, and nothing can.
    && (f.status == Pending ==>
         && e.status == Pending && f == e
         && (|t.running| >= 3 || exists id :: id in t.running && (t.running[id].importing || t.running[id].hash == HashOf(e.reference))))
    // Given up only for a reason.
    && (e.status == Pending && f.status == Unresolved ==>
         || e.reference !in world.content || HashOf(e.reference) in world.blocked || e.reference !in world.verifiable
         || HashOf(e.reference) in lost)
  }

  // The operation is a recent one that is recorded so, or else it runs and is so.
  ghost predicate Stands(s: State, recent: set<nat>, id: nat, p: Progress) {
    if id in recent && id in s.stored then s.stored[id].progress == p
    else id in s.running && s.running[id].progress == p
  }

  ghost predicate CompletedWell(s: State, world: World, recent: set<nat>, e: Entry) {
    && (exists id :: e.operation == Some(id) && Stands(s, recent, id, Completed))
    && e.reference in world.content && HashOf(e.reference) !in world.blocked
  }

  ghost predicate AtWork(s: State, recent: set<nat>, e: Entry) {
    exists id :: e.operation == Some(id) && (Stands(s, recent, id, Working) || Stands(s, recent, id, Cancelling))
  }

  ghost predicate Lists(s: State, recent: set<nat>, listing: map<nat, Progress>) {
    forall id: nat, p :: id in listing && listing[id] == p <==> Stands(s, recent, id, p)
  }

  lemma PolledBecomesOne(s: State, t: State, world: World, recent: set<nat>, listing: map<nat, Progress>, lost: seq<string>,
                         e: Entry, f: Entry)
    requires Polled(s, t, world, listing, lost, e, f) && (e.status == Pending ==> e.operation == None) && Lists(s, recent, listing)
    ensures BecomesOf(s, t, world, recent, lost, e, f)
  {
    if Attending(e) {
      var id := e.operation.value;
      assert forall p :: id in listing && listing[id] == p <==> Stands(s, recent, id, p);
    }
  }

  lemma PolledBecomes(s: State, t: State, world: World, recent: set<nat>, listing: map<nat, Progress>, lost: seq<string>)
    requires Inv(s) && t.imports.Keys == s.imports.Keys && PolledAll(s, t, world, listing, lost, {}) && Lists(s, recent, listing)
    ensures forall c | c in s.imports ::
      |t.imports[c]| == |s.imports[c]| &&
      forall i | 0 <= i < |t.imports[c]| :: BecomesOf(s, t, world, recent, lost, s.imports[c][i], t.imports[c][i])
  {
    forall c, i | c in s.imports && 0 <= i < |t.imports[c]|
      ensures |t.imports[c]| == |s.imports[c]| && BecomesOf(s, t, world, recent, lost, s.imports[c][i], t.imports[c][i])
    {
      assert GoodEntry(s, s.imports[c][i]);
      PolledBecomesOne(s, t, world, recent, listing, lost, s.imports[c][i], t.imports[c][i]);
    }
  }

  ghost predicate Sound(s: State, listing: map<nat, Progress>) {
    forall id | id in listing && listing[id] == Completed :: IsCompleted(s, id)
  }

  lemma PolledIsStep(s: State, t: State, world: World, listing: map<nat, Progress>, lost: seq<string>, e: Entry, f: Entry)
    requires Polled(s, t, world, listing, lost, e, f) && Sound(s, listing)
    ensures EntryStep(Worker, s, t, e, f)
  {
  }

  lemma PolledStays(s: State, t: State, u: State, world: World, listing: map<nat, Progress>, lost0: seq<string>, lost: seq<string>,
                    e: Entry, f: Entry)
    requires Polled(s, t, world, listing, lost0, e, f) && QueueGrows(t, u) && RunsOn(t.running, u.running) && lost0 <= lost
    ensures Polled(s, u, world, listing, lost, e, f)
  {
    if e.status == Pending && f == e {
      StillFull(t.running, u.running, HashOf(e.reference));
    }
  }

  lemma PolledSince(s: State, t: State, u: State, world: World, listing: map<nat, Progress>, lost0: seq<string>, lost: seq<string>,
                    e: Entry, f: Entry)
    requires QueueGrows(s, t) && Polled(t, u, world, listing, lost0, e, f) && forall hash | hash in lost0 :: hash in lost
    ensures Polled(s, u, world, listing, lost, e, f)
  {
  }

  // Begun: the operation is attached to the entry. Full: three are running already,
  // or this content is being worked on.
  datatype Reply = Refused | Full | Begun(id: nat)

  function Taken(world: World, entries: seq<Entry>): seq<Reference> {
    if entries == [] then []
    else
      var n := |entries| - 1;
      Taken(world, entries[..n])
      + (if IsMissing(world, entries[n]) && HashOf(entries[n].reference) !in world.blocked then [entries[n].reference] else [])
  }

  // What `Plan` makes of each entry, and the references it asks for, in their order.
  ghost predicate TakesUp(world: World, before: seq<Entry>, after: seq<Entry>, asked: seq<Reference>) {
    && |after| == |before|
    && (forall i | 0 <= i < |before| ::
         after[i] == if Wants(world, before[i]) then Entry(before[i].reference, Preparing, None) else before[i])
    && exists pos :: AsksFor(world, before, asked, pos)
  }

  // A registry release that is unresolved, not there and not blocked.
  ghost predicate Wants(world: World, e: Entry) {
    && e.reference.Registry? && e.status == Unresolved
    && e.reference !in world.content && e.reference.exact.sha256 !in world.blocked
  }

  ghost predicate AsksFor(world: World, entries: seq<Entry>, asked: seq<Reference>, pos: seq<nat>) {
    && |pos| == |asked| && Increasing(pos)
    && (forall k: nat :: k in pos <==> k < |entries| && Wants(world, entries[k]))
    && forall i | 0 <= i < |pos| :: pos[i] < |entries| && asked[i] == entries[pos[i]].reference
  }

  lemma {:induction false} TakenAsks(world: World, entries: seq<Entry>) returns (pos: seq<nat>)
    ensures AsksFor(world, entries, Taken(world, entries), pos)
  {
    if entries == [] {
      pos := [];
    } else {
      var n := |entries| - 1;
      pos := TakenAsks(world, entries[..n]);
      if Wants(world, entries[n]) {
        pos := pos + [n];
      }
    }
  }

  lemma PlannedTakesUp(world: World, entries: seq<Entry>)
    ensures TakesUp(world, entries, PlannedAll(world, entries), Taken(world, entries))
  {
    var pos := TakenAsks(world, entries);
  }

  // Content that is there can be verified, or what is missing is approved.
  predicate MayBegin(world: World, r: Reference, approved: bool) {
    if r in world.content then r in world.verifiable else approved
  }

  // The first entries have been looked at.
  ghost predicate PlannedUpTo(world: World, before: seq<Entry>, entries: seq<Entry>, i: nat, missing: seq<Reference>)
    requires i <= |entries| == |before|
  {
    && (forall j | 0 <= j < |entries| :: entries[j] == if j < i then Planned(world, before[j]) else before[j])
    && missing == Taken(world, before[..i])
  }

  lemma PlannedMore(world: World, before: seq<Entry>, entries: seq<Entry>, i: nat, missing: seq<Reference>)
    requires i < |entries| == |before| && PlannedUpTo(world, before, entries, i, missing)
    ensures var takes := IsMissing(world, before[i]) && HashOf(before[i].reference) !in world.blocked;
            && entries[i] == before[i]
            && PlannedUpTo(world, before, if takes then entries[i := Planned(world, before[i])] else entries, i + 1,
                           if takes then missing + [before[i].reference] else missing)
  {
    assert before[..i + 1][..i] == before[..i];
  }

  lemma PlannedWhole(world: World, before: seq<Entry>, entries: seq<Entry>, missing: seq<Reference>)
    requires |entries| == |before| && PlannedUpTo(world, before, entries, |entries|, missing)
    ensures entries == PlannedAll(world, before) && missing == Taken(world, before)
  {
    assert before[..|entries|] == before;
  }

  lemma {:induction false} NothingTaken(world: World, entries: seq<Entry>)
    requires Taken(world, entries) == []
    ensures PlannedAll(world, entries) == entries
  {
    if entries != [] {
      var n := |entries| - 1;
      NothingTaken(world, entries[..n]);
      assert forall i | 0 <= i < n :: PlannedAll(world, entries[..n])[i] == entries[i];
    }
  }

  // The operation has left the queue, and its end is recorded.
  predicate Left(running0: map<nat, Operation>, running: map<nat, Operation>, stored0: map<nat, Operation>, stored: map<nat, Operation>,
      id: nat, p: Progress)
  {
    && running == running0 - {id}
    && id in stored0 && stored == stored0[id := stored0[id].(progress := p)]
  }

  // Its success is recorded, or if that may fail, that it failed.
  predicate LeftAfter(running0: map<nat, Operation>, running: map<nat, Operation>, stored0: map<nat, Operation>, stored: map<nat, Operation>,
      id: nat, mayFail: bool)
  {
    || Left(running0, running, stored0, stored, id, Completed)
    || (mayFail && Left(running0, running, stored0, stored, id, Failed))
  }

  lemma LeavesAnyway(running: map<nat, Operation>, id: nat, work: Operation)
    ensures running[id := work] - {id} == running - {id}
  {
  }

  // `can_start`, for a queue as it was.
  predicate CanStartIn(running: map<nat, Operation>, hash: string) {
    |running| < MAX_RUNNING && forall id | id in running :: !running[id].importing && running[id].hash != hash
  }
}
