// The deployment engine: every durable change it makes is one step of the
// protocol, whatever guards refuse, wherever the process dies and whoever else
// edits the game directory.
module Deployment {
  import opened Results
  import opened PathTables
  import opened DeploymentProtocol

  const MAX_FILE: nat := 8_388_608
  const FILE_LIMIT: nat := 536_870_912
  const TOTAL_LIMIT: nat := 2_147_483_648

  // What a guard, an event or an input/output call answers; a crash ends the process there.
  datatype Signal = Proceed | Refuse | Crash

  datatype Outcome<+T> = Done(value: T) | Failed | Crashed

  function Halt<T>(s: Signal): Outcome<T> {
    if s == Crash then Crashed else Failed
  }

  // Content offered for deployment: bytes in memory, or a file with its declared
  // digest and size and what reading it yields.
  datatype Source = Bytes(content: Content) | File(actual: Content, hash: Digest, size: nat)

  function DigestOf(source: Source): Digest {
    match source
    case Bytes(content) => Digest(content)
    case File(_, hash, _) => hash
  }

  function SizeOf(source: Source): nat {
    match source
    case Bytes(content) => |content|
    case File(_, _, size) => size
  }

  class Installation {
    // Durable state.
    var disk: Disk
    var record: Record
    var store: Store
    // The surroundings: nobody ever edits the directory; somebody may be editing
    // it now; nothing refuses, fails or dies now.
    const tame: bool
    var shared: bool
    var calm: bool
    // What others do to the directory, settled beforehand, and how often they had a turn.
    const others: nat -> Option<Disk>
    var turns: nat
    // The files nobody here owns, every durable state so far with the step that led to
    // it, and the engine's own changes of the directory and the record among these.
    ghost const base: Disk
    ghost var history: seq<Moment>
    ghost var deeds: seq<Step>

    ghost function Now(): State
      reads this
    {
      State(disk, record, store)
    }

    ghost predicate Valid()
      reads this
    {
      && Good(tame, base, others, turns, history, deeds)
      && history[|history| - 1].state == Now()
      && (tame ==> !shared)
    }

    // A directory that has not been deployed to.
    constructor (disk: Disk, tame: bool, others: nat -> Option<Disk>)
      ensures Valid() && Now() == State(disk, Record(map[], None), Store(map[], map[]))
      ensures this.tame == tame && this.others == others && base == disk
      ensures |history| == 1 && turns == 0
    {
      this.disk := disk;
      record := Record(map[], None);
      store := Store(map[], map[]);
      this.tame := tame;
      this.others := others;
      turns := 0;
      shared := !tame;
      calm := false;
      base := disk;
      history := [Moment(State(disk, Record(map[], None), Store(map[], map[])), Abort)];
      deeds := [];
      new;
      assert Intact(base, Now()) by {
        forall p: Path ensures IntactAt(base, Now(), p) {}
      }
      forall p ensures PathIntact(base, Now(), p) {}
    }

    // Any point where control leaves the engine: others may have a turn, and the answer is free.
    method Pause() returns (s: Signal)
      requires Valid()
      modifies this`disk, this`turns, this`history
      ensures Valid() && old(history) <= history
      ensures !shared ==> disk == old(disk)
      ensures calm ==> s == Proceed
    {
      if shared {
        Turn();
      }
      s := Ask();
    }

    method Turn()
      requires Valid() && shared
      modifies this`disk, this`turns, this`history
      ensures Valid() && old(history) <= history
    {
      var answer := others(turns);
      if answer.Some? {
        Interfere(answer.value);
      } else {
        GoodSilence(tame, base, others, turns, history, deeds);
        turns := turns + 1;
      }
    }

    method Interfere(edited: Disk)
      requires Valid() && shared && others(turns) == Some(edited)
      modifies this`disk, this`turns, this`history
      ensures Valid() && old(history) <= history
    {
      ghost var after := Edited(Now(), edited);
      GoodEdit(tame, base, others, turns, history, deeds, Now(), edited);
      disk, turns := edited, turns + 1;
      Note(after);
    }

    // A point where others are not waited for.
    method Ask() returns (s: Signal)
      ensures calm ==> s == Proceed
    {
      s := Proceed;
      if !calm {
        s := *;
      }
    }

    // A change that is no deed of the engine, and one that is.
    ghost method Note(after: Moment)
      requires after.state == Now() && Good(tame, base, others, turns, history + [after], deeds) && (tame ==> !shared)
      modifies this`history
      ensures Valid() && history == old(history) + [after]
    {
      history := history + [after];
    }

    ghost method Remember(after: Moment)
      requires after.state == Now() && Good(tame, base, others, turns, history + [after], deeds + [after.step]) && (tame ==> !shared)
      modifies this`history, this`deeds
      ensures Valid() && history == old(history) + [after] && deeds == old(deeds) + [after.step]
    {
      history, deeds := history + [after], deeds + [after.step];
    }

    // A step that may be taken keeps everything.
    lemma Lasts(step: Step)
      requires Valid() && Acts(step) && Enabled(tame, Now(), step) && AllStillTrue(history, Now(), step)
      ensures Good(tame, base, others, turns, history + [Moment(Do(Now(), step), step)], deeds + [step])
    {
      GoodStep(tame, base, others, turns, history, deeds, Now(), step);
    }

    // ---- While the engine does nothing ----

    // Paths that nobody else changes stay as they are.
    twostate lemma Rests()
      requires old(Valid()) && Valid() && old(history) <= history && deeds == old(deeds)
      ensures Kept(history, old(disk), disk, {})
    {
      IdleKeeps(tame, base, others, old(turns), turns, old(history), history, deeds);
    }

    twostate lemma StaysTrue(step: Step)
      requires old(Valid()) && Valid() && old(history) <= history && deeds == old(deeds) && record == old(record)
      requires AllStillTrue(old(history), old(Now()), step)
      ensures AllStillTrue(history, Now(), step)
    {
      StillTrueOn(tame, base, others, old(turns), turns, old(history), history, deeds, old(Now()), Now(), step);
    }

    // What was moved before and verified meanwhile is in place.
    twostate lemma RestoredIsVerified(n: nat)
      requires old(Valid()) && Valid() && old(history) <= history && deeds == old(deeds) && record == old(record)
      requires n < |old(history)| && FoundIn(old(history), n, Changed(record.owned, After(record)), record.owned)
      requires SettledPaths(old(history), old(disk), Changed(record.owned, After(record)), record.owned)
      requires FoundIn(history, |old(history)| - 1, record.owned.Keys, record.owned)
      ensures FoundAll(history, n, record, record.owned) && AllStillTrue(history, Now(), Abort)
    {
      FoundTwice(old(history), history, n, record, record.owned);
      StaysRestored();
    }

    twostate lemma StaysRestored()
      requires old(Valid()) && Valid() && old(history) <= history && deeds == old(deeds) && record == old(record)
      requires SettledPaths(old(history), old(disk), Changed(record.owned, After(record)), record.owned)
      requires FoundIn(history, |old(history)| - 1, record.owned.Keys, record.owned)
      ensures AllStillTrue(history, Now(), Abort)
    {
      RestoredLasts(tame, base, others, old(turns), turns, old(history), history, deeds, old(Now()), Now());
    }

    twostate lemma DeployedIsVerified(n: nat)
      requires old(Valid()) && Valid() && old(history) <= history && deeds == old(deeds) && record == old(record)
      requires n < |old(history)| && FoundIn(old(history), n, Changed(record.owned, After(record)), After(record))
      requires SettledPaths(old(history), old(disk), Changed(record.owned, After(record)), After(record))
      requires FoundIn(history, |old(history)| - 1, After(record).Keys, After(record))
      ensures FoundAll(history, n, record, After(record)) && AllStillTrue(history, Now(), Commit)
    {
      FoundTwice(old(history), history, n, record, After(record));
      StaysDeployed();
    }

    twostate lemma StaysDeployed()
      requires old(Valid()) && Valid() && old(history) <= history && deeds == old(deeds) && record == old(record)
      requires SettledPaths(old(history), old(disk), Changed(record.owned, After(record)), After(record))
      requires FoundIn(history, |old(history)| - 1, After(record).Keys, After(record))
      ensures AllStillTrue(history, Now(), Commit)
    {
      DeployedLasts(tame, base, others, old(turns), turns, old(history), history, deeds, old(Now()), Now());
    }

    twostate lemma StaysSurveyed(plan: (Files, Journal))
      requires old(Valid()) && Valid() && old(history) <= history && deeds == old(deeds)
      requires SurveyFits(history, |old(history)| - 1, plan.0, record.owned, plan.1)
      ensures AllStillTrue(history, Now(), Begin(plan.1, map[]))
    {
      SurveyStillTrue(tame, base, others, old(turns), turns, old(history), history, deeds, Now(), plan.0, plan.1);
    }

    twostate lemma StaysMissing(missing: set<Path>)
      requires old(Valid()) && Valid() && old(history) <= history && deeds == old(deeds)
      requires missing <= record.owned.Keys && FoundIn(history, |old(history)| - 1, record.owned.Keys, record.owned - missing)
      ensures AllStillTrue(history, Now(), Forget(missing))
    {
      MissingStillTrue(tame, base, others, old(turns), turns, old(history), history, deeds, Now(), record.owned, missing);
    }

    // `Engine::digest`
    method Probe(path: Path) returns (r: Outcome<Option<Digest>>)
      requires Valid()
      modifies this`disk, this`turns, this`history
      ensures Valid() && old(history) <= history
      ensures !shared ==> disk == old(disk)
      ensures r.Done? ==> r.value == At(disk, path)
      ensures calm ==> r.Done?
    {
      var s := Pause();
      if s != Proceed {
        return Halt(s);
      }
      return Done(At(disk, path));
    }

    // `Engine::replace`: check, write aside, check again and rename; or check and remove.
    method Replace(path: Path, expected: Option<Digest>, bytes: Option<Content>, ghost step: Step) returns (r: Outcome<()>)
      requires Valid() && Touches(record, path)
      requires Turns(record, path, expected, Named(bytes), step)
      modifies this`disk, this`turns, this`history, this`deeds
      ensures Valid() && old(history) <= history
      // Whatever others do: this is the only thing the engine may do, it is done on
      // success, and only what was expected gives way; failing has a reason.
      ensures deeds == old(deeds) || deeds == old(deeds) + [step]
      ensures deeds != old(deeds) ==> Seen(history, |old(history)| - 1, path, expected) && Seen(history, |old(history)| - 1, path, Named(bytes))
      ensures r.Done? ==> deeds == old(deeds) + [step]
      ensures calm && !r.Done? ==> deeds == old(deeds) && Strayed(history, |old(history)| - 1, path, expected)
      ensures Kept(history, old(disk), disk, {path})
      ensures r.Done? && Unedited(history, path) ==> At(disk, path) == Named(bytes)
      // Left alone:
      ensures !shared ==> disk == old(disk) || (At(old(disk), path) == expected && disk == Put(old(disk), path, Named(bytes)))
      ensures !shared && r.Done? ==> At(old(disk), path) == expected && disk == Put(old(disk), path, Named(bytes))
      ensures !shared && calm ==> (r.Done? <==> At(old(disk), path) == expected)
    {
      ghost var n := |history| - 1;
      r := Confirm(path, expected, bytes.Some?);
      Rests();
      if !r.Done? {
        return;
      }
      r := Exchange(path, bytes, step, n, old(disk));
    }

    method Exchange(path: Path, bytes: Option<Content>, ghost step: Step, ghost n: nat, ghost start: Disk) returns (r: Outcome<()>)
      requires Valid() && Touches(record, path) && n < |history| && Kept(history, start, disk, {})
      requires Turns(record, path, At(disk, path), Named(bytes), step)
      modifies this`disk, this`turns, this`history, this`deeds
      ensures Valid() && old(history) <= history && deeds == old(deeds) + [step]
      ensures Seen(history, n, path, At(old(disk), path)) && Seen(history, n, path, Named(bytes))
      ensures Kept(history, start, disk, {path})
      ensures Unedited(history, path) ==> At(disk, path) == Named(bytes)
      ensures !shared ==> disk == Put(old(disk), path, Named(bytes))
      ensures calm ==> r.Done?
    {
      Swap(path, bytes, step);
      ghost var swapped := history;
      label exchanged:
      var s := Pause();
      Rests@exchanged();
      SeenOn(swapped, |old(history)| - 1, history, n);
      KeptBoth(old(history), history, start, old(disk), disk, path);
      return if s == Proceed then Done(()) else Halt(s);
    }

    // Everything before the last moment: checked once before a removal, and again
    // when the temporary copy has been written.
    method Confirm(path: Path, expected: Option<Digest>, writes: bool) returns (r: Outcome<()>)
      requires Valid()
      modifies this`disk, this`turns, this`history
      ensures Valid() && old(history) <= history
      ensures !shared ==> disk == old(disk)
      ensures r.Done? ==> At(disk, path) == expected
      ensures calm && !shared ==> (r.Done? <==> At(old(disk), path) == expected)
      ensures calm && !r.Done? ==> Strayed(history, |old(history)| - 1, path, expected)
    {
      ghost var n := |history| - 1;
      r := PauseAndCheck(path, expected);
      if !r.Done? {
        return;
      }
      if writes {
        ghost var between := |history| - 1;
        r := PauseAndCheck(path, expected);
        SeenOn(history, between, history, n);
      } else {
        var s := Ask();
        r := if s == Proceed then Done(()) else Halt(s);
      }
    }

    method PauseAndCheck(path: Path, expected: Option<Digest>) returns (r: Outcome<()>)
      requires Valid()
      modifies this`disk, this`turns, this`history
      ensures Valid() && old(history) <= history
      ensures !shared ==> disk == old(disk)
      ensures r.Done? ==> At(disk, path) == expected
      ensures calm && !shared ==> (r.Done? <==> At(old(disk), path) == expected)
      ensures calm && !r.Done? ==> Strayed(history, |old(history)| - 1, path, expected)
    {
      ghost var n := |history| - 1;
      var s := Pause();
      if s != Proceed {
        return Halt(s);
      }
      ghost var between := |history| - 1;
      r := Check(path, expected);
      SeenOn(history, between, history, n);
    }

    // The path holds what it is expected to hold.
    method Check(path: Path, expected: Option<Digest>) returns (r: Outcome<()>)
      requires Valid()
      modifies this`disk, this`turns, this`history
      ensures Valid() && old(history) <= history
      ensures !shared ==> disk == old(disk)
      ensures r.Done? ==> At(disk, path) == expected
      ensures calm && !shared ==> (r.Done? <==> At(old(disk), path) == expected)
      ensures calm && !r.Done? ==> Strayed(history, |old(history)| - 1, path, expected)
    {
      var current := Probe(path);
      if !current.Done? {
        return if current.Crashed? then Crashed else Failed;
      }
      if current.value != expected {
        SeenNow(history, |old(history)| - 1, path);
        return Failed;
      }
      return Done(());
    }

    // The last check and the rename (or removal) happen at once.
    method Swap(path: Path, bytes: Option<Content>, ghost step: Step)
      requires Valid() && Touches(record, path)
      requires Turns(record, path, At(disk, path), Named(bytes), step)
      modifies this`disk, this`history, this`deeds
      ensures Valid() && old(history) <= history && deeds == old(deeds) + [step]
      ensures disk == Put(old(disk), path, Named(bytes))
      ensures Seen(history, |old(history)| - 1, path, At(old(disk), path)) && Seen(history, |old(history)| - 1, path, Named(bytes))
    {
      ghost var after := Moment(Now().(disk := Put(disk, path, Named(bytes))), step);
      TurnIsGood(tame, base, others, turns, history, deeds, Now(), path, Named(bytes), step);
      disk := Put(disk, path, Named(bytes));
      Remember(after);
      SeenBoth(old(history), history, path);
    }

    // A saved record replaces the old one in one transaction, or nothing changes.
    method SaveRecovered() returns (r: Outcome<()>)
      requires Valid() && record.pending.Some? && AllStillTrue(history, Now(), Abort)
      requires tame ==> Settles(disk, record, record.owned)
      modifies this`disk, this`record, this`turns, this`history, this`deeds
      ensures Valid() && old(history) <= history
      ensures !shared ==> disk == old(disk)
      ensures record == old(record) || record == Record(old(record).owned, None)
      ensures deeds == if record == old(record) then old(deeds) else old(deeds) + [Abort]
      ensures r.Done? ==> record.pending.None?
      ensures calm ==> r.Done?
    {
      var s := Pause();
      if s != Proceed {
        return Halt(s);
      }
      StaysTrue(Abort);
      ghost var after := Moment(Now().(record := Record(record.owned, None)), Abort);
      Lasts(Abort);
      record := Record(record.owned, None);
      Remember(after);
      s := Pause();
      if s != Proceed {
        return Halt(s);
      }
      return Done(());
    }

    // One path of the recovery: kept if already restored, moved back if it holds
    // the journaled content, refused otherwise.
    method Restore(path: Path) returns (r: Outcome<()>)
      requires Valid() && Touches(record, path)
      modifies this`disk, this`turns, this`history, this`deeds
      ensures Valid() && old(history) <= history
      // Whatever others do: the path is moved back or left alone, success means that it
      // held its recorded content, and failing that it held neither.
      ensures deeds == old(deeds) || deeds == old(deeds) + [Backward(path)]
      ensures r.Done? ==> Seen(history, |old(history)| - 1, path, Get(record.owned, path))
      ensures calm && !r.Done? ==> deeds == old(deeds) && Strayed(history, |old(history)| - 1, path, Get(record.owned, path))
                                   && Strayed(history, |old(history)| - 1, path, Get(After(record), path))
      ensures Kept(history, old(disk), disk, {path})
      ensures r.Done? && Unedited(history, path) ==> At(disk, path) == Get(record.owned, path)
      // Left alone:
      ensures !shared ==> forall p | p != path :: At(disk, p) == At(old(disk), p)
      ensures !shared && r.Done? ==> At(disk, path) == Get(record.owned, path)
      ensures !shared && calm ==>
        (r.Done? <==> OneOfTwo(old(disk), record, path))
      ensures !shared && !r.Done? && calm ==> disk == old(disk)
    {
      ghost var n := |history| - 1;
      var current := Look(path);
      if current.Done? {
        r := RestoreFrom(path, current.value, n, old(disk));
      } else {
        r := if current.Crashed? then Crashed else Failed;
      }
    }

    method Look(path: Path) returns (r: Outcome<Option<Digest>>)
      requires Valid()
      modifies this`disk, this`turns, this`history
      ensures Valid() && old(history) <= history
      ensures !shared ==> disk == old(disk)
      ensures Kept(history, old(disk), disk, {})
      ensures r.Done? ==> r.value == At(disk, path)
      ensures calm ==> r.Done?
    {
      r := Probe(path);
      Rests();
    }

    method RestoreFrom(path: Path, current: Option<Digest>, ghost n: nat, ghost start: Disk) returns (r: Outcome<()>)
      requires Valid() && Touches(record, path) && n < |history| && Kept(history, start, disk, {}) && current == At(disk, path)
      modifies this`disk, this`turns, this`history, this`deeds
      ensures Valid() && old(history) <= history
      ensures deeds == old(deeds) || deeds == old(deeds) + [Backward(path)]
      ensures r.Done? ==> Seen(history, n, path, Get(record.owned, path))
      ensures calm && !r.Done? ==> deeds == old(deeds) && Strayed(history, n, path, Get(record.owned, path))
                                   && Strayed(history, n, path, Get(After(record), path))
      ensures Kept(history, start, disk, {path})
      ensures r.Done? && Unedited(history, path) ==> At(disk, path) == Get(record.owned, path)
      ensures !shared ==> forall p | p != path :: At(disk, p) == At(old(disk), p)
      ensures !shared && r.Done? ==> At(disk, path) == Get(record.owned, path)
      ensures !shared && calm ==> (r.Done? <==> OneOfTwo(old(disk), record, path))
      ensures !shared && !r.Done? && calm ==> disk == old(disk)
    {
      SeenNow(history, n, path);
      if current == Get(record.owned, path) {
        return Done(());
      }
      if current != Get(After(record), path) {
        return Failed;
      }
      r := MoveBack(path, n, start);
    }

    method MoveBack(path: Path, ghost n: nat, ghost start: Disk) returns (r: Outcome<()>)
      requires Valid() && Touches(record, path) && n < |history| && Kept(history, start, disk, {})
      requires Strayed(history, n, path, Get(record.owned, path))
      modifies this`disk, this`turns, this`history, this`deeds
      ensures Valid() && old(history) <= history
      ensures deeds == old(deeds) || deeds == old(deeds) + [Backward(path)]
      ensures r.Done? ==> deeds == old(deeds) + [Backward(path)] && Seen(history, n, path, Get(record.owned, path))
      ensures calm && !r.Done? ==> deeds == old(deeds) && Strayed(history, n, path, Get(record.owned, path))
                                   && Strayed(history, n, path, Get(After(record), path))
      ensures Kept(history, start, disk, {path})
      ensures r.Done? && Unedited(history, path) ==> At(disk, path) == Get(record.owned, path)
      ensures !shared ==> forall p | p != path :: At(disk, p) == At(old(disk), p)
      ensures !shared && r.Done? ==> At(disk, path) == Get(record.owned, path)
      ensures !shared && calm && At(old(disk), path) == Get(After(record), path) ==> r.Done?
    {
      var before, after := Get(record.owned, path), Get(After(record), path);
      var bytes := None;
      if before.Some? {
        assert Stored(store, record.owned[path]);
        bytes := Read(store, before.value);
        if bytes.None? {
          return Failed;
        }
      }
      r := Replace(path, after, bytes, Backward(path));
      SeenOn(history, |old(history)| - 1, history, n);
      SeenOn(old(history), n, history, n);
      KeptBoth(old(history), history, start, old(disk), disk, path);
    }

    // `rollback`
    method Rollback() returns (r: Outcome<()>)
      requires Valid()
      modifies this`disk, this`record, this`turns, this`history, this`deeds
      ensures Valid() && old(history) <= history
      ensures record == old(record) || record == Record(old(record).owned, None)
      ensures r.Done? ==> record.pending.None?
      ensures old(record).pending.None? ==> r.Done? && record == old(record) && disk == old(disk) && deeds == old(deeds)
      // Whatever others do: files the journal changes are moved back, and the journal is
      // kept unless each file it speaks of was found as it is recorded.
      ensures Undoes(old(record), old(deeds), deeds, record != old(record))
      ensures record != old(record) ==> FoundAll(history, |old(history)| - 1, old(record), old(record).owned)
      // Left alone, it succeeds exactly when each touched file is in one of its two
      // recorded states and every other owned file is as recorded.
      ensures calm && !shared ==> (r.Done? <==> Restorable(old(disk), old(record)))
      ensures calm && !shared && !r.Done? ==> record == old(record)
      ensures !shared && r.Done? && old(record).pending.Some? ==> Settles(disk, old(record), record.owned)
    {
      if record.pending.None? {
        return Done(());
      }
      ghost var n := |history| - 1;
      r := RestoreAndVerify();
      if !r.Done? {
        return;
      }
      ghost var found := history;
      r := SaveRecovered();
      FoundStill(found, history, n, old(record), old(record).owned);
    }

    method RestoreAndVerify() returns (r: Outcome<()>)
      requires Valid() && record.pending.Some?
      modifies this`disk, this`turns, this`history, this`deeds
      ensures Valid() && old(history) <= history
      ensures Undoes(record, old(deeds), deeds, false)
      ensures r.Done? ==> FoundAll(history, |old(history)| - 1, record, record.owned) && AllStillTrue(history, Now(), Abort)
      ensures calm && !shared ==>
        (r.Done? <==> AllKnown(old(disk), record, Changed(record.owned, After(record))) && RestInPlace(old(disk), record))
      ensures !shared && r.Done? ==> Settles(disk, record, record.owned)
    {
      ghost var n := |history| - 1;
      r := RestoreAll();
      if r.Done? {
        r := VerifyRestored(old(disk), n);
      }
    }

    method VerifyRestored(ghost start: Disk, ghost n: nat) returns (r: Outcome<()>)
      requires Valid() && record.pending.Some? && n < |history|
      requires FoundIn(history, n, Changed(record.owned, After(record)), record.owned)
      requires SettledPaths(history, disk, Changed(record.owned, After(record)), record.owned)
      requires !shared ==> Untouched(start, disk, Changed(record.owned, After(record)))
      requires !shared ==> Matches(disk, Changed(record.owned, After(record)), record.owned)
      modifies this`disk, this`turns, this`history
      ensures Valid() && old(history) <= history
      ensures r.Done? ==> FoundAll(history, n, record, record.owned) && AllStillTrue(history, Now(), Abort)
      ensures !shared && r.Done? ==> Settles(disk, record, record.owned)
      ensures calm && !shared ==> (r.Done? <==> RestInPlace(start, record))
    {
      r := VerifyOwned(start);
      if r.Done? {
        RestoredIsVerified(n);
      }
    }

    method VerifyOwned(ghost start: Disk) returns (r: Outcome<()>)
      requires Valid() && record.pending.Some?
      requires !shared ==> Untouched(start, disk, Changed(record.owned, After(record)))
      requires !shared ==> Matches(disk, Changed(record.owned, After(record)), record.owned)
      modifies this`disk, this`turns, this`history
      ensures Valid() && old(history) <= history
      ensures r.Done? ==> FoundIn(history, |old(history)| - 1, record.owned.Keys, record.owned)
      ensures !shared && r.Done? ==> Settles(disk, record, record.owned)
      ensures calm && !shared ==> (r.Done? <==> RestInPlace(start, record))
    {
      RestoredSettles(start, disk, record, !shared);
      r := VerifyAll(record.owned);
    }

    method RestoreAll() returns (r: Outcome<()>)
      requires Valid() && record.pending.Some?
      modifies this`disk, this`turns, this`history, this`deeds
      ensures Valid() && old(history) <= history
      ensures Undoes(record, old(deeds), deeds, false)
      ensures r.Done? ==> FoundIn(history, |old(history)| - 1, Changed(record.owned, After(record)), record.owned)
      ensures r.Done? ==> SettledPaths(history, disk, Changed(record.owned, After(record)), record.owned)
      ensures !shared ==> Untouched(old(disk), disk, Changed(record.owned, After(record)))
      ensures !shared && r.Done? ==> Matches(disk, Changed(record.owned, After(record)), record.owned)
      ensures !shared && calm ==> (r.Done? <==> AllKnown(old(disk), record, Changed(record.owned, After(record))))
    {
      r := RestoreEach(Changed(record.owned, After(record)));
    }

    method RestoreEach(changed: set<Path>) returns (r: Outcome<()>)
      requires Valid() && forall p | p in changed :: Touches(record, p)
      modifies this`disk, this`turns, this`history, this`deeds
      ensures Valid() && old(history) <= history
      ensures Undoes(record, old(deeds), deeds, false)
      ensures r.Done? ==> FoundIn(history, |old(history)| - 1, changed, record.owned) && SettledPaths(history, disk, changed, record.owned)
      ensures !shared ==> Untouched(old(disk), disk, changed)
      ensures !shared && r.Done? ==> Matches(disk, changed, record.owned)
      ensures !shared && calm ==> (r.Done? <==> AllKnown(old(disk), record, changed))
    {
      var todo := changed;
      ghost var start, n, done: set<Path> := disk, |history| - 1, {};
      while todo != {}
        invariant Valid() && old(history) <= history && Partition(changed, done, todo)
        invariant Undoes(record, old(deeds), deeds, false)
        invariant Progress(!shared, start, disk, history, n, done, record.owned)
        invariant !shared && calm ==> AllKnown(start, record, done)
        decreases todo
      {
        var path :| path in todo;
        r := RestoreNext(path, n, start, done, old(deeds));
        if !r.Done? {
          return;
        }
        todo, done := todo - {path}, done + {path};
      }
      return Done(());
    }

    method RestoreNext(path: Path, ghost n: nat, ghost start: Disk, ghost done: set<Path>, ghost before: seq<Step>) returns (r: Outcome<()>)
      requires Valid() && Touches(record, path) && path !in done && n < |history|
      requires Undoes(record, before, deeds, false) && Progress(!shared, start, disk, history, n, done, record.owned)
      modifies this`disk, this`turns, this`history, this`deeds
      ensures Valid() && old(history) <= history && Undoes(record, before, deeds, false)
      ensures r.Done? ==> Progress(!shared, start, disk, history, n, done + {path}, record.owned)
      ensures !shared ==> Untouched(start, disk, done + {path})
      ensures !shared && calm ==> (r.Done? <==> OneOfTwo(start, record, path))
    {
      r := Restore(path);
      UntouchedMore(start, old(disk), disk, done, path, !shared);
      UndoesOn(record, before, old(deeds), deeds, path);
      if r.Done? {
        ProgressMore(!shared, start, old(disk), disk, old(history), history, n, done, path, record.owned);
      }
    }

    // Every listed file still has the content it is listed with.
    method VerifyAll(files: Files) returns (r: Outcome<()>)
      requires Valid()
      modifies this`disk, this`turns, this`history
      ensures Valid() && old(history) <= history
      ensures !shared ==> disk == old(disk)
      ensures r.Done? ==> FoundIn(history, |old(history)| - 1, files.Keys, files)
      ensures !shared && r.Done? ==> InPlace(disk, files)
      ensures !shared && calm ==> (r.Done? <==> InPlace(old(disk), files))
    {
      var todo := files.Keys;
      ghost var n, done: set<Path> := |history| - 1, {};
      while todo != {}
        invariant Valid() && old(history) <= history && Partition(files.Keys, done, todo)
        invariant FoundIn(history, n, done, files)
        invariant !shared ==> disk == old(disk) && forall p | p in done :: At(disk, p) == Some(files[p])
        decreases todo
      {
        var path :| path in todo;
        ghost var before := history;
        var checked := Check(path, Some(files[path]));
        if !checked.Done? {
          return checked;
        }
        SeenNow(history, |before| - 1, path);
        FoundMore(before, history, n, done, path, files);
        todo, done := todo - {path}, done + {path};
      }
      assert done == files.Keys;
      return Done(());
    }

    // ---- Applying a new set of files ----

    // `load`: a saved record is checked again before it is used.
    method Load() returns (r: Outcome<Record>)
      requires Valid()
      modifies this`disk, this`turns, this`history
      ensures Valid() && old(history) <= history
      ensures !shared ==> disk == old(disk)
      ensures r.Done? ==> r.value == record
      // What this engine saved is never rejected.
      ensures calm ==> r.Done?
    {
      var s := Pause();
      if s != Proceed {
        return Halt(s);
      }
      var owned := ValidateFiles(record.owned.Keys);
      if !owned {
        return Failed;
      }
      if record.pending.Some? {
        var journal := record.pending.value;
        var next := ValidateFiles(journal.next.Keys);
        var borrowed := ValidateFiles(journal.borrowed.Keys);
        if !next || !borrowed || exists p | p in journal.next :: p in journal.borrowed {
          return Failed;
        }
      }
      return Done(record);
    }

    // `content::retain_file`
    method RetainFile(actual: Content, expected: Digest, size: nat) returns (r: Outcome<()>)
      requires Valid()
      modifies this`disk, this`store, this`turns, this`history
      ensures Valid() && old(history) <= history && Grows(old(store), store)
      ensures !shared ==> disk == old(disk)
      ensures r.Done? ==> size <= FILE_LIMIT && Stored(store, expected)
      ensures calm && size <= FILE_LIMIT && |actual| == size && Digest(actual) == expected ==> r.Done?
    {
      if size > FILE_LIMIT {
        return Failed;
      }
      var s := Pause();
      if s != Proceed {
        return Halt(s);
      }
      if expected in store.retained {
        return if Digest(store.retained[expected]) == expected then Done(()) else Failed;
      }
      if |actual| != size || Digest(actual) != expected {
        return Failed;
      }
      Keep(expected);
      return Done(());
    }

    // The content is copied, verified and renamed into the content directory.
    method Keep(digest: Digest)
      requires Valid() && digest !in store.retained
      modifies this`store, this`history
      ensures Valid() && old(history) <= history && Grows(old(store), store) && Stored(store, digest)
    {
      ghost var after := Moment(Do(Now(), Retain(digest)), Retain(digest));
      GoodKeep(tame, base, others, turns, history, deeds, Now(), digest);
      store := store.(retained := store.retained[digest := digest.content]);
      Note(after);
    }

    // Everything offered is digested and either kept in the content directory or
    // set aside to be saved with the journal.
    method Prepare(files: seq<(Path, Source)>) returns (r: Outcome<(Files, seq<(Digest, Content)>)>)
      requires Valid()
      modifies this`disk, this`store, this`turns, this`history
      ensures Valid() && old(history) <= history && Grows(old(store), store)
      ensures !shared ==> disk == old(disk)
      ensures r.Done? ==> Acceptable(files) && r.value.0 == Wanted(files)
      ensures r.Done? ==> ProvidesAll(store, r.value.1, r.value.0) && SavableAll(r.value.1)
      ensures calm && Offered(files) ==> r.Done?
    {
      var desired: Files := map[];
      var blobs: seq<(Digest, Content)> := [];
      var total: nat := 0;
      assert files[..0] == [];
      for k := 0 to |files|
        invariant Valid() && old(history) <= history && Grows(old(store), store)
        invariant !shared ==> disk == old(disk)
        invariant Prepared(store, files, k, total, desired, blobs)
      {
        var (path, source) := files[k];
        var more := PrepareNext(files, k, total, desired, blobs);
        if !more.Done? {
          return if more.Crashed? then Crashed else Failed;
        }
        total, desired, blobs := total + SizeOf(source), desired[path := DigestOf(source)], more.value;
      }
      assert files[..|files|] == files;
      return Done((desired, blobs));
    }

    method PrepareNext(files: seq<(Path, Source)>, k: nat, total: nat, desired: Files, blobs: seq<(Digest, Content)>)
      returns (r: Outcome<seq<(Digest, Content)>>)
      requires Valid() && k < |files| && Prepared(store, files, k, total, desired, blobs)
      modifies this`disk, this`store, this`turns, this`history
      ensures Valid() && old(history) <= history && Grows(old(store), store)
      ensures !shared ==> disk == old(disk)
      ensures r.Done? ==> var (path, source) := files[k];
        Prepared(store, files, k + 1, total + SizeOf(source), desired[path := DigestOf(source)], r.value)
      ensures calm && Offered(files) ==> r.Done?
    {
      var (path, source) := files[k];
      PreparedMore(store, files, k, total, desired, blobs);
      r := KeepSource(source, blobs);
      if !r.Done? {
        return;
      }
      if total + SizeOf(source) > TOTAL_LIMIT || path in desired {
        return Failed;
      }
      ProvidesMore(old(store), store, blobs, r.value, desired, path, DigestOf(source));
    }

    method KeepSource(source: Source, blobs: seq<(Digest, Content)>) returns (r: Outcome<seq<(Digest, Content)>>)
      requires Valid() && SavableAll(blobs)
      modifies this`disk, this`store, this`turns, this`history
      ensures Valid() && old(history) <= history && Grows(old(store), store)
      ensures !shared ==> disk == old(disk)
      ensures r.Done? ==> blobs <= r.value && SavableAll(r.value) && Provides(store, r.value, DigestOf(source)) && WithinBounds(source)
      ensures calm && Honest(source) ==> r.Done?
    {
      var s := Pause();
      if s != Proceed {
        return Halt(s);
      }
      match source {
        case Bytes(content) =>
          if |content| > MAX_FILE {
            return Failed;
          }
          var more := blobs + [(Digest(content), content)];
          assert more[|blobs|] in more;
          return Done(more);
        case File(actual, hash, size) =>
          var kept := RetainFile(actual, hash, size);
          return if kept.Done? then Done(blobs) else if kept.Crashed? then Crashed else Failed;
      }
    }

    // Each owned file is checked and its content secured before anything is planned.
    method BackUp(owned: Files, blobs0: seq<(Digest, Content)>) returns (r: Outcome<seq<(Digest, Content)>>)
      requires Valid()
      modifies this`disk, this`store, this`turns, this`history
      ensures Valid() && old(history) <= history && Grows(old(store), store)
      ensures !shared ==> disk == old(disk)
      ensures r.Done? ==> blobs0 <= r.value && forall p | p in owned :: Provides(store, r.value, owned[p])
      ensures r.Done? ==> FoundIn(history, |old(history)| - 1, owned.Keys, owned)
      ensures calm && !shared && HeldWithin(old(disk), owned) && SavableAll(blobs0) ==> r.Done? && SavableAll(r.value)
    {
      var blobs, todo := blobs0, owned.Keys;
      ghost var n, done: set<Path>, start := |history| - 1, {}, store;
      ghost var fine := calm && !shared && HeldWithin(disk, owned) && SavableAll(blobs0);
      while todo != {}
        invariant Valid() && old(history) <= history && Partition(owned.Keys, done, todo)
        invariant !shared ==> disk == old(disk)
        invariant BackedUp(start, store, blobs0, blobs, history, n, done, owned)
        invariant fine ==> SavableAll(blobs)
        decreases todo
      {
        var path :| path in todo;
        var secured := BackUpNext(owned, path, n, done, start, blobs0, blobs);
        if !secured.Done? {
          return secured;
        }
        blobs := secured.value;
        todo, done := todo - {path}, done + {path};
      }
      assert done == owned.Keys;
      return Done(blobs);
    }

    method BackUpNext(owned: Files, path: Path, ghost n: nat, ghost done: set<Path>, ghost start: Store,
                      ghost blobs0: seq<(Digest, Content)>, blobs: seq<(Digest, Content)>)
      returns (r: Outcome<seq<(Digest, Content)>>)
      requires Valid() && path in owned && done <= owned.Keys && n < |history|
      requires BackedUp(start, store, blobs0, blobs, history, n, done, owned)
      modifies this`disk, this`store, this`turns, this`history
      ensures Valid() && old(history) <= history
      ensures !shared ==> disk == old(disk)
      ensures Grows(start, store)
      ensures r.Done? ==> BackedUp(start, store, blobs0, r.value, history, n, done + {path}, owned)
      ensures calm && !shared && At(old(disk), path) == Some(owned[path]) && |owned[path].content| <= FILE_LIMIT && SavableAll(blobs) ==>
        r.Done? && SavableAll(r.value)
    {
      var secured := BackUpOne(path, owned[path]);
      if !secured.Done? {
        return if secured.Crashed? then Crashed else Failed;
      }
      BackUpMore(start, old(store), store, blobs0, blobs, secured.value, old(history), history, n, done, owned, path);
      return Done(blobs + secured.value);
    }

    method BackUpOne(path: Path, expected: Digest) returns (r: Outcome<seq<(Digest, Content)>>)
      requires Valid()
      modifies this`disk, this`store, this`turns, this`history
      ensures Valid() && old(history) <= history && Grows(old(store), store)
      ensures !shared ==> disk == old(disk)
      ensures r.Done? ==> Provides(store, r.value, expected) && Seen(history, |old(history)| - 1, path, Some(expected))
      ensures calm && !shared && At(old(disk), path) == Some(expected) && |expected.content| <= FILE_LIMIT ==>
        r.Done? && SavableAll(r.value)
    {
      var checked := Check(path, Some(expected));
      if !checked.Done? {
        return if checked.Crashed? then Crashed else Failed;
      }
      SeenNow(history, |old(history)| - 1, path);
      ghost var seen := history;
      var s := Pause();
      if s != Proceed || path !in disk {
        return Halt(s);
      }
      var content := disk[path];
      r := SecureContent(content, expected);
      SeenOn(seen, |old(history)| - 1, history, |old(history)| - 1);
    }

    // What was read is set aside, or kept in the content directory.
    method SecureContent(content: Content, expected: Digest) returns (r: Outcome<seq<(Digest, Content)>>)
      requires Valid()
      modifies this`disk, this`store, this`turns, this`history
      ensures Valid() && old(history) <= history && Grows(old(store), store)
      ensures !shared ==> disk == old(disk)
      ensures r.Done? ==> Provides(store, r.value, expected)
      ensures calm && Digest(content) == expected && |content| <= FILE_LIMIT ==> r.Done? && SavableAll(r.value)
    {
      if |content| <= MAX_FILE && expected !in store.retained {
        assert (expected, content) in [(expected, content)];
        return Done([(expected, content)]);
      }
      var kept := RetainFile(content, expected, |content|);
      if !kept.Done? {
        return if kept.Crashed? then Crashed else Failed;
      }
      return Done([]);
    }

    // What is already owned or free will be owned; what matches is borrowed; what
    // differs stops the operation before anything changes.
    method Classify(desired: Files, owned: Files) returns (r: Outcome<Journal>)
      requires Valid()
      modifies this`disk, this`turns, this`history
      ensures Valid() && old(history) <= history
      ensures !shared ==> disk == old(disk)
      ensures r.Done? ==> Planned(disk, desired, owned, r.value, desired.Keys, !shared)
      // Whatever others do: what will be owned was found free and what is borrowed was
      // found as it is wanted.
      ensures r.Done? ==> PlannedSeen(history, |old(history)| - 1, desired, owned, r.value, desired.Keys)
      ensures calm && !shared && NoConflict(old(disk), desired, owned) ==> r.Done?
    {
      var journal := Journal(map[], map[]);
      var todo := desired.Keys;
      ghost var n, done: set<Path> := |history| - 1, {};
      PlanNothing(disk, desired, owned, !shared);
      while todo != {}
        invariant Valid() && old(history) <= history
        invariant Partition(desired.Keys, done, todo)
        invariant !shared ==> disk == old(disk)
        invariant Planned(disk, desired, owned, journal, done, !shared) && PlannedSeen(history, n, desired, owned, journal, done)
        decreases todo
      {
        var path :| path in todo;
        var placed := PlaceFile(desired, owned, journal, done, path, n);
        if !placed.Done? {
          return placed;
        }
        journal, todo, done := placed.value, todo - {path}, done + {path};
      }
      assert done == desired.Keys;
      return Done(journal);
    }

    method PlaceFile(desired: Files, owned: Files, journal: Journal, ghost done: set<Path>, path: Path, ghost n: nat)
      returns (r: Outcome<Journal>)
      requires Valid() && path in desired && path !in done && n < |history|
      requires Planned(disk, desired, owned, journal, done, !shared) && PlannedSeen(history, n, desired, owned, journal, done)
      modifies this`disk, this`turns, this`history
      ensures Valid() && old(history) <= history
      ensures !shared ==> disk == old(disk)
      ensures r.Done? ==> Planned(disk, desired, owned, r.value, done + {path}, !shared)
      ensures r.Done? ==> PlannedSeen(history, n, desired, owned, r.value, done + {path})
      ensures calm && !shared && (path in owned || FreeOrSame(disk, path, desired[path])) ==> r.Done?
    {
      var ours := ClassifyOne(path, desired[path], owned);
      if !ours.Done? {
        return if ours.Crashed? then Crashed else Failed;
      }
      PlaceOne(disk, desired, owned, journal, done, path, ours.value, !shared);
      PlaceSeen(old(history), history, n, desired, owned, journal, done, path, ours.value);
      return Done(Placed(journal, path, desired[path], ours.value));
    }

    // Whether a wanted file will be owned (or is borrowed).
    method ClassifyOne(path: Path, wanted: Digest, owned: Files) returns (r: Outcome<bool>)
      requires Valid()
      modifies this`disk, this`turns, this`history
      ensures Valid() && old(history) <= history
      ensures !shared ==> disk == old(disk)
      ensures r.Done? && path in owned ==> r.value
      ensures r.Done? && path !in owned ==> Seen(history, |old(history)| - 1, path, if r.value then None else Some(wanted))
      ensures r.Done? && path !in owned && !shared ==> At(disk, path) == (if r.value then None else Some(wanted))
      ensures calm && !shared ==> (r.Done? <==> path in owned || FreeOrSame(disk, path, wanted))
    {
      if path in owned {
        return Done(true);
      }
      var current := Probe(path);
      if !current.Done? {
        return if current.Crashed? then Crashed else Failed;
      }
      SeenNow(history, |old(history)| - 1, path);
      if current.value == None {
        return Done(true);
      }
      if current.value == Some(wanted) {
        return Done(false);
      }
      return Failed;
    }

    // The journal and its backups are saved in one transaction, which checks each
    // backup against its digest.
    method SaveJournal(journal: Journal, blobs: seq<(Digest, Content)>) returns (r: Outcome<()>)
      requires Valid() && record.pending.None? && AllStillTrue(history, Now(), Begin(journal, map[]))
      requires ValidRecord(Record(record.owned, Some(journal)))
      requires ProvidesAll(store, blobs, record.owned) && ProvidesAll(store, blobs, journal.next)
      requires tame ==> Clear(disk, record.owned, journal)
      modifies this`disk, this`record, this`store, this`turns, this`history, this`deeds
      ensures Valid() && old(history) <= history
      ensures !shared ==> disk == old(disk)
      ensures record == old(record) || record == Record(old(record).owned, Some(journal))
      ensures deeds == if record == old(record) then old(deeds) else old(deeds) + [Begin(journal, BlobMap(blobs))]
      ensures r.Done? ==> record == Record(old(record).owned, Some(journal))
      ensures calm && SavableAll(blobs) ==> r.Done?
    {
      var s := Pause();
      if s != Proceed {
        return Halt(s);
      }
      if exists b | b in blobs :: !Savable(b) {
        return Failed;
      }
      StaysTrue(Begin(journal, map[]));
      Commence(journal, blobs);
      s := Pause();
      if s != Proceed {
        return Halt(s);
      }
      return Done(());
    }

    method Commence(journal: Journal, blobs: seq<(Digest, Content)>)
      requires Valid() && record.pending.None? && SavableAll(blobs) && AllStillTrue(history, Now(), Begin(journal, map[]))
      requires ValidRecord(Record(record.owned, Some(journal)))
      requires ProvidesAll(store, blobs, record.owned) && ProvidesAll(store, blobs, journal.next)
      requires tame ==> Clear(disk, record.owned, journal)
      modifies this`record, this`store, this`history, this`deeds
      ensures Valid() && old(history) <= history && deeds == old(deeds) + [Begin(journal, BlobMap(blobs))]
      ensures record == Record(old(record).owned, Some(journal))
    {
      ghost var after := Moment(Begun(Now(), journal, blobs), Begin(journal, BlobMap(blobs)));
      BeginIsGood(tame, base, others, turns, history, deeds, Now(), journal, blobs);
      store := AddBlobs(store, BlobMap(blobs));
      record := Record(record.owned, Some(journal));
      Remember(after);
    }

    // The files move one by one from their old state to their new one.
    method MoveAll(changed: set<Path>) returns (r: Outcome<()>)
      requires Valid() && forall p | p in changed :: Touches(record, p)
      modifies this`disk, this`turns, this`history, this`deeds
      ensures Valid() && old(history) <= history
      ensures Advances(record, old(deeds), deeds)
      ensures r.Done? ==> FoundIn(history, |old(history)| - 1, changed, After(record)) && MovedAll(old(deeds), deeds, changed)
      ensures r.Done? ==> SettledPaths(history, disk, changed, After(record))
      ensures !shared ==> Untouched(old(disk), disk, changed)
      ensures !shared && r.Done? ==> Matches(disk, changed, After(record))
      ensures !shared && calm && Matches(old(disk), changed, record.owned) ==> r.Done?
    {
      var todo := changed;
      ghost var start, n, done: set<Path> := disk, |history| - 1, {};
      while todo != {}
        invariant Valid() && old(history) <= history && Partition(changed, done, todo)
        invariant Advances(record, old(deeds), deeds) && MovedAll(old(deeds), deeds, done)
        invariant Progress(!shared, start, disk, history, n, done, After(record))
        decreases todo
      {
        var path :| path in todo;
        r := MoveNext(path, n, start, done, old(deeds));
        if !r.Done? {
          return;
        }
        todo, done := todo - {path}, done + {path};
      }
      assert done == changed;
      return Done(());
    }

    method MoveNext(path: Path, ghost n: nat, ghost start: Disk, ghost done: set<Path>, ghost before: seq<Step>) returns (r: Outcome<()>)
      requires Valid() && Touches(record, path) && path !in done && n < |history|
      requires Advances(record, before, deeds) && MovedAll(before, deeds, done)
      requires Progress(!shared, start, disk, history, n, done, After(record))
      modifies this`disk, this`turns, this`history, this`deeds
      ensures Valid() && old(history) <= history && Advances(record, before, deeds)
      ensures r.Done? ==> MovedAll(before, deeds, done + {path}) && Progress(!shared, start, disk, history, n, done + {path}, After(record))
      ensures !shared ==> Untouched(start, disk, done + {path})
      ensures !shared && calm && At(start, path) == Get(record.owned, path) ==> r.Done?
    {
      r := Move(path);
      AdvancesOn(record, before, old(deeds), deeds, path);
      if r.Done? {
        ProgressMore(!shared, start, old(disk), disk, old(history), history, n, done, path, After(record));
        MovedMore(before, old(deeds), done, path);
      }
    }

    method Move(path: Path) returns (r: Outcome<()>)
      requires Valid() && Touches(record, path)
      modifies this`disk, this`turns, this`history, this`deeds
      ensures Valid() && old(history) <= history
      ensures deeds == old(deeds) || deeds == old(deeds) + [Forward(path)]
      ensures r.Done? ==> deeds == old(deeds) + [Forward(path)] && Seen(history, |old(history)| - 1, path, Get(After(record), path))
      ensures calm && !r.Done? ==> deeds == old(deeds) && Strayed(history, |old(history)| - 1, path, Get(record.owned, path))
      ensures Kept(history, old(disk), disk, {path})
      ensures r.Done? && Unedited(history, path) ==> At(disk, path) == Get(After(record), path)
      ensures !shared ==> forall p | p != path :: At(disk, p) == At(old(disk), p)
      ensures !shared && r.Done? ==> At(disk, path) == Get(After(record), path)
      ensures !shared && calm && At(old(disk), path) == Get(record.owned, path) ==> r.Done?
    {
      var before, after := Get(record.owned, path), Get(After(record), path);
      var bytes := None;
      if after.Some? {
        assert Stored(store, After(record)[path]);
        bytes := Read(store, after.value);
        if bytes.None? {
          return Failed;
        }
      }
      r := Replace(path, before, bytes, Forward(path));
    }

    // The final save.
    method SaveDeployed() returns (r: Outcome<()>)
      requires Valid() && record.pending.Some? && AllStillTrue(history, Now(), Commit)
      requires tame ==> Settles(disk, record, After(record))
      modifies this`disk, this`record, this`turns, this`history, this`deeds
      ensures Valid() && old(history) <= history
      ensures !shared ==> disk == old(disk)
      ensures record == old(record) || record == Record(After(old(record)), None)
      ensures deeds == if record == old(record) then old(deeds) else old(deeds) + [Commit]
      ensures r.Done? ==> record == Record(After(old(record)), None)
      ensures calm ==> r.Done?
    {
      var s := Pause();
      if s != Proceed {
        return Halt(s);
      }
      StaysTrue(Commit);
      ghost var after := Moment(Now().(record := Record(After(record), None)), Commit);
      Lasts(Commit);
      record := Record(After(record), None);
      Remember(after);
      s := Pause();
      if s != Proceed {
        return Halt(s);
      }
      return Done(());
    }

    // Everything that is decided before the first durable change.
    method Plan(files: seq<(Path, Source)>) returns (r: Outcome<(Journal, seq<(Digest, Content)>)>)
      requires Valid() && record.pending.None?
      modifies this`disk, this`store, this`turns, this`history
      ensures Valid() && old(history) <= history
      ensures !shared ==> disk == old(disk)
      ensures r.Done? ==> Acceptable(files) && ClassifiedSoFar(Wanted(files), record.owned, r.value.0, Wanted(files).Keys)
      ensures r.Done? ==> ValidRecord(Record(record.owned, Some(r.value.0)))
      ensures r.Done? ==> ProvidesAll(store, r.value.1, record.owned) && ProvidesAll(store, r.value.1, r.value.0.next)
      // Whatever others do: the plan is what was found.
      ensures r.Done? ==> Surveyed(history, |old(history)| - 1, Wanted(files), record.owned, r.value.0)
      ensures r.Done? ==> AllStillTrue(history, Now(), Begin(r.value.0, map[]))
      ensures r.Done? && tame ==> Clear(disk, record.owned, r.value.0)
      ensures calm && !shared && Plannable(old(disk), record.owned, files) ==> r.Done? && SavableAll(r.value.1)
    {
      var prepared := Prepare(files);
      if !prepared.Done? {
        return if prepared.Crashed? then Crashed else Failed;
      }
      var (desired, offered) := prepared.value;
      ghost var store0 := store;
      var valid := ValidateFiles(desired.Keys);
      if !valid {
        return Failed;
      }
      ghost var prior := history;
      r := Survey(desired, offered);
      if r.Done? {
        SurveyedEarlier(prior, history, |old(history)| - 1, desired, record.owned, r.value.0);
        PlanIsSound(desired, record.owned, r.value.0, store0, store, offered, r.value.1);
      }
    }

    // The directory as it is, against what is owned and what is wanted.
    method Survey(desired: Files, offered: seq<(Digest, Content)>) returns (r: Outcome<(Journal, seq<(Digest, Content)>)>)
      requires Valid() && record.pending.None?
      modifies this`disk, this`store, this`turns, this`history
      ensures Valid() && old(history) <= history && Grows(old(store), store)
      ensures !shared ==> disk == old(disk)
      ensures r.Done? ==> SurveyFits(history, |old(history)| - 1, desired, record.owned, r.value.0)
      ensures r.Done? ==> AllStillTrue(history, Now(), Begin(r.value.0, map[]))
      ensures r.Done? ==> offered <= r.value.1 && ProvidesAll(store, r.value.1, record.owned)
      ensures r.Done? && tame ==> Clear(disk, record.owned, r.value.0)
      ensures calm && !shared && HeldWithin(old(disk), record.owned) && NoConflict(old(disk), desired, record.owned) && SavableAll(offered) ==>
        r.Done? && SavableAll(r.value.1)
    {
      var backups := BackUp(record.owned, offered);
      if !backups.Done? {
        return if backups.Crashed? then Crashed else Failed;
      }
      ghost var between := history;
      var planned := Classify(desired, record.owned);
      if !planned.Done? {
        return if planned.Crashed? then Crashed else Failed;
      }
      SurveyedBoth(between, |old(history)| - 1, history, |old(history)| - 1, desired, record.owned, planned.value);
      StaysSurveyed((desired, planned.value));
      if tame {
        PlanIsClear(base, Now(), planned.value, desired);
      }
      return Done((planned.value, backups.value));
    }

    // Everything between the journal and the final save.
    method Deploy() returns (r: Outcome<()>)
      requires Valid() && record.pending.Some?
      modifies this`disk, this`turns, this`history, this`deeds
      ensures Valid() && old(history) <= history
      // Whatever others do: files only move on, and success means that each new, removed
      // and borrowed file was found as it is wanted.
      ensures Advances(record, old(deeds), deeds)
      ensures r.Done? ==> MovedAll(old(deeds), deeds, Changed(record.owned, After(record)))
      ensures r.Done? ==> FoundAll(history, |old(history)| - 1, record, After(record))
      ensures r.Done? ==> FoundIn(history, |old(history)| - 1, Borrowed(record).Keys, Borrowed(record))
      ensures r.Done? ==> AllStillTrue(history, Now(), Commit)
      ensures r.Done? && tame ==> Settles(disk, record, After(record))
      ensures calm && tame && Settles(old(disk), record, record.owned) ==> r.Done?
    {
      ghost var n := |history| - 1;
      if tame {
        IntactBorrowed(base, Now());
      }
      var moved := MoveAll(Changed(record.owned, After(record)));
      if !moved.Done? {
        return moved;
      }
      if tame {
        IntactSettles(base, Now());
        IntactBorrowed(base, Now());
      }
      r := VerifyDeployed(n);
    }

    // What was moved, and what is borrowed.
    method VerifyDeployed(ghost n: nat) returns (r: Outcome<()>)
      requires Valid() && record.pending.Some? && n < |history|
      requires FoundIn(history, n, Changed(record.owned, After(record)), After(record))
      requires SettledPaths(history, disk, Changed(record.owned, After(record)), After(record))
      modifies this`disk, this`turns, this`history
      ensures Valid() && old(history) <= history
      ensures !shared ==> disk == old(disk)
      ensures r.Done? ==> FoundAll(history, n, record, After(record)) && FoundIn(history, n, Borrowed(record).Keys, Borrowed(record))
      ensures r.Done? ==> AllStillTrue(history, Now(), Commit)
      ensures calm && !shared && InPlace(old(disk), After(record)) && InPlace(old(disk), Borrowed(record)) ==> r.Done?
    {
      r := VerifyAll(After(record));
      if !r.Done? {
        return;
      }
      ghost var between := history;
      r := VerifyAll(Borrowed(record));
      if !r.Done? {
        return;
      }
      ghost var verified := history;
      var s := Pause();
      FoundEarlier(between, |old(history)| - 1, history, |old(history)| - 1, After(record).Keys, After(record));
      DeployedIsVerified(n);
      FoundEarlier(verified, |between| - 1, history, n, Borrowed(record).Keys, Borrowed(record));
      return if s == Proceed then Done(()) else Halt(s);
    }

    // `apply_sources`
    method Apply(files: seq<(Path, Source)>) returns (r: Outcome<nat>)
      requires Valid()
      modifies this`disk, this`record, this`store, this`turns, this`history, this`deeds
      ensures Valid() && old(history) <= history
      // Success: exactly what was asked for is deployed; what stood there already is not owned.
      ensures r.Done? ==> record.pending.None? && r.value == |record.owned| && OwnsWanted(record.owned, Wanted(files))
      ensures r.Done? && tame ==> Serves(base, Now(), files)
      // Anything else, death included: what was owned is owned, or the whole new
      // deployment is there.
      ensures record.owned == old(record).owned || (record.pending.None? && OwnsWanted(record.owned, Wanted(files)))
      ensures tame ==> record.owned == old(record).owned || (Deployed(base, Now(), Wanted(files)) && Serves(base, Now(), files))
      // Whatever others do: nothing changes hands unless each offered file was found in
      // place, and each one given up was found gone.
      ensures r.Done? || record.owned != old(record).owned ==>
        Acceptable(files) && OfferFound(history, |old(history)| - 1, files, old(record).owned)
      ensures calm && tame && Deployable(base, old(record).owned, files) ==> r.Done?
    {
      r := RecoverAndApply(files);
      if r.Done? || record.owned != old(record).owned {
        FoundAsOffered(history, |old(history)| - 1, files, old(record).owned);
        if tame {
          ServedAsOffered(base, Now(), files);
        }
      }
    }

    method RecoverAndApply(files: seq<(Path, Source)>) returns (r: Outcome<nat>)
      requires Valid()
      modifies this`disk, this`record, this`store, this`turns, this`history, this`deeds
      ensures Valid() && old(history) <= history
      ensures r.Done? ==> record.pending.None? && r.value == |record.owned| && OwnsWanted(record.owned, Wanted(files))
      ensures r.Done? && tame ==> Deployed(base, Now(), Wanted(files))
      ensures record.owned == old(record).owned || (record.pending.None? && OwnsWanted(record.owned, Wanted(files)))
      ensures tame ==> record.owned == old(record).owned || Deployed(base, Now(), Wanted(files))
      ensures r.Done? || record.owned != old(record).owned ==>
        && Acceptable(files)
        && FoundIn(history, |old(history)| - 1, Wanted(files).Keys + old(record).owned.Keys, Wanted(files))
      ensures calm && tame && Deployable(base, old(record).owned, files) ==> r.Done?
    {
      ghost var n := |history| - 1;
      var loaded := Load();
      if !loaded.Done? {
        return if loaded.Crashed? then Crashed else Failed;
      }
      if tame {
        IntactRestorable(base, Now());
      }
      var recovered := Rollback();
      if !recovered.Done? {
        return if recovered.Crashed? then Crashed else Failed;
      }
      ghost var m := |history| - 1;
      r := ApplyRecovered(files);
      SeenOn(history, m, history, n);
    }

    method ApplyRecovered(files: seq<(Path, Source)>) returns (r: Outcome<nat>)
      requires Valid() && record.pending.None?
      modifies this`disk, this`record, this`store, this`turns, this`history, this`deeds
      ensures Valid() && old(history) <= history
      ensures r.Done? ==> record.pending.None? && r.value == |record.owned| && OwnsWanted(record.owned, Wanted(files))
      ensures r.Done? && tame ==> Deployed(base, Now(), Wanted(files))
      ensures record.owned == old(record).owned || (record.pending.None? && OwnsWanted(record.owned, Wanted(files)))
      ensures tame ==> record.owned == old(record).owned || Deployed(base, Now(), Wanted(files))
      ensures r.Done? || record.owned != old(record).owned ==>
        && Acceptable(files)
        && FoundIn(history, |old(history)| - 1, Wanted(files).Keys + old(record).owned.Keys, Wanted(files))
      ensures calm && tame && Deployable(base, old(record).owned, files) ==> r.Done?
    {
      ghost var n := |history| - 1;
      FitToPlan(files);
      var journaled := OpenJournal(files);
      if !journaled.Done? {
        return if journaled.Crashed? then Crashed else Failed;
      }
      ghost var m := |history| - 1;
      r := Finish(Wanted(files));
      SeenOn(history, m, history, n);
    }

    // Everything up to and including the saved journal.
    method OpenJournal(files: seq<(Path, Source)>) returns (r: Outcome<()>)
      requires Valid() && record.pending.None?
      modifies this`disk, this`record, this`store, this`turns, this`history, this`deeds
      ensures Valid() && old(history) <= history
      ensures !shared ==> disk == old(disk)
      ensures record.owned == old(record).owned
      ensures deeds == old(deeds) || (|deeds| == |old(deeds)| + 1 && old(deeds) <= deeds && deeds[|old(deeds)|].Begin?)
      ensures r.Done? ==> record.pending.Some? && ClassifiedSoFar(Wanted(files), record.owned, record.pending.value, Wanted(files).Keys)
      ensures r.Done? ==> Acceptable(files)
      // Whatever others do: a journal is saved only when each owned file was found in
      // place, each new one free and each borrowed one as it is wanted.
      ensures record.pending.Some? ==>
        Surveyed(history, |old(history)| - 1, Wanted(files), record.owned, record.pending.value)
      ensures calm && !shared && Plannable(old(disk), old(record).owned, files) ==> r.Done?
      ensures r.Done? && tame ==> Settles(disk, record, record.owned)
    {
      var planned := Plan(files);
      if !planned.Done? {
        return if planned.Crashed? then Crashed else Failed;
      }
      r := SavePlan(planned.value.0, planned.value.1, Wanted(files), |old(history)| - 1);
    }

    lemma FitToPlan(files: seq<(Path, Source)>)
      requires Valid() && record.pending.None?
      ensures calm && tame && Deployable(base, record.owned, files) ==> calm && !shared && Plannable(disk, record.owned, files)
    {
      if tame {
        DeployableHere(base, Now(), files);
      }
    }

    method SavePlan(journal: Journal, blobs: seq<(Digest, Content)>, ghost wanted: Files, ghost n: nat) returns (r: Outcome<()>)
      requires Valid() && record.pending.None? && ValidRecord(Record(record.owned, Some(journal)))
      requires ProvidesAll(store, blobs, record.owned) && ProvidesAll(store, blobs, journal.next)
      requires AllStillTrue(history, Now(), Begin(journal, map[])) && Surveyed(history, n, wanted, record.owned, journal)
      requires tame ==> Clear(disk, record.owned, journal)
      modifies this`disk, this`record, this`store, this`turns, this`history, this`deeds
      ensures Valid() && old(history) <= history
      ensures !shared ==> disk == old(disk)
      ensures record == old(record) || record == Record(old(record).owned, Some(journal))
      ensures deeds == if record == old(record) then old(deeds) else old(deeds) + [Begin(journal, BlobMap(blobs))]
      ensures r.Done? ==> record == Record(old(record).owned, Some(journal))
      ensures Surveyed(history, n, wanted, record.owned, journal)
      ensures r.Done? && tame ==> Settles(disk, record, record.owned)
      ensures calm && SavableAll(blobs) ==> r.Done?
    {
      if tame {
        ClearSettles(disk, record.owned, journal);
      }
      r := SaveJournal(journal, blobs);
      SurveyedStill(old(history), history, n, wanted, record.owned, journal);
    }

    method Finish(ghost wanted: Files) returns (r: Outcome<nat>)
      requires Valid() && record.pending.Some?
      requires ClassifiedSoFar(wanted, record.owned, record.pending.value, wanted.Keys)
      modifies this`disk, this`record, this`turns, this`history, this`deeds
      ensures Valid() && old(history) <= history
      ensures r.Done? ==> record.pending.None? && r.value == |record.owned| && OwnsWanted(record.owned, wanted)
      ensures r.Done? && tame ==> record.owned == wanted - base.Keys && Delivered(disk, wanted)
      ensures record.owned == old(record).owned || (record.pending.None? && OwnsWanted(record.owned, wanted))
      ensures tame ==> record.owned == old(record).owned || Deployed(base, Now(), wanted)
      ensures r.Done? || record.owned != old(record).owned ==>
        FoundIn(history, |old(history)| - 1, wanted.Keys + old(record).owned.Keys, wanted)
      ensures calm && tame && Settles(old(disk), old(record), old(record).owned) ==> r.Done?
    {
      var outcome := Deploy();
      if outcome.Crashed? {
        return Crashed;
      }
      if outcome.Failed? {
        var restored := Rollback();
        return if restored.Crashed? then Crashed else Failed;
      }
      if tame {
        DeliversWanted(base, Now(), wanted);
      }
      FoundWanted(history, |old(history)| - 1, record, wanted);
      ghost var found := history;
      var saved := SaveDeployed();
      FoundEarlier(found, |old(history)| - 1, history, |old(history)| - 1, wanted.Keys + old(record).owned.Keys, wanted);
      if !saved.Done? {
        return if saved.Crashed? then Crashed else Failed;
      }
      return Done(|record.owned|);
    }

    // ---- The other operations ----

    // `recover`
    method Recover() returns (r: Outcome<bool>)
      requires Valid()
      modifies this`disk, this`record, this`store, this`turns, this`history, this`deeds
      ensures Valid() && old(history) <= history
      ensures record.owned == old(record).owned
      ensures Undoes(old(record), old(deeds), deeds, record != old(record))
      ensures record != old(record) ==> FoundAll(history, |old(history)| - 1, old(record), old(record).owned)
      ensures r.Done? ==> record.pending.None? && (r.value <==> old(record).pending.Some?)
      ensures calm && !shared ==> (r.Done? <==> Restorable(old(disk), old(record)))
    {
      var loaded := Load();
      if !loaded.Done? {
        return if loaded.Crashed? then Crashed else Failed;
      }
      if loaded.value.pending.None? {
        return Done(false);
      }
      ghost var n := |history| - 1;
      var restored := Rollback();
      SeenOn(history, n, history, |old(history)| - 1);
      return if restored.Done? then Done(true) else if restored.Crashed? then Crashed else Failed;
    }

    // `remove`: recover, ask whether other plugins still need the loader, deploy nothing.
    method Remove() returns (r: Outcome<nat>)
      requires Valid()
      modifies this`disk, this`record, this`store, this`turns, this`history, this`deeds
      ensures Valid() && old(history) <= history
      ensures r.Done? ==> r.value == 0 && record == Record(map[], None)
      ensures r.Done? && tame ==> disk == base
      ensures record.owned == old(record).owned || record == Record(map[], None)
      ensures r.Done? || record.owned != old(record).owned ==> AllGoneOnce(history, |old(history)| - 1, old(record).owned)
      ensures calm && tame && WithinLimit(old(record).owned) ==> r.Done?
    {
      if tame {
        IntactRestorable(base, Now());
      }
      var restored := Rollback();
      if !restored.Done? {
        return if restored.Crashed? then Crashed else Failed;
      }
      var s := Pause();
      if s != Proceed {
        return Halt(s);
      }
      ghost var n := |history| - 1;
      r := DeployNothing();
      GoneEarlier(history, n, |old(history)| - 1, old(record).owned);
    }

    method DeployNothing() returns (r: Outcome<nat>)
      requires Valid()
      modifies this`disk, this`record, this`store, this`turns, this`history, this`deeds
      ensures Valid() && old(history) <= history
      ensures r.Done? ==> r.value == 0 && record == Record(map[], None)
      ensures r.Done? && tame ==> disk == base
      ensures record.owned == old(record).owned || record == Record(map[], None)
      ensures r.Done? || record.owned != old(record).owned ==> AllGoneOnce(history, |old(history)| - 1, old(record).owned)
      ensures calm && tame && WithinLimit(old(record).owned) ==> r.Done?
    {
      NothingWanted();
      r := Apply([]);
      if tame && r.Done? {
        NothingOwned(base, Now());
      }
    }

    // `repair_missing`: files that are gone are dropped from ownership, changed ones stop it.
    method RepairMissing() returns (r: Outcome<()>)
      requires Valid()
      modifies this`disk, this`record, this`store, this`turns, this`history, this`deeds
      ensures Valid() && old(history) <= history
      ensures forall p | p in record.owned :: p in old(record).owned && record.owned[p] == old(record).owned[p]
      ensures tame ==> record.owned == old(record).owned
      // Whatever others do: what leaves the record was found missing and what stays was
      // found as it is recorded.
      ensures r.Done? || record.owned != old(record).owned ==>
        FoundIn(history, |old(history)| - 1, old(record).owned.Keys, record.owned)
      // Left alone: only missing files leave the record, and a changed one stops it.
      ensures !shared ==> OnlyMissingLeave(old(disk), old(record).owned, record.owned)
      ensures r.Done? && !shared ==> record.pending.None? && InPlace(disk, record.owned)
      ensures !shared && old(record).pending.None? && !Repairable(old(disk), old(record).owned) ==> !r.Done? && record == old(record)
      ensures calm && !shared ==>
        (r.Done? <==> Restorable(old(disk), old(record)) && (old(record).pending.None? ==> Repairable(old(disk), old(record).owned)))
      // With no journal open: whatever is there and unchanged stays, and only that.
      ensures calm && !shared && old(record).pending.None? && (forall p | p in old(record).owned && p in old(disk) :: Digest(old(disk)[p]) == old(record).owned[p]) ==>
        r.Done? && disk == old(disk) && forall p :: p in record.owned <==> p in old(record).owned && p in old(disk)
    {
      var restored := Rollback();
      if !restored.Done? {
        return restored;
      }
      ghost var n, between := |history| - 1, disk;
      r := ForgetMissing();
      SeenOn(history, n, history, |old(history)| - 1);
      if !shared {
        RepairIsExact(old(disk), between, old(record), record.owned);
      }
    }

    method ForgetMissing() returns (r: Outcome<()>)
      requires Valid() && record.pending.None?
      modifies this`disk, this`record, this`turns, this`history, this`deeds
      ensures Valid() && old(history) <= history && record.pending.None?
      ensures forall p | p in record.owned :: p in old(record).owned && record.owned[p] == old(record).owned[p]
      ensures tame ==> record == old(record)
      ensures r.Done? || record != old(record) ==> FoundIn(history, |old(history)| - 1, old(record).owned.Keys, record.owned)
      ensures !shared ==> disk == old(disk)
      ensures !shared && (r.Done? || record != old(record)) ==> Matches(disk, old(record).owned.Keys, record.owned)
      ensures !shared && !Repairable(old(disk), old(record).owned) ==> !r.Done? && record == old(record)
      ensures calm && !shared && Repairable(old(disk), old(record).owned) ==> r.Done?
    {
      ghost var n := |history| - 1;
      var missing := FindMissing();
      if !missing.Done? {
        return if missing.Crashed? then Crashed else Failed;
      }
      ghost var found := history;
      var s := Pause();
      if s != Proceed {
        return Halt(s);
      }
      if tame {
        NothingToForget(base, Now(), missing.value);
      }
      FoundEarlier(found, n, history, n, record.owned.Keys, record.owned - missing.value);
      StaysMissing(missing.value);
      Drop(missing.value);
      FoundEarlier(found, n, history, n, old(record).owned.Keys, record.owned);
      return Done(());
    }

    method Drop(paths: set<Path>)
      requires Valid() && Enabled(tame, Now(), Forget(paths)) && AllStillTrue(history, Now(), Forget(paths))
      modifies this`record, this`history, this`deeds
      ensures Valid() && old(history) <= history && deeds == old(deeds) + [Forget(paths)]
      ensures record == Record(old(record).owned - paths, None)
    {
      ghost var after := Moment(Now().(record := Record(record.owned - paths, None)), Forget(paths));
      Lasts(Forget(paths));
      record := Record(record.owned - paths, None);
      Remember(after);
    }

    method FindMissing() returns (r: Outcome<set<Path>>)
      requires Valid()
      modifies this`disk, this`turns, this`history
      ensures Valid() && old(history) <= history
      ensures !shared ==> disk == old(disk)
      ensures r.Done? ==> r.value <= record.owned.Keys
      ensures r.Done? ==> FoundIn(history, |old(history)| - 1, record.owned.Keys, record.owned - r.value)
      ensures r.Done? && !shared ==> Matches(disk, record.owned.Keys, record.owned - r.value)
      ensures !shared && !Repairable(old(disk), record.owned) ==> !r.Done?
      ensures calm && !shared && Repairable(old(disk), record.owned) ==> r.Done?
    {
      var todo, missing := record.owned.Keys, {};
      ghost var n, done: set<Path> := |history| - 1, {};
      while todo != {}
        invariant Valid() && old(history) <= history && Partition(record.owned.Keys, done, todo)
        invariant !shared ==> disk == old(disk)
        invariant Sifted(!shared, disk, history, n, done, record.owned, missing)
        decreases todo
      {
        var path :| path in todo;
        var gone := Sift(path, missing, n, done);
        if !gone.Done? {
          return if gone.Crashed? then Crashed else Failed;
        }
        if gone.value {
          missing := missing + {path};
        }
        todo, done := todo - {path}, done + {path};
      }
      assert done == record.owned.Keys;
      return Done(missing);
    }

    // Whether an owned file is gone; a changed one is an error.
    method Sift(path: Path, ghost missing: set<Path>, ghost n: nat, ghost done: set<Path>) returns (r: Outcome<bool>)
      requires Valid() && path in record.owned && path !in done && n < |history|
      requires Sifted(!shared, disk, history, n, done, record.owned, missing)
      modifies this`disk, this`turns, this`history
      ensures Valid() && old(history) <= history
      ensures !shared ==> disk == old(disk)
      ensures r.Done? ==>
        Sifted(!shared, disk, history, n, done + {path}, record.owned, if r.value then missing + {path} else missing)
      ensures !shared && path in old(disk) && At(old(disk), path) != Some(record.owned[path]) ==> !r.Done?
      ensures calm && !shared && (path in old(disk) ==> At(old(disk), path) == Some(record.owned[path])) ==> r.Done?
    {
      var current := Probe(path);
      if !current.Done? {
        return if current.Crashed? then Crashed else Failed;
      }
      if current.value.Some? && current.value != Some(record.owned[path]) {
        return Failed;
      }
      SiftMore(!shared, disk, old(history), history, n, done, path, record.owned, missing);
      return Done(current.value == None);
    }
  }

  // Every listed file has the content it is listed with.
  ghost predicate InPlace(disk: Disk, files: Files) {
    forall p | p in files :: At(disk, p) == Some(files[p])
  }

  ghost predicate OnlyMissingLeave(disk: Disk, before: Files, after: Files) {
    forall p | p in before && p !in after :: At(disk, p) == None
  }

  // After a recovery nothing is missing; without one the directory is as it was.
  lemma RepairIsExact(before: Disk, after: Disk, record: Record, left: Files)
    requires if record.pending.Some? then Settles(after, record, record.owned) else after == before
    ensures record.pending.Some? ==> Repairable(after, record.owned)
    ensures Matches(after, record.owned.Keys, left) ==> OnlyMissingLeave(before, record.owned, left)
    ensures Matches(after, record.owned.Keys, left) && left.Keys <= record.owned.Keys ==> InPlace(after, left)
    ensures left == record.owned ==> OnlyMissingLeave(before, record.owned, left)
  {
    forall p | record.pending.Some? && p in record.owned ensures At(after, p) == Some(record.owned[p]) {
      assert Tracked(record, p);
    }
  }

  // Once the touched files are back, everything is if the other owned files are in place.
  lemma RestoredSettles(before: Disk, after: Disk, record: Record, quiet: bool)
    requires quiet ==> Untouched(before, after, Changed(record.owned, After(record)))
    requires quiet ==> Matches(after, Changed(record.owned, After(record)), record.owned)
    ensures quiet && InPlace(after, record.owned) ==> Settles(after, record, record.owned)
    ensures quiet ==> (RestInPlace(before, record) <==> InPlace(after, record.owned))
  {
    if quiet && RestInPlace(before, record) {
      forall p | p in record.owned ensures At(after, p) == Some(record.owned[p]) {
      }
    }
    if quiet && InPlace(after, record.owned) {
      forall p | p in record.owned && p !in Changed(record.owned, After(record)) ensures At(before, p) == Some(record.owned[p]) {
        assert At(after, p) == At(before, p);
      }
    }
  }

  // Every owned file is as recorded or gone.
  ghost predicate Repairable(disk: Disk, owned: Files) {
    forall p | p in owned :: At(disk, p) == None || At(disk, p) == Some(owned[p])
  }

  lemma ProvidesStill(s0: Store, s1: Store, b0: seq<(Digest, Content)>, b1: seq<(Digest, Content)>, d: Digest)
    requires ValidStore(s0) && ValidStore(s1) && Grows(s0, s1) && Provides(s0, b0, d)
    requires forall b | b in b0 :: b in b1
    ensures Provides(s1, b1, d)
  {
    if Stored(s0, d) {
      StoreOnlyGrows(s0, s1, d);
    } else {
      var b :| b in b0 && b.0 == d;
      assert b in b1;
    }
  }

  // Every owned file is in place and small enough to be kept.
  ghost predicate HeldWithin(disk: Disk, owned: Files) {
    forall p | p in owned :: At(disk, p) == Some(owned[p]) && |owned[p].content| <= FILE_LIMIT
  }

  predicate FreeOrSame(disk: Disk, path: Path, wanted: Digest) {
    At(disk, path) == None || At(disk, path) == Some(wanted)
  }

  // No file that is not owned stands where different content is wanted.
  ghost predicate NoConflict(disk: Disk, desired: Files, owned: Files) {
    forall p | p in desired && p !in owned :: FreeOrSame(disk, p, desired[p])
  }

  // The plan splits what is wanted into what will be owned and what is borrowed.
  ghost predicate ClassifiedSoFar(desired: Files, owned: Files, journal: Journal, paths: set<Path>) {
    && (forall p :: p in paths <==> p in journal.next || p in journal.borrowed)
    && (forall p | p in journal.borrowed :: p !in journal.next)
    && (forall p | p in journal.next :: p in desired && journal.next[p] == desired[p])
    && (forall p | p in journal.borrowed :: p in desired && journal.borrowed[p] == desired[p] && p !in owned)
  }

  // New files go where nothing is; borrowed ones are there already.
  ghost predicate FitsAll(disk: Disk, desired: Files, owned: Files, journal: Journal, paths: set<Path>) {
    forall p | p in paths && p in desired && p !in owned :: FitsAt(disk, desired[p], journal, p)
  }

  predicate FitsAt(disk: Disk, wanted: Digest, journal: Journal, p: Path) {
    At(disk, p) == PlannedAt(wanted, journal, p)
  }

  function PlannedAt(wanted: Digest, journal: Journal, p: Path): Option<Digest> {
    if p in journal.borrowed then Some(wanted) else None
  }

  // Each new file of the plan was found free, and each borrowed one in place.
  ghost predicate PlannedSeen(run: seq<Moment>, n: nat, desired: Files, owned: Files, journal: Journal, paths: set<Path>) {
    forall p | p in paths && p in desired && p !in owned :: Seen(run, n, p, PlannedAt(desired[p], journal, p))
  }

  lemma PlaceSeen(run0: seq<Moment>, run1: seq<Moment>, n: nat, desired: Files, owned: Files, journal: Journal,
                  paths: set<Path>, path: Path, ours: bool)
    requires n < |run0| && run0 <= run1 && PlannedSeen(run0, n, desired, owned, journal, paths)
    requires path in desired && path !in paths && path !in journal.borrowed
    requires path !in owned ==> Seen(run1, |run0| - 1, path, if ours then None else Some(desired[path]))
    ensures PlannedSeen(run1, n, desired, owned, Placed(journal, path, desired[path], ours), paths + {path})
  {
    SeenOn(run0, n, run1, n);
    SeenOn(run1, |run0| - 1, run1, n);
    var placed := Placed(journal, path, desired[path], ours);
    forall p | p in paths && p in desired && p !in owned ensures Seen(run1, n, p, PlannedAt(desired[p], placed, p)) {
      assert PlannedAt(desired[p], placed, p) == PlannedAt(desired[p], journal, p);
    }
  }

  // What the plan says of owned, new and borrowed files was found in the directory.
  ghost predicate Surveyed(run: seq<Moment>, n: nat, desired: Files, owned: Files, journal: Journal) {
    FoundIn(run, n, owned.Keys, owned) && PlannedSeen(run, n, desired, owned, journal, desired.Keys)
  }

  ghost predicate SurveyFits(run: seq<Moment>, n: nat, desired: Files, owned: Files, journal: Journal) {
    ClassifiedSoFar(desired, owned, journal, desired.Keys) && Surveyed(run, n, desired, owned, journal)
  }

  lemma SurveyedBoth(run0: seq<Moment>, m: nat, run1: seq<Moment>, n: nat, desired: Files, owned: Files, journal: Journal)
    requires n <= m < |run0| && run0 <= run1
    requires FoundIn(run0, m, owned.Keys, owned) && PlannedSeen(run1, |run0| - 1, desired, owned, journal, desired.Keys)
    ensures Surveyed(run1, n, desired, owned, journal)
  {
    FoundEarlier(run0, m, run1, n, owned.Keys, owned);
    SeenOn(run1, |run0| - 1, run1, n);
  }

  lemma SurveyedEarlier(run0: seq<Moment>, run1: seq<Moment>, n: nat, desired: Files, owned: Files, journal: Journal)
    requires n < |run0| && run0 <= run1 && Surveyed(run1, |run0| - 1, desired, owned, journal)
    ensures Surveyed(run1, n, desired, owned, journal)
  {
    SeenOn(run1, |run0| - 1, run1, n);
  }

  lemma SurveyedStill(run0: seq<Moment>, run1: seq<Moment>, n: nat, desired: Files, owned: Files, journal: Journal)
    requires run0 <= run1 && Surveyed(run0, n, desired, owned, journal)
    ensures Surveyed(run1, n, desired, owned, journal)
  {
    FoundEarlier(run0, n, run1, n, owned.Keys, owned);
    SeenOn(run0, n, run1, n);
  }

  // The owned files looked at so far were found in place and are secured.
  ghost predicate BackedUp(store0: Store, store: Store, blobs0: seq<(Digest, Content)>, blobs: seq<(Digest, Content)>,
                           run: seq<Moment>, n: nat, done: set<Path>, owned: Files)
    requires done <= owned.Keys
  {
    && Grows(store0, store) && blobs0 <= blobs && FoundIn(run, n, done, owned)
    && forall p | p in done :: Provides(store, blobs, owned[p])
  }

  lemma BackUpMore(store0: Store, store1: Store, store2: Store, blobs0: seq<(Digest, Content)>,
                   blobs1: seq<(Digest, Content)>, more: seq<(Digest, Content)>, run1: seq<Moment>, run2: seq<Moment>,
                   n: nat, done: set<Path>, owned: Files, path: Path)
    requires ValidStore(store1) && ValidStore(store2) && Grows(store1, store2) && n < |run1| && run1 <= run2
    requires done <= owned.Keys && path in owned && BackedUp(store0, store1, blobs0, blobs1, run1, n, done, owned)
    requires Provides(store2, more, owned[path]) && Seen(run2, |run1| - 1, path, Some(owned[path]))
    ensures BackedUp(store0, store2, blobs0, blobs1 + more, run2, n, done + {path}, owned)
  {
    FoundMore(run1, run2, n, done, path, owned);
    forall p | p in done + {path} ensures Provides(store2, blobs1 + more, owned[p]) {
      if p == path {
        ProvidesStill(store2, store2, more, blobs1 + more, owned[p]);
      } else {
        ProvidesStill(store1, store2, blobs1, blobs1 + more, owned[p]);
      }
    }
  }

  function Placed(journal: Journal, path: Path, wanted: Digest, ours: bool): Journal {
    if ours then journal.(next := journal.next[path := wanted])
    else journal.(borrowed := journal.borrowed[path := wanted])
  }

  ghost predicate Planned(disk: Disk, desired: Files, owned: Files, journal: Journal, paths: set<Path>, quiet: bool) {
    ClassifiedSoFar(desired, owned, journal, paths) && (quiet ==> FitsAll(disk, desired, owned, journal, paths))
  }

  lemma PlanNothing(disk: Disk, desired: Files, owned: Files, quiet: bool)
    ensures Planned(disk, desired, owned, Journal(map[], map[]), {}, quiet)
  {
  }

  lemma PlaceOne(disk: Disk, desired: Files, owned: Files, journal: Journal, paths: set<Path>, path: Path, ours: bool, quiet: bool)
    requires Planned(disk, desired, owned, journal, paths, quiet) && path in desired && path !in paths
    requires path in owned ==> ours
    requires quiet && path !in owned ==> At(disk, path) == (if ours then None else Some(desired[path]))
    ensures Planned(disk, desired, owned, Placed(journal, path, desired[path], ours), paths + {path}, quiet)
  {
    var placed := Placed(journal, path, desired[path], ours);
    forall p | p in paths ensures p in placed.borrowed <==> p in journal.borrowed {
    }
  }

  function BlobMap(blobs: seq<(Digest, Content)>): (r: map<Digest, Content>)
    ensures forall d :: d in r <==> SetAside(blobs, d)
    ensures SavableAll(blobs) ==> forall d | d in r :: r[d] == d.content
  {
    if blobs == [] then map[]
    else
      var (d, content) := blobs[0];
      assert blobs == [blobs[0]] + blobs[1..];
      assert Savable(blobs[0]) ==> content == d.content;
      BlobMap(blobs[1..])[d := content]
  }

  lemma BeginIsStep(tame: bool, s: State, journal: Journal, blobs: seq<(Digest, Content)>)
    requires Safe(s) && s.record.pending.None? && SavableAll(blobs)
    requires ValidRecord(Record(s.record.owned, Some(journal)))
    requires ProvidesAll(s.store, blobs, s.record.owned) && ProvidesAll(s.store, blobs, journal.next)
    requires tame ==> Clear(s.disk, s.record.owned, journal)
    ensures Enabled(tame, s, Begin(journal, BlobMap(blobs)))
  {
    var after := AddBlobs(s.store, BlobMap(blobs));
    forall p | p in s.record.owned ensures Stored(after, s.record.owned[p]) {
      assert Provides(s.store, blobs, s.record.owned[p]);
      BlobIsStored(s.store, blobs, s.record.owned[p]);
    }
    forall p | p in journal.next ensures Stored(after, journal.next[p]) {
      assert Provides(s.store, blobs, journal.next[p]);
      BlobIsStored(s.store, blobs, journal.next[p]);
    }
    assert Recoverable(Record(s.record.owned, Some(journal)), after);
  }

  function Begun(s: State, journal: Journal, blobs: seq<(Digest, Content)>): State {
    State(s.disk, Record(s.record.owned, Some(journal)), AddBlobs(s.store, BlobMap(blobs)))
  }

  // Backups say nothing about the directory.
  lemma StillTrueWith(run: seq<Moment>, s: State, journal: Journal, blobs: map<Digest, Content>)
    requires AllStillTrue(run, s, Begin(journal, map[]))
    ensures AllStillTrue(run, s, Begin(journal, blobs))
  {
    forall p | Unedited(run, p) ensures StillTrue(s, Begin(journal, blobs), p) {
      assert StillTrue(s, Begin(journal, map[]), p);
    }
  }

  lemma BeginIsGood(tame: bool, base: Disk, others: nat -> Option<Disk>, turns: nat, run: seq<Moment>,
                    deeds: seq<Step>, s: State, journal: Journal, blobs: seq<(Digest, Content)>)
    requires Good(tame, base, others, turns, run, deeds) && s == run[|run| - 1].state
    requires s.record.pending.None? && SavableAll(blobs)
    requires ValidRecord(Record(s.record.owned, Some(journal)))
    requires ProvidesAll(s.store, blobs, s.record.owned) && ProvidesAll(s.store, blobs, journal.next)
    requires (tame ==> Clear(s.disk, s.record.owned, journal)) && AllStillTrue(run, s, Begin(journal, map[]))
    ensures var step := Begin(journal, BlobMap(blobs));
            Good(tame, base, others, turns, run + [Moment(Begun(s, journal, blobs), step)], deeds + [step])
  {
    BeginIsStep(tame, s, journal, blobs);
    StillTrueWith(run, s, journal, BlobMap(blobs));
    GoodStep(tame, base, others, turns, run, deeds, s, Begin(journal, BlobMap(blobs)));
  }

  lemma BlobIsStored(store: Store, blobs: seq<(Digest, Content)>, d: Digest)
    requires ValidStore(store) && SavableAll(blobs) && Provides(store, blobs, d)
    ensures Stored(AddBlobs(store, BlobMap(blobs)), d)
  {
    var after := AddBlobs(store, BlobMap(blobs));
    assert d in after.blobs || d in after.retained;
  }

  // ---- What an operation leaves behind ----

  predicate OwnsWanted(owned: Files, wanted: Files) {
    forall p | p in owned :: p in wanted && owned[p] == wanted[p]
  }

  ghost predicate Delivered(disk: Disk, wanted: Files) {
    forall p | p in wanted :: At(disk, p) == Some(wanted[p])
  }

  // The whole of what is wanted is deployed: owned where the base does not hold it.
  ghost predicate Deployed(base: Disk, s: State, wanted: Files) {
    s.record == Record(wanted - base.Keys, None) && Delivered(s.disk, wanted)
  }

  lemma NothingWanted()
    ensures Wanted([]) == map[]
    ensures forall owned: Files | OwnsWanted(owned, map[]) :: owned == map[]
    ensures TotalSize([]) == 0 && ValidPaths(Wanted([]).Keys)
  {
    forall owned: Files | OwnsWanted(owned, map[]) ensures owned == map[] {
      assert owned.Keys == {};
    }
  }

  lemma NothingOwned(base: Disk, s: State)
    requires Intact(base, s) && s.record == Record(map[], None)
    ensures s.disk == base
  {
    QuiescentDisk(base, s);
    assert ContentsOf(map[]) == map[];
  }

  // What stands where something is wanted is what is wanted.
  ghost predicate Agrees(base: Disk, wanted: Files) {
    forall p | p in wanted && p in base :: At(base, p) == Some(wanted[p])
  }

  lemma DeployedAgrees(base: Disk, s: State, wanted: Files)
    requires Intact(base, s) && Deployed(base, s, wanted)
    ensures Agrees(base, wanted)
  {
    forall p | p in wanted && p in base ensures At(base, p) == Some(wanted[p]) {
      assert IntactAt(base, s, p);
    }
  }

  lemma OwnedIsDeployed(base: Disk, s: State, wanted: Files)
    requires Intact(base, s) && s.record == Record(wanted - base.Keys, None) && Agrees(base, wanted)
    ensures Deployed(base, s, wanted) && s.disk == base + ContentsOf(wanted - base.Keys)
  {
    QuiescentDisk(base, s);
    forall p | p in wanted ensures At(s.disk, p) == Some(wanted[p]) {
      assert IntactAt(base, s, p);
    }
  }

  // Every file can be read back when its content is secured.
  ghost predicate WithinLimit(files: Files) {
    forall p | p in files :: |files[p].content| <= FILE_LIMIT
  }

  // A request that nothing in the directory or in the offer stands against.
  ghost predicate Deployable(base: Disk, owned: Files, files: seq<(Path, Source)>) {
    && Offered(files)
    && ValidPaths(Wanted(files).Keys)
    && WithinLimit(owned)
    && Agrees(base, Wanted(files))
  }

  ghost predicate Plannable(disk: Disk, owned: Files, files: seq<(Path, Source)>) {
    && Offered(files)
    && ValidPaths(Wanted(files).Keys)
    && HeldWithin(disk, owned)
    && NoConflict(disk, Wanted(files), owned)
  }

  lemma PlanIsSound(desired: Files, owned: Files, journal: Journal, s0: Store, s1: Store,
                    b0: seq<(Digest, Content)>, b1: seq<(Digest, Content)>)
    requires ValidPaths(desired.Keys) && ValidPaths(owned.Keys) && ClassifiedSoFar(desired, owned, journal, desired.Keys)
    requires ValidStore(s0) && ValidStore(s1) && Grows(s0, s1) && b0 <= b1 && ProvidesAll(s0, b0, desired)
    ensures ValidRecord(Record(owned, Some(journal))) && ProvidesAll(s1, b1, journal.next)
  {
    ValidPathsOfSubset(desired.Keys, journal.next.Keys);
    ValidPathsOfSubset(desired.Keys, journal.borrowed.Keys);
    forall p | p in journal.next ensures Provides(s1, b1, journal.next[p]) {
      assert Provides(s0, b0, desired[p]);
      ProvidesStill(s0, s1, b0, b1, desired[p]);
    }
  }

  lemma PlanIsClear(base: Disk, s: State, journal: Journal, desired: Files)
    requires Intact(base, s) && s.record.pending.None?
    requires Planned(s.disk, desired, s.record.owned, journal, desired.Keys, true)
    ensures Clear(s.disk, s.record.owned, journal)
  {
    IntactOwned(base, s);
    forall p | p in journal.next && p !in s.record.owned ensures At(s.disk, p) == None {
      assert FitsAt(s.disk, desired[p], journal, p);
    }
    forall p | p in journal.borrowed ensures p !in s.record.owned && At(s.disk, p) == Some(journal.borrowed[p]) {
      assert FitsAt(s.disk, desired[p], journal, p);
    }
  }

  lemma ClearSettles(disk: Disk, owned: Files, journal: Journal)
    requires Clear(disk, owned, journal)
    ensures Settles(disk, Record(owned, Some(journal)), owned)
  {
  }

  // Where nobody edits the directory, recovery can always be completed.
  lemma IntactRestorable(base: Disk, s: State)
    requires Intact(base, s)
    ensures Restorable(s.disk, s.record)
  {
    forall p: Path ensures Tracked(s.record, p) ==> OneOfTwo(s.disk, s.record, p) {
      assert IntactAt(base, s, p);
    }
    forall p | p in s.record.owned && p !in Changed(s.record.owned, After(s.record))
      ensures At(s.disk, p) == Some(s.record.owned[p])
    {
      assert Tracked(s.record, p);
    }
  }

  lemma IntactOwned(base: Disk, s: State)
    requires Intact(base, s) && s.record.pending.None?
    ensures forall p | p in s.record.owned :: At(s.disk, p) == Some(s.record.owned[p])
    ensures forall p | p !in s.record.owned :: At(s.disk, p) == At(base, p)
  {
    forall p: Path ensures At(s.disk, p) == if p in s.record.owned then Some(s.record.owned[p]) else At(base, p) {
      assert IntactAt(base, s, p);
    }
  }

  lemma IntactBorrowed(base: Disk, s: State)
    requires Intact(base, s) && Safe(s)
    ensures forall p | p in Borrowed(s.record) && p !in s.record.owned :: At(s.disk, p) == Some(Borrowed(s.record)[p])
  {
    forall p | p in Borrowed(s.record) && p !in s.record.owned ensures At(s.disk, p) == Some(Borrowed(s.record)[p]) {
      assert IntactAt(base, s, p);
    }
  }

  lemma IntactSettles(base: Disk, s: State)
    requires Intact(base, s) && Matches(s.disk, Changed(s.record.owned, After(s.record)), After(s.record))
    ensures Settles(s.disk, s.record, After(s.record))
  {
    forall p | Tracked(s.record, p) ensures At(s.disk, p) == Get(After(s.record), p) {
      assert IntactAt(base, s, p);
    }
  }

  lemma DeliversWanted(base: Disk, s: State, wanted: Files)
    requires Intact(base, s) && s.record.pending.Some? && Settles(s.disk, s.record, After(s.record))
    requires ClassifiedSoFar(wanted, s.record.owned, s.record.pending.value, wanted.Keys)
    ensures After(s.record) == wanted - base.Keys && Delivered(s.disk, wanted)
  {
    forall p | p in wanted ensures At(s.disk, p) == Some(wanted[p]) && (p in After(s.record) <==> p !in base) {
      assert IntactAt(base, s, p);
    }
  }

  lemma DeployableHere(base: Disk, s: State, files: seq<(Path, Source)>)
    requires Intact(base, s) && s.record.pending.None?
    ensures Deployable(base, s.record.owned, files) ==> Plannable(s.disk, s.record.owned, files)
  {
    IntactOwned(base, s);
    if Deployable(base, s.record.owned, files) {
      forall p | p in Wanted(files) && p !in s.record.owned ensures FreeOrSame(s.disk, p, Wanted(files)[p]) {
        assert At(s.disk, p) == At(base, p);
      }
    }
  }

  // ---- What was offered, in the directory ----

  // The very bytes, or content of the declared digest: the file's own if that is honest.
  ghost predicate Holds(disk: Disk, path: Path, source: Source) {
    path in disk &&
    match source
    case Bytes(content) => disk[path] == content
    case File(actual, hash, _) => Digest(disk[path]) == hash && (Digest(actual) == hash ==> disk[path] == actual)
  }

  ghost predicate Offers(files: seq<(Path, Source)>, path: Path) {
    exists k :: 0 <= k < |files| && files[k].0 == path
  }

  // All that was offered is there and all of the base, nothing else, and what the base
  // does not hold is owned.
  ghost predicate Serves(base: Disk, s: State, files: seq<(Path, Source)>) {
    && s.record.pending.None?
    && (forall k | 0 <= k < |files| :: Holds(s.disk, files[k].0, files[k].1))
    && (forall p | p in base :: p in s.disk && s.disk[p] == base[p])
    && (forall p | p in s.disk && p !in base :: Offers(files, p))
    && (forall p :: p in s.record.owned <==> p !in base && Offers(files, p))
  }

  ghost predicate HeldOnce(run: seq<Moment>, n: nat, path: Path, source: Source) {
    exists m {:trigger run[m]} :: n <= m < |run| && Holds(run[m].state.disk, path, source)
  }

  ghost predicate GoneOnce(run: seq<Moment>, n: nat, path: Path) {
    exists m {:trigger run[m]} :: n <= m < |run| && path !in run[m].state.disk
  }

  // Each offered file stood in its place at some moment, and each file given up was gone at some.
  ghost predicate OfferFound(run: seq<Moment>, n: nat, files: seq<(Path, Source)>, owned: Files) {
    && (forall k | 0 <= k < |files| :: HeldOnce(run, n, files[k].0, files[k].1))
    && (forall p | p in owned && !Offers(files, p) :: GoneOnce(run, n, p))
  }

  ghost predicate AllGoneOnce(run: seq<Moment>, n: nat, owned: Files) {
    forall p | p in owned :: GoneOnce(run, n, p)
  }

  lemma GoneEarlier(run: seq<Moment>, n0: nat, n1: nat, owned: Files)
    requires n1 <= n0
    ensures AllGoneOnce(run, n0, owned) ==> AllGoneOnce(run, n1, owned)
  {
    forall p | p in owned && GoneOnce(run, n0, p) ensures GoneOnce(run, n1, p) {
      var m :| n0 <= m < |run| && p !in run[m].state.disk;
    }
  }

  // What is wanted of a place is what is offered for it.
  lemma {:induction false} WantedAsOffered(files: seq<(Path, Source)>, k: nat)
    requires DistinctPaths(files) && k < |files|
    ensures files[k].0 in Wanted(files)
    ensures files[k].1.Bytes? ==> Wanted(files)[files[k].0] == Digest(files[k].1.content)
    ensures files[k].1.File? ==> Wanted(files)[files[k].0] == files[k].1.hash
    decreases |files|
  {
    var n := |files| - 1;
    if k < n {
      WantedAsOffered(files[..n], k);
      assert files[k].0 != files[n].0;
    }
  }

  lemma HeldAsOffered(disk: Disk, files: seq<(Path, Source)>, k: nat)
    requires DistinctPaths(files) && k < |files| && At(disk, files[k].0) == Get(Wanted(files), files[k].0)
    ensures Holds(disk, files[k].0, files[k].1)
  {
    WantedAsOffered(files, k);
  }

  lemma FoundAsOffered(run: seq<Moment>, n: nat, files: seq<(Path, Source)>, owned: Files)
    requires DistinctPaths(files) && FoundIn(run, n, Wanted(files).Keys + owned.Keys, Wanted(files))
    ensures OfferFound(run, n, files, owned)
  {
    forall k | 0 <= k < |files| ensures HeldOnce(run, n, files[k].0, files[k].1) {
      WantedAsOffered(files, k);
      assert Seen(run, n, files[k].0, Get(Wanted(files), files[k].0));
      var m :| n <= m < |run| && At(run[m].state.disk, files[k].0) == Get(Wanted(files), files[k].0);
      HeldAsOffered(run[m].state.disk, files, k);
    }
    forall p | p in owned && !Offers(files, p) ensures GoneOnce(run, n, p) {
      WantedPaths(files, p);
      assert Seen(run, n, p, Get(Wanted(files), p));
      var m :| n <= m < |run| && At(run[m].state.disk, p) == None;
    }
  }

  lemma ServedAsOffered(base: Disk, s: State, files: seq<(Path, Source)>)
    requires Intact(base, s) && DistinctPaths(files) && Deployed(base, s, Wanted(files))
    ensures Serves(base, s, files)
  {
    forall k | 0 <= k < |files| ensures Holds(s.disk, files[k].0, files[k].1) {
      WantedAsOffered(files, k);
      HeldAsOffered(s.disk, files, k);
    }
    forall p: Path
      ensures p in base ==> p in s.disk && s.disk[p] == base[p]
      ensures p in s.disk && p !in base ==> Offers(files, p)
      ensures p in s.record.owned <==> p !in base && Offers(files, p)
    {
      WantedPaths(files, p);
      assert IntactAt(base, s, p);
    }
  }

  // ---- Offers ----

  ghost predicate Grows(before: Store, after: Store) {
    before.retained.Keys <= after.retained.Keys && before.blobs == after.blobs
  }

  ghost predicate DistinctPaths(files: seq<(Path, Source)>) {
    forall i, j | 0 <= i < j < |files| :: files[i].0 != files[j].0
  }

  function Wanted(files: seq<(Path, Source)>): Files {
    if files == [] then map[]
    else Wanted(files[..|files| - 1])[files[|files| - 1].0 := DigestOf(files[|files| - 1].1)]
  }

  function TotalSize(files: seq<(Path, Source)>): nat {
    if files == [] then 0 else TotalSize(files[..|files| - 1]) + SizeOf(files[|files| - 1].1)
  }

  // The content is what it is declared to be, and within its limit.
  predicate Honest(source: Source) {
    match source
    case Bytes(content) => |content| <= MAX_FILE
    case File(actual, hash, size) => size <= FILE_LIMIT && |actual| == size && Digest(actual) == hash
  }

  // At most 8 MiB in memory, 512 MiB in a file and 2 GiB in all.
  predicate WithinBounds(source: Source) {
    match source
    case Bytes(content) => |content| <= 8 * 1024 * 1024
    case File(_, _, size) => size <= 512 * 1024 * 1024
  }

  ghost predicate Acceptable(files: seq<(Path, Source)>) {
    && DistinctPaths(files)
    && TotalSize(files) <= 2 * 1024 * 1024 * 1024
    && forall k | 0 <= k < |files| :: WithinBounds(files[k].1)
  }

  ghost predicate Offered(files: seq<(Path, Source)>) {
    && DistinctPaths(files)
    && TotalSize(files) <= TOTAL_LIMIT
    && forall k | 0 <= k < |files| :: Honest(files[k].1)
  }

  lemma WantedMore(files: seq<(Path, Source)>, path: Path, source: Source)
    ensures Wanted(files + [(path, source)]) == Wanted(files)[path := DigestOf(source)]
    ensures TotalSize(files + [(path, source)]) == TotalSize(files) + SizeOf(source)
    ensures DistinctPaths(files + [(path, source)]) <==> DistinctPaths(files) && path !in Wanted(files)
  {
    var more := files + [(path, source)];
    assert more[..|files|] == files;
    WantedPaths(files, path);
    if DistinctPaths(more) {
      forall i | 0 <= i < |files| ensures files[i].0 != path {
        assert more[i].0 != more[|files|].0;
      }
      forall i, j | 0 <= i < j < |files| ensures files[i].0 != files[j].0 {
        assert more[i].0 != more[j].0;
      }
    }
  }

  // Sizes are those of the bytes, and those declared of files.
  lemma TotalOfOffer(files: seq<(Path, Source)>, path: Path, content: Content, hash: Digest, size: nat)
    ensures TotalSize([]) == 0
    ensures TotalSize(files + [(path, Bytes(content))]) == TotalSize(files) + |content|
    ensures TotalSize(files + [(path, File(content, hash, size))]) == TotalSize(files) + size
  {
    WantedMore(files, path, Bytes(content));
    WantedMore(files, path, File(content, hash, size));
  }

  // A request is met when each path is given once, every content is what it is declared
  // to be, nothing is too large and the base holds nothing else in these places.
  lemma DeployableMeans(base: Disk, owned: Files, files: seq<(Path, Source)>)
    requires ValidPaths(set k | 0 <= k < |files| :: files[k].0)
    requires forall i, j | 0 <= i < j < |files| :: files[i].0 != files[j].0
    requires forall k | 0 <= k < |files| ::
      && (files[k].1.Bytes? ==> |files[k].1.content| <= 8 * 1024 * 1024)
      && (files[k].1.File? ==> |files[k].1.actual| == files[k].1.size <= 512 * 1024 * 1024 && Digest(files[k].1.actual) == files[k].1.hash)
    requires TotalSize(files) <= 2 * 1024 * 1024 * 1024 && forall p | p in owned :: |owned[p].content| <= 512 * 1024 * 1024
    requires forall k | 0 <= k < |files| && files[k].0 in base ::
      base[files[k].0] == if files[k].1.Bytes? then files[k].1.content else files[k].1.actual
    ensures Deployable(base, owned, files)
  {
    forall p: Path ensures p in Wanted(files) <==> p in set k | 0 <= k < |files| :: files[k].0 {
      WantedPaths(files, p);
    }
    assert Wanted(files).Keys == set k | 0 <= k < |files| :: files[k].0;
    forall p | p in Wanted(files) && p in base ensures At(base, p) == Some(Wanted(files)[p]) {
      WantedPaths(files, p);
      var k :| 0 <= k < |files| && files[k].0 == p;
      WantedAsOffered(files, k);
    }
  }

  // The offers up to k, taken in.
  ghost predicate Prepared(store: Store, files: seq<(Path, Source)>, k: nat, total: nat, desired: Files, blobs: seq<(Digest, Content)>)
    requires k <= |files|
  {
    && Acceptable(files[..k]) && desired == Wanted(files[..k]) && total == TotalSize(files[..k])
    && ProvidesAll(store, blobs, desired) && SavableAll(blobs)
  }

  // One more is taken in when its path is new and its size still fits, as it does in an honest offer.
  lemma PreparedMore(store: Store, files: seq<(Path, Source)>, k: nat, total: nat, desired: Files, blobs: seq<(Digest, Content)>)
    requires k < |files| && Prepared(store, files, k, total, desired, blobs)
    ensures desired[files[k].0 := DigestOf(files[k].1)] == Wanted(files[..k + 1])
    ensures total + SizeOf(files[k].1) == TotalSize(files[..k + 1])
    ensures files[k].0 !in desired && total + SizeOf(files[k].1) <= TOTAL_LIMIT && WithinBounds(files[k].1) ==> Acceptable(files[..k + 1])
    ensures Offered(files) ==> total + SizeOf(files[k].1) <= TOTAL_LIMIT && files[k].0 !in desired && Honest(files[k].1)
  {
    assert files[..k + 1] == files[..k] + [(files[k].0, files[k].1)];
    WantedMore(files[..k], files[k].0, files[k].1);
    TotalOfPrefix(files, k + 1);
  }

  lemma {:induction false} WantedPaths(files: seq<(Path, Source)>, path: Path)
    ensures path in Wanted(files) <==> exists i :: 0 <= i < |files| && files[i].0 == path
  {
    if files != [] {
      var n := |files| - 1;
      WantedPaths(files[..n], path);
      if path in Wanted(files[..n]) {
        var i :| 0 <= i < n && files[..n][i].0 == path;
        assert files[i].0 == path;
      }
      if i :| 0 <= i < |files| && files[i].0 == path {
        if i < n { assert files[..n][i].0 == path; }
      }
    }
  }

  lemma {:induction false} TotalOfPrefix(files: seq<(Path, Source)>, k: nat)
    requires k <= |files|
    ensures TotalSize(files[..k]) <= TotalSize(files)
    decreases |files| - k
  {
    if k < |files| {
      TotalOfPrefix(files, k + 1);
      assert files[..k + 1][..k] == files[..k];
    } else {
      assert files[..k] == files;
    }
  }

  // What the database accepts as a backup.
  predicate Savable(blob: (Digest, Content)) {
    |blob.1| <= MAX_FILE && Digest(blob.1) == blob.0
  }

  ghost predicate SavableAll(blobs: seq<(Digest, Content)>) {
    forall b {:trigger Savable(b)} | b in blobs :: Savable(b)
  }

  predicate SetAside(blobs: seq<(Digest, Content)>, digest: Digest) {
    exists b | b in blobs :: b.0 == digest
  }

  predicate Provides(store: Store, blobs: seq<(Digest, Content)>, digest: Digest) {
    Stored(store, digest) || SetAside(blobs, digest)
  }

  lemma ProvidesMore(s0: Store, s1: Store, b0: seq<(Digest, Content)>, b1: seq<(Digest, Content)>, files: Files, path: Path, d: Digest)
    requires ValidStore(s0) && ValidStore(s1) && Grows(s0, s1) && b0 <= b1
    requires ProvidesAll(s0, b0, files) && Provides(s1, b1, d)
    ensures ProvidesAll(s1, b1, files[path := d])
  {
    forall p | p in files ensures Provides(s1, b1, files[p]) {
      assert Provides(s0, b0, files[p]);
      if Stored(s0, files[p]) {
        StoreOnlyGrows(s0, s1, files[p]);
      } else {
        var b :| b in b0 && b.0 == files[p];
        assert b in b1;
      }
    }
  }

  ghost predicate ProvidesAll(store: Store, blobs: seq<(Digest, Content)>, files: Files) {
    forall p {:trigger Provides(store, blobs, files[p])} | p in files :: Provides(store, blobs, files[p])
  }

  function Named(bytes: Option<Content>): Option<Digest> {
    if bytes.Some? then Some(Digest(bytes.value)) else None
  }

  // Replacing `expected` by `content` at a path moves it to one side of the journal.
  ghost predicate Turns(record: Record, path: Path, expected: Option<Digest>, content: Option<Digest>, step: Step) {
    || (step == Forward(path) && expected == Get(record.owned, path) && content == Get(After(record), path))
    || (step == Backward(path) && expected == Get(After(record), path) && content == Get(record.owned, path))
  }

  lemma TurnIsStep(tame: bool, s: State, path: Path, content: Option<Digest>, step: Step)
    requires Touches(s.record, path) && Turns(s.record, path, At(s.disk, path), content, step)
    ensures Enabled(tame, s, step) && Do(s, step) == s.(disk := Put(s.disk, path, content))
  {
  }

  ghost predicate Partition(whole: set<Path>, done: set<Path>, todo: set<Path>) {
    && (forall p :: p in whole <==> p in done || p in todo)
    && (forall p | p in todo :: p !in done)
  }

  // Nothing outside `paths` differs.
  ghost predicate Untouched(before: Disk, after: Disk, paths: set<Path>) {
    forall p: Path | p !in paths :: At(after, p) == At(before, p)
  }

  predicate OneOfTwo(disk: Disk, record: Record, p: Path) {
    At(disk, p) == Get(record.owned, p) || At(disk, p) == Get(After(record), p)
  }

  ghost predicate AllKnown(disk: Disk, record: Record, paths: set<Path>) {
    forall p | p in paths :: OneOfTwo(disk, record, p)
  }

  ghost predicate Restorable(disk: Disk, record: Record) {
    record.pending.Some? ==>
      AllKnown(disk, record, Changed(record.owned, After(record))) && RestInPlace(disk, record)
  }

  // The owned files a journal does not change are as recorded.
  ghost predicate RestInPlace(disk: Disk, record: Record) {
    forall p | p in record.owned && p !in Changed(record.owned, After(record)) :: At(disk, p) == Some(record.owned[p])
  }

  // ---- What was seen and done, whatever others did ----

  lemma SeenOn(run0: seq<Moment>, n0: nat, run1: seq<Moment>, n1: nat)
    requires run0 <= run1 && n1 <= n0
    ensures forall p, d | Seen(run0, n0, p, d) :: Seen(run1, n1, p, d)
    ensures forall p, d | Strayed(run0, n0, p, d) :: Strayed(run1, n1, p, d)
  {
    forall p, d | Seen(run0, n0, p, d) ensures Seen(run1, n1, p, d) {
      var k :| n0 <= k < |run0| && At(run0[k].state.disk, p) == d;
      assert run1[k] == run0[k];
    }
    forall p, d | Strayed(run0, n0, p, d) ensures Strayed(run1, n1, p, d) {
      var k :| n0 <= k < |run0| && At(run0[k].state.disk, p) != d;
      assert run1[k] == run0[k];
    }
  }

  lemma SeenNow(run: seq<Moment>, n: nat, p: Path)
    requires n < |run|
    ensures Seen(run, n, p, At(run[|run| - 1].state.disk, p))
    ensures forall d | d != At(run[|run| - 1].state.disk, p) :: Strayed(run, n, p, d)
  {
    var last := run[|run| - 1];
    forall d | d != At(last.state.disk, p) ensures Strayed(run, n, p, d) {
      assert run[|run| - 1] == last;
    }
  }

  lemma SeenBoth(before: seq<Moment>, after: seq<Moment>, p: Path)
    requires |before| > 0 && before <= after
    ensures Seen(after, |before| - 1, p, At(before[|before| - 1].state.disk, p))
    ensures Seen(after, |before| - 1, p, At(after[|after| - 1].state.disk, p))
  {
    SeenNow(before, |before| - 1, p);
    SeenOn(before, |before| - 1, after, |before| - 1);
    SeenNow(after, |before| - 1, p);
  }

  // Each of these paths was found as `files` has it.
  ghost predicate FoundIn(run: seq<Moment>, n: nat, paths: set<Path>, files: Files) {
    forall p | p in paths :: Seen(run, n, p, Get(files, p))
  }

  ghost predicate FoundAll(run: seq<Moment>, n: nat, record: Record, files: Files) {
    forall p | Tracked(record, p) :: Seen(run, n, p, Get(files, p))
  }

  lemma FoundMore(run0: seq<Moment>, run1: seq<Moment>, n: nat, paths: set<Path>, p: Path, files: Files)
    requires n < |run0| && run0 <= run1 && FoundIn(run0, n, paths, files) && Seen(run1, |run0| - 1, p, Get(files, p))
    ensures FoundIn(run1, n, paths + {p}, files)
  {
    SeenOn(run0, n, run1, n);
    SeenOn(run1, |run0| - 1, run1, n);
  }

  // Some of the files a loop moves are as `files` has them, and nothing else has changed.
  ghost predicate Progress(quiet: bool, start: Disk, disk: Disk, run: seq<Moment>, n: nat, done: set<Path>, files: Files) {
    && FoundIn(run, n, done, files) && SettledPaths(run, disk, done, files)
    && (quiet ==> Untouched(start, disk, done) && Matches(disk, done, files))
  }

  lemma ProgressMore(quiet: bool, start: Disk, disk0: Disk, disk1: Disk, run0: seq<Moment>, run1: seq<Moment>,
                     n: nat, done: set<Path>, p: Path, files: Files)
    requires n < |run0| && run0 <= run1 && Progress(quiet, start, disk0, run0, n, done, files)
    requires Seen(run1, |run0| - 1, p, Get(files, p))
    requires Kept(run1, disk0, disk1, {p}) && (Unedited(run1, p) ==> At(disk1, p) == Get(files, p))
    requires quiet ==> At(disk1, p) == Get(files, p) && forall q | q != p :: At(disk1, q) == At(disk0, q)
    ensures Progress(quiet, start, disk1, run1, n, done + {p}, files)
  {
    FoundMore(run0, run1, n, done, p, files);
    forall q | q in done && Unedited(run1, q) ensures At(disk1, q) == Get(files, q) {
      UneditedBefore(run0, run1, q);
      assert q != p ==> At(disk1, q) == At(disk0, q);
    }
  }

  // What was moved and what was verified together are all files the record speaks of.
  lemma FoundTwice(run0: seq<Moment>, run1: seq<Moment>, n: nat, record: Record, files: Files)
    requires n < |run0| && run0 <= run1 && (files == record.owned || files == After(record))
    requires FoundIn(run0, n, Changed(record.owned, After(record)), files) && FoundIn(run1, |run0| - 1, files.Keys, files)
    ensures FoundAll(run1, n, record, files)
  {
    SeenOn(run0, n, run1, n);
    SeenOn(run1, |run0| - 1, run1, n);
    forall p | Tracked(record, p) ensures Seen(run1, n, p, Get(files, p)) {
      if p in Changed(record.owned, After(record)) {
        assert Seen(run0, n, p, Get(files, p));
      } else {
        assert p in files && Seen(run1, |run0| - 1, p, Get(files, p));
      }
    }
  }

  lemma FoundStill(run0: seq<Moment>, run1: seq<Moment>, n: nat, record: Record, files: Files)
    requires run0 <= run1 && FoundAll(run0, n, record, files)
    ensures FoundAll(run1, n, record, files)
  {
    SeenOn(run0, n, run1, n);
  }

  lemma FoundEarlier(run0: seq<Moment>, n0: nat, run1: seq<Moment>, n1: nat, paths: set<Path>, files: Files)
    requires run0 <= run1 && n1 <= n0 && FoundIn(run0, n0, paths, files)
    ensures FoundIn(run1, n1, paths, files)
  {
    SeenOn(run0, n0, run1, n1);
  }

  // The files looked at so far are gone if they are missing, else as they are recorded.
  ghost predicate Sifted(quiet: bool, disk: Disk, run: seq<Moment>, n: nat, done: set<Path>, owned: Files, missing: set<Path>) {
    missing <= done && FoundIn(run, n, done, owned - missing) && (quiet ==> Matches(disk, done, owned - missing))
  }

  lemma SiftMore(quiet: bool, disk: Disk, run0: seq<Moment>, run1: seq<Moment>, n: nat, done: set<Path>,
                 p: Path, owned: Files, missing: set<Path>)
    requires n < |run0| && run0 <= run1 && p in owned && p !in done && disk == run1[|run1| - 1].state.disk
    requires Sifted(quiet, disk, run0, n, done, owned, missing)
    requires At(disk, p) == None || At(disk, p) == Some(owned[p])
    ensures Sifted(quiet, disk, run1, n, done + {p}, owned, if At(disk, p) == None then missing + {p} else missing)
  {
    var less := if At(disk, p) == None then missing + {p} else missing;
    forall q | q in done ensures Get(owned - less, q) == Get(owned - missing, q) {
    }
    SeenNow(run1, |run0| - 1, p);
    assert Get(owned - less, p) == At(disk, p);
    FoundMore(run0, run1, n, done, p, owned - less);
  }

  // What was found as the journal has it is what was asked for.
  lemma FoundWanted(run: seq<Moment>, n: nat, record: Record, wanted: Files)
    requires record.pending.Some? && ClassifiedSoFar(wanted, record.owned, record.pending.value, wanted.Keys)
    requires FoundAll(run, n, record, After(record)) && FoundIn(run, n, Borrowed(record).Keys, Borrowed(record))
    ensures FoundIn(run, n, wanted.Keys + record.owned.Keys, wanted)
  {
    forall p | p in wanted.Keys + record.owned.Keys ensures Seen(run, n, p, Get(wanted, p)) {
      if p in Borrowed(record) {
        assert Seen(run, n, p, Get(Borrowed(record), p));
      } else {
        assert Tracked(record, p);
        assert Seen(run, n, p, Get(After(record), p));
      }
    }
  }

  // Since `before`, files the journal changes were moved back, and then perhaps that was saved.
  ghost predicate Undoes(record: Record, before: seq<Step>, after: seq<Step>, saved: bool) {
    && before <= after && (saved ==> |before| < |after| && after[|after| - 1] == Abort)
    && forall k | |before| <= k < |after| - (if saved then 1 else 0) :: after[k].Backward? && Touches(record, after[k].path)
  }

  // Since `before`, files the journal changes were moved on.
  ghost predicate Advances(record: Record, before: seq<Step>, after: seq<Step>) {
    before <= after && forall k | |before| <= k < |after| :: after[k].Forward? && Touches(record, after[k].path)
  }

  lemma UntouchedMore(start: Disk, before: Disk, after: Disk, done: set<Path>, path: Path, quiet: bool)
    requires quiet ==> Untouched(start, before, done) && forall p | p != path :: At(after, p) == At(before, p)
    ensures quiet ==> Untouched(start, after, done + {path})
  {
  }

  lemma UndoesOn(record: Record, before: seq<Step>, between: seq<Step>, after: seq<Step>, p: Path)
    requires Undoes(record, before, between, false) && Touches(record, p)
    requires after == between || after == between + [Backward(p)]
    ensures Undoes(record, before, after, false)
  {
  }

  lemma AdvancesOn(record: Record, before: seq<Step>, between: seq<Step>, after: seq<Step>, p: Path)
    requires Advances(record, before, between) && Touches(record, p)
    requires after == between || after == between + [Forward(p)]
    ensures Advances(record, before, after)
  {
  }

  ghost predicate MovedAll(before: seq<Step>, after: seq<Step>, paths: set<Path>) {
    before <= after && forall p | p in paths :: Forward(p) in after[|before|..]
  }

  lemma MovedMore(before: seq<Step>, after: seq<Step>, paths: set<Path>, p: Path)
    requires MovedAll(before, after, paths)
    ensures MovedAll(before, after + [Forward(p)], paths + {p})
  {
    assert (after + [Forward(p)])[|before|..] == after[|before|..] + [Forward(p)];
  }

  // A run of the protocol whose last state keeps every invariant, all of them when
  // nobody edits the directory and else those of each path nobody else has changed. It
  // tells what the engine did, and what it tells of others is what they did.
  ghost predicate Good(tame: bool, base: Disk, others: nat -> Option<Disk>, turns: nat, run: seq<Moment>, deeds: seq<Step>) {
    && IsRun(tame, run)
    && Safe(run[|run| - 1].state)
    && (tame ==> Intact(base, run[|run| - 1].state))
    && PathsIntact(base, run)
    && Told(others, turns, run, deeds)
  }

  ghost predicate Told(others: nat -> Option<Disk>, turns: nat, run: seq<Moment>, deeds: seq<Step>) {
    Deeds(run) == deeds && Edits(run) == Answers(others, turns)
  }

  ghost predicate AllStillTrue(run: seq<Moment>, s: State, step: Step) {
    forall p | Unedited(run, p) :: StillTrue(s, step, p)
  }

  // While the engine did nothing, it tells of no deed,
  lemma GoodIsIdle(tame: bool, base: Disk, others: nat -> Option<Disk>, turns0: nat, turns1: nat, run0: seq<Moment>, run1: seq<Moment>,
                   deeds: seq<Step>)
    requires Good(tame, base, others, turns0, run0, deeds) && Good(tame, base, others, turns1, run1, deeds) && run0 <= run1
    ensures Idle(run1, |run0| - 1)
  {
    DeedsGrow(run1, |run0| - 1);
    assert run1[..|run0|] == run0;
  }

  // and nothing has changed but by others.
  lemma IdleKeeps(tame: bool, base: Disk, others: nat -> Option<Disk>, turns0: nat, turns1: nat, run0: seq<Moment>, run1: seq<Moment>,
                  deeds: seq<Step>)
    requires Good(tame, base, others, turns0, run0, deeds) && Good(tame, base, others, turns1, run1, deeds) && run0 <= run1
    ensures Kept(run1, run0[|run0| - 1].state.disk, run1[|run1| - 1].state.disk, {})
  {
    GoodIsIdle(tame, base, others, turns0, turns1, run0, run1, deeds);
    forall p | Unedited(run1, p) ensures At(run1[|run1| - 1].state.disk, p) == At(run0[|run0| - 1].state.disk, p) {
      IdleStays(tame, run1, |run0| - 1, |run1| - 1, p);
    }
  }

  lemma KeptLater(run0: seq<Moment>, run1: seq<Moment>, before: Disk, after: Disk, paths: set<Path>)
    requires run0 <= run1 && Kept(run0, before, after, paths)
    ensures Kept(run1, before, after, paths)
  {
    forall p | p !in paths && Unedited(run1, p) ensures At(after, p) == At(before, p) {
      UneditedBefore(run0, run1, p);
    }
  }

  lemma KeptBoth(run0: seq<Moment>, run1: seq<Moment>, start: Disk, middle: Disk, end: Disk, path: Path)
    requires run0 <= run1 && Kept(run0, start, middle, {}) && Kept(run1, middle, end, {path})
    ensures Kept(run1, start, end, {path})
  {
    KeptLater(run0, run1, start, middle, {});
  }

  // What still holds before a pause holds after it.
  lemma StillTrueOn(tame: bool, base: Disk, others: nat -> Option<Disk>, turns0: nat, turns1: nat, run0: seq<Moment>, run1: seq<Moment>,
                    deeds: seq<Step>, s: State, t: State, step: Step)
    requires Good(tame, base, others, turns0, run0, deeds) && Good(tame, base, others, turns1, run1, deeds) && run0 <= run1
    requires s == run0[|run0| - 1].state && t == run1[|run1| - 1].state && t.record == s.record && AllStillTrue(run0, s, step)
    ensures AllStillTrue(run1, t, step)
  {
    IdleKeeps(tame, base, others, turns0, turns1, run0, run1, deeds);
    forall p | Unedited(run1, p) ensures StillTrue(t, step, p) {
      UneditedBefore(run0, run1, p);
      assert At(t.disk, p) == At(s.disk, p);
    }
  }

  // These paths, where nobody else changed them, are as `files` has them.
  ghost predicate SettledPaths(run: seq<Moment>, disk: Disk, paths: set<Path>, files: Files) {
    forall p | p in paths && Unedited(run, p) :: At(disk, p) == Get(files, p)
  }

  // What was moved is still there, and what was verified is.
  lemma VerifiedStays(tame: bool, run0: seq<Moment>, run1: seq<Moment>, disk: Disk, t: State, files: Files, p: Path)
    requires |run0| > 0 && run0 <= run1 && IsRun(tame, run1) && Idle(run1, |run0| - 1) && t == run1[|run1| - 1].state
    requires Kept(run1, disk, t.disk, {}) && SettledPaths(run0, disk, Changed(t.record.owned, After(t.record)), files)
    requires FoundIn(run1, |run0| - 1, files.Keys, files)
    requires Unedited(run1, p) && (p in files || p in Changed(t.record.owned, After(t.record)))
    ensures At(t.disk, p) == Get(files, p)
  {
    if p in files {
      SeenIsNow(tame, run1, |run0| - 1, p, Get(files, p));
    } else {
      UneditedBefore(run0, run1, p);
    }
  }

  lemma RestoredLasts(tame: bool, base: Disk, others: nat -> Option<Disk>, turns0: nat, turns1: nat, run0: seq<Moment>, run1: seq<Moment>,
                      deeds: seq<Step>, s: State, t: State)
    requires Good(tame, base, others, turns0, run0, deeds) && Good(tame, base, others, turns1, run1, deeds) && run0 <= run1
    requires s == run0[|run0| - 1].state && t == run1[|run1| - 1].state
    requires SettledPaths(run0, s.disk, Changed(t.record.owned, After(t.record)), t.record.owned)
    requires FoundIn(run1, |run0| - 1, t.record.owned.Keys, t.record.owned)
    ensures AllStillTrue(run1, t, Abort)
  {
    IdleKeeps(tame, base, others, turns0, turns1, run0, run1, deeds);
    GoodIsIdle(tame, base, others, turns0, turns1, run0, run1, deeds);
    RestoredStays(tame, run0, run1, s.disk, t);
  }

  lemma RestoredStays(tame: bool, run0: seq<Moment>, run1: seq<Moment>, disk: Disk, t: State)
    requires |run0| > 0 && run0 <= run1 && IsRun(tame, run1) && Idle(run1, |run0| - 1) && t == run1[|run1| - 1].state
    requires Kept(run1, disk, t.disk, {}) && SettledPaths(run0, disk, Changed(t.record.owned, After(t.record)), t.record.owned)
    requires FoundIn(run1, |run0| - 1, t.record.owned.Keys, t.record.owned)
    ensures AllStillTrue(run1, t, Abort)
  {
    forall p | Unedited(run1, p) && Tracked(t.record, p) ensures At(t.disk, p) == Get(t.record.owned, p) {
      VerifiedStays(tame, run0, run1, disk, t, t.record.owned, p);
    }
  }

  lemma DeployedLasts(tame: bool, base: Disk, others: nat -> Option<Disk>, turns0: nat, turns1: nat, run0: seq<Moment>, run1: seq<Moment>,
                      deeds: seq<Step>, s: State, t: State)
    requires Good(tame, base, others, turns0, run0, deeds) && Good(tame, base, others, turns1, run1, deeds) && run0 <= run1
    requires s == run0[|run0| - 1].state && t == run1[|run1| - 1].state
    requires SettledPaths(run0, s.disk, Changed(t.record.owned, After(t.record)), After(t.record))
    requires FoundIn(run1, |run0| - 1, After(t.record).Keys, After(t.record))
    ensures AllStillTrue(run1, t, Commit)
  {
    IdleKeeps(tame, base, others, turns0, turns1, run0, run1, deeds);
    GoodIsIdle(tame, base, others, turns0, turns1, run0, run1, deeds);
    DeployedStays(tame, run0, run1, s.disk, t);
  }

  lemma DeployedStays(tame: bool, run0: seq<Moment>, run1: seq<Moment>, disk: Disk, t: State)
    requires |run0| > 0 && run0 <= run1 && IsRun(tame, run1) && Idle(run1, |run0| - 1) && t == run1[|run1| - 1].state
    requires Kept(run1, disk, t.disk, {}) && SettledPaths(run0, disk, Changed(t.record.owned, After(t.record)), After(t.record))
    requires FoundIn(run1, |run0| - 1, After(t.record).Keys, After(t.record))
    ensures AllStillTrue(run1, t, Commit)
  {
    forall p | Unedited(run1, p) && Tracked(t.record, p) ensures At(t.disk, p) == Get(After(t.record), p) {
      VerifiedStays(tame, run0, run1, disk, t, After(t.record), p);
    }
  }

  // What was surveyed is still so.
  lemma SurveyStillTrue(tame: bool, base: Disk, others: nat -> Option<Disk>, turns0: nat, turns1: nat, run0: seq<Moment>, run1: seq<Moment>,
                        deeds: seq<Step>, t: State, desired: Files, journal: Journal)
    requires Good(tame, base, others, turns0, run0, deeds) && Good(tame, base, others, turns1, run1, deeds) && run0 <= run1
    requires t == run1[|run1| - 1].state && SurveyFits(run1, |run0| - 1, desired, t.record.owned, journal)
    ensures AllStillTrue(run1, t, Begin(journal, map[]))
  {
    GoodIsIdle(tame, base, others, turns0, turns1, run0, run1, deeds);
    forall p | Unedited(run1, p) ensures StillTrue(t, Begin(journal, map[]), p) {
      if p in t.record.owned {
        SeenIsNow(tame, run1, |run0| - 1, p, Get(t.record.owned, p));
      } else if p in desired {
        SeenIsNow(tame, run1, |run0| - 1, p, PlannedAt(desired[p], journal, p));
      }
    }
  }

  // What was found missing still is.
  lemma MissingStillTrue(tame: bool, base: Disk, others: nat -> Option<Disk>, turns0: nat, turns1: nat, run0: seq<Moment>, run1: seq<Moment>,
                         deeds: seq<Step>, t: State, owned: Files, missing: set<Path>)
    requires Good(tame, base, others, turns0, run0, deeds) && Good(tame, base, others, turns1, run1, deeds) && run0 <= run1
    requires t == run1[|run1| - 1].state && missing <= owned.Keys && FoundIn(run1, |run0| - 1, owned.Keys, owned - missing)
    ensures AllStillTrue(run1, t, Forget(missing))
  {
    GoodIsIdle(tame, base, others, turns0, turns1, run0, run1, deeds);
    forall p | Unedited(run1, p) && p in missing ensures At(t.disk, p) == None {
      assert Get(owned - missing, p) == None;
      SeenIsNow(tame, run1, |run0| - 1, p, Get(owned - missing, p));
    }
  }

  lemma GoodStep(tame: bool, base: Disk, others: nat -> Option<Disk>, turns: nat, run: seq<Moment>,
                 deeds: seq<Step>, s: State, step: Step)
    requires Good(tame, base, others, turns, run, deeds) && s == run[|run| - 1].state && Acts(step) && Enabled(tame, s, step)
    requires AllStillTrue(run, s, step)
    ensures Good(tame, base, others, turns, run + [Moment(Do(s, step), step)], deeds + [step])
  {
    ExtendRun(tame, base, run, s, step);
    TellMore(run, Moment(Do(s, step), step));
  }

  lemma TurnIsGood(tame: bool, base: Disk, others: nat -> Option<Disk>, turns: nat, run: seq<Moment>,
                   deeds: seq<Step>, s: State, path: Path, content: Option<Digest>, step: Step)
    requires Good(tame, base, others, turns, run, deeds) && s == run[|run| - 1].state
    requires Touches(s.record, path) && Turns(s.record, path, At(s.disk, path), content, step)
    ensures Good(tame, base, others, turns, run + [Moment(s.(disk := Put(s.disk, path, content)), step)], deeds + [step])
  {
    TurnIsStep(tame, s, path, content, step);
    GoodStep(tame, base, others, turns, run, deeds, s, step);
  }

  lemma GoodKeep(tame: bool, base: Disk, others: nat -> Option<Disk>, turns: nat, run: seq<Moment>,
                 deeds: seq<Step>, s: State, digest: Digest)
    requires Good(tame, base, others, turns, run, deeds) && s == run[|run| - 1].state
    ensures Good(tame, base, others, turns, run + [Moment(Do(s, Retain(digest)), Retain(digest))], deeds)
  {
    ExtendRun(tame, base, run, s, Retain(digest));
    TellMore(run, Moment(Do(s, Retain(digest)), Retain(digest)));
  }

  function Edited(s: State, disk: Disk): Moment {
    Moment(s.(disk := disk), Edit(disk))
  }

  lemma GoodEdit(tame: bool, base: Disk, others: nat -> Option<Disk>, turns: nat, run: seq<Moment>,
                 deeds: seq<Step>, s: State, disk: Disk)
    requires Good(tame, base, others, turns, run, deeds) && s == run[|run| - 1].state
    requires !tame && others(turns) == Some(disk)
    ensures Good(tame, base, others, turns + 1, run + [Edited(s, disk)], deeds)
  {
    ExtendRun(tame, base, run, s, Edit(disk));
    TellMore(run, Edited(s, disk));
  }

  lemma GoodSilence(tame: bool, base: Disk, others: nat -> Option<Disk>, turns: nat, run: seq<Moment>, deeds: seq<Step>)
    requires Good(tame, base, others, turns, run, deeds) && others(turns) == None
    ensures Good(tame, base, others, turns + 1, run, deeds)
  {
  }

  lemma TellMore(run: seq<Moment>, m: Moment)
    requires |run| > 0
    ensures Deeds(run + [m]) == Deeds(run) + (if Acts(m.step) then [m.step] else [])
    ensures Edits(run + [m]) == Edits(run) + (if m.step.Edit? then [m.step.disk] else [])
  {
    assert (run + [m])[..|run|] == run;
  }

  lemma ExtendRun(tame: bool, base: Disk, run: seq<Moment>, s: State, step: Step)
    requires IsRun(tame, run) && s == run[|run| - 1].state && Enabled(tame, s, step)
    requires Safe(s) && (tame ==> Intact(base, s)) && PathsIntact(base, run) && AllStillTrue(run, s, step)
    ensures IsRun(tame, run + [Moment(Do(s, step), step)]) && PathsIntact(base, run + [Moment(Do(s, step), step)])
    ensures Safe(Do(s, step)) && (tame ==> Intact(base, Do(s, step)))
  {
    StepKeepsSafe(tame, s, step);
    if tame {
      StepKeepsIntact(base, s, step);
    }
    FollowOn(tame, run, Moment(Do(s, step), step));
    PathsIntactMore(tame, base, run, Moment(Do(s, step), step));
  }

  lemma FollowOn(tame: bool, run: seq<Moment>, m: Moment)
    requires IsRun(tame, run) && Follows(tame, run[|run| - 1].state, m)
    ensures IsRun(tame, run + [m])
  {
    var longer := run + [m];
    forall i, j | 0 <= i < j == i + 1 < |longer| ensures Follows(tame, longer[i].state, longer[j]) {
      if j < |run| {
        assert Follows(tame, run[i].state, run[j]);
      }
    }
  }

  // ---- Whole runs ----

  datatype Command = Deploy(files: seq<(Path, Source)>) | Recover | Remove | Repair

  // One command, in surroundings of any kind; the process may die inside it.
  method Run(i: Installation, command: Command)
    requires i.Valid()
    modifies i
    ensures i.Valid() && old(i.history) <= i.history
  {
    var calm, shared: bool := *, *;
    i.calm, i.shared := calm, shared && !i.tame;
    match command {
      case Deploy(files) => var _ := i.Apply(files);
      case Recover => var _ := i.Recover();
      case Remove => var _ := i.Remove();
      case Repair => var _ := i.RepairMissing();
    }
  }

  // Every step but those of others keeps what no journal knows.
  ghost predicate AllPreserved(run: seq<Moment>) {
    forall i, j {:trigger Preserves(run[i].state, run[j].state)} | 0 <= i < j == i + 1 < |run| && !run[j].step.Edit? ::
      Preserves(run[i].state, run[j].state)
  }

  lemma RunPreserves(tame: bool, run: seq<Moment>)
    requires IsRun(tame, run) && Safe(run[0].state)
    ensures AllPreserved(run)
  {
    forall i, j | 0 <= i < j == i + 1 < |run| && !run[j].step.Edit? ensures Preserves(run[i].state, run[j].state) {
      NothingIsLost(tame, run, i, j, "");
    }
  }

  // Any commands, each refused, failed, killed or completed, and anything others do
  // meanwhile leave one run of the protocol behind. What it tells of others is what
  // they did, and all else keeps what no journal knows. Whenever no journal is open each
  // path that nobody else changed is as the base or the owned files have it. If nobody
  // edits the directory and a last removal completes, it is what it was.
  method Session(disk: Disk, tame: bool, others: nat -> Option<Disk>, commands: seq<Command>) returns (i: Installation, removed: bool)
    ensures i.Valid() && i.tame == tame && i.base == disk
    ensures IsRun(tame, i.history) && i.history[0].state == State(disk, Record(map[], None), Store(map[], map[]))
    ensures Edits(i.history) == Answers(others, i.turns) && AllPreserved(i.history)
    ensures removed ==> i.record == Record(map[], None)
    ensures removed && tame ==> i.disk == disk
    // Path by path, where nobody else changed anything:
    ensures i.record.pending.None? ==> forall p | Unedited(i.history, p) :: PathGivenBack(disk, i.Now(), p)
    ensures removed ==> forall p | Unedited(i.history, p) :: At(i.disk, p) == At(disk, p)
  {
    i := new Installation(disk, tame, others);
    for k := 0 to |commands|
      invariant fresh(i) && i.Valid() && i.tame == tame && i.others == others && i.base == disk
      invariant i.history[0].state == State(disk, Record(map[], None), Store(map[], map[]))
    {
      Run(i, commands[k]);
    }
    var last := i.Remove();
    removed := last.Done?;
    RunPreserves(tame, i.history);
    forall p | i.record.pending.None? && Unedited(i.history, p) ensures PathGivenBack(disk, i.Now(), p) {
      assert PathIntact(disk, i.Now(), p);
    }
    if removed {
      forall p | Unedited(i.history, p) ensures At(i.disk, p) == At(disk, p) {
        assert PathGivenBack(disk, i.Now(), p);
      }
    }
  }

  // An apply that dies anywhere, perhaps begun under the journal of another, then
  // recoveries that die anywhere: as soon as no journal is open the directory is wholly
  // the old deployment or wholly the new one.
  method InterruptedApply(i: Installation, files: seq<(Path, Source)>, attempts: nat)
    requires i.Valid() && i.tame
    modifies i
    ensures i.Valid()
    ensures i.record.pending.None? ==>
      || (i.record.owned == old(i.record).owned && i.disk == i.base + ContentsOf(old(i.record).owned)
          && (old(i.record).pending.None? ==> i.record == old(i.record) && i.disk == old(i.disk)))
      || (Serves(i.base, i.Now(), files) && i.record.owned == Wanted(files) - i.base.Keys)
  {
    var wanted := Wanted(files);
    if i.record.pending.None? {
      QuiescentDisk(i.base, i.Now());
    }
    var outcome := i.Apply(files);
    if i.record.owned != old(i.record).owned {
      DeployedAgrees(i.base, i.Now(), wanted);
    }
    for k := 0 to attempts
      invariant i.Valid()
      invariant i.record.owned == old(i.record).owned ||
                (i.record.owned == wanted - i.base.Keys && Agrees(i.base, wanted) && DistinctPaths(files))
    {
      var recovered := i.Recover();
    }
    if i.record.pending.None? {
      if i.record.owned == old(i.record).owned {
        QuiescentDisk(i.base, i.Now());
      } else {
        OwnedIsDeployed(i.base, i.Now(), wanted);
        ServedAsOffered(i.base, i.Now(), files);
      }
    }
  }
}
