// Watching local sources: a new build is inspected, left alone for a while, and
// only then copied, if it is still the one that was inspected.
module Watch {
  import opened Results
  import opened References

  // Milliseconds.
  const QUIET: nat := 2_000
  const RECHECK: nat := 30_000

  datatype Source = Source(local: LocalSource, listening: bool, due: nat, candidate: Option<string>)

  type Sources = map<string, Source>

  datatype Input = Input(sources: seq<LocalSource>, paused: bool, resume: bool)

  // What reading the files of a source finds.
  datatype Build = Build(modId: string, hash: string)

  datatype Mode = Inspect | Copy(expected: string)

  datatype Event = Status(local: LocalSource, state: WatchState) | Ready(local: LocalSource, build: Build)

  datatype WatchState = Watching | Settling | Error

  datatype Message = Updated(input: Input) | Timeout | Closed

  // What one turn of the loop meets. changed: the sources with a change signal; found:
  // what reading would find; touched: a change signal came meanwhile; cancelled: the
  // worker has been told to stop; delivered: somebody takes the event.
  datatype Tick = Tick(message: Message, changed: set<string>, found: Option<Build>, touched: bool, cancelled: bool, delivered: bool)

  // What it makes of that: the sources after the message, after the signals and after
  // the reading, and the event; it begins at `from` and ends at `upto`, and the files
  // are read from `started` to `read`.
  datatype Turn = Turn(
    paused: bool, listed: Sources, observed: Sources, event: Option<Event>, after: Sources,
    from: nat, started: nat, read: nat, upto: nat)

  // `prepare_source`: a copy is refused when the files are not the expected build.
  function Prepare(mode: Mode, found: Option<Build>): Option<Build> {
    if found.Some? && mode.Copy? && found.value.hash != mode.expected then None else found
  }

  function ModeOf(source: Source): Mode {
    if source.candidate.None? then Inspect else Copy(source.candidate.value)
  }

  predicate Keyed(sources: Sources) {
    forall id | id in sources :: sources[id].local.reference.modId == id
  }

  // ---- A new list of sources ----

  function FirstOf(listed: seq<LocalSource>, id: string): (r: Option<LocalSource>)
    ensures r.Some? ==> r.value in listed && r.value.reference.modId == id
    ensures r.None? ==> forall l | l in listed :: l.reference.modId != id
  {
    if listed == [] then None
    else
      var n := |listed| - 1;
      var first := FirstOf(listed[..n], id);
      assert listed == listed[..n] + [listed[n]];
      if first.Some? then first
      else if listed[n].reference.modId == id then Some(listed[n])
      else None
  }

  // The source is listed as it was before.
  predicate Kept(before: Sources, listed: seq<LocalSource>, id: string) {
    id in before && before[id].local in listed
  }

  predicate StartsAnew(source: Source, from: nat, upto: nat) {
    source.candidate.None? && from <= source.due <= upto
  }

  // A kept source is as it was, unless watching is resumed; any other one is the first
  // listed of its mod and starts anew.
  predicate AdmittedAs(before: Sources, source: Source, input: Input, id: string, first: Option<LocalSource>, from: nat, upto: nat) {
    if Kept(before, input.sources, id) then
      if first.Some? && input.resume then
        StartsAnew(source, from, upto) && source.local == before[id].local && source.listening == before[id].listening
      else source == before[id]
    else first == Some(source.local) && StartsAnew(source, from, upto)
  }

  // The first i listed sources have been admitted.
  ghost predicate AdmittedUpTo(before: Sources, after: Sources, input: Input, i: nat, from: nat, upto: nat)
    requires i <= |input.sources|
  {
    && (forall id :: id in after <==> Kept(before, input.sources, id) || FirstOf(input.sources[..i], id).Some?)
    && forall id | id in after :: AdmittedAs(before, after[id], input, id, FirstOf(input.sources[..i], id), from, upto)
  }

  ghost predicate Admitted(before: Sources, after: Sources, input: Input, from: nat, upto: nat) {
    AdmittedUpTo(before, after, input, |input.sources|, from, upto)
  }

  lemma FirstOfMore(listed: seq<LocalSource>, i: nat, id: string)
    requires i < |listed|
    ensures FirstOf(listed[..i + 1], id)
         == if FirstOf(listed[..i], id).None? && listed[i].reference.modId == id then Some(listed[i]) else FirstOf(listed[..i], id)
  {
    assert listed[..i + 1][..i] == listed[..i];
  }

  // One more is admitted: it is there already, or it is new and starts anew; on a
  // resume it starts anew in any case.
  lemma AdmittedMore(before: Sources, mid: Sources, after: Sources, input: Input, i: nat, from: nat, now: nat, upto: nat)
    requires i < |input.sources| && AdmittedUpTo(before, mid, input, i, from, now) && from <= now <= upto && Keyed(before)
    requires AdmitsOne(mid, after, input.sources[i], input.resume, now, upto)
    ensures AdmittedUpTo(before, after, input, i + 1, from, upto)
  {
    var local := input.sources[i];
    forall id ensures id in after <==> Kept(before, input.sources, id) || FirstOf(input.sources[..i + 1], id).Some? {
      FirstOfMore(input.sources, i, id);
    }
    forall id | id in after
      ensures AdmittedAs(before, after[id], input, id, FirstOf(input.sources[..i + 1], id), from, upto)
    {
      FirstOfMore(input.sources, i, id);
    }
  }

  predicate AdmitsOne(before: Sources, after: Sources, local: LocalSource, resume: bool, from: nat, upto: nat) {
    var id := local.reference.modId;
    && after.Keys == before.Keys + {id}
    && (forall d | d in before && d != id :: after[d] == before[d])
    && (if id !in before then after[id].local == local && StartsAnew(after[id], from, upto)
        else if resume then
          after[id].local == before[id].local && after[id].listening == before[id].listening && StartsAnew(after[id], from, upto)
        else after[id] == before[id])
  }

  // ---- Change signals ----

  // A signal that is heard makes the source wait; without one nothing happens.
  predicate Observed(before: Source, after: Source, changed: bool, from: nat, upto: nat) {
    if changed && before.listening then
      after.candidate.None? && after.local == before.local && from + QUIET <= after.due <= upto + QUIET
    else after == before
  }

  ghost predicate ObservedUpTo(before: Sources, after: Sources, todo: set<string>, changed: set<string>, from: nat, upto: nat) {
    && after.Keys == before.Keys
    && forall id | id in before ::
         if id in todo then after[id] == before[id] else Observed(before[id], after[id], id in changed, from, upto)
  }

  ghost predicate ObservedAll(before: Sources, after: Sources, changed: set<string>, from: nat, upto: nat) {
    ObservedUpTo(before, after, {}, changed, from, upto)
  }

  // ---- A reading ----

  // What a reading means for a source that did not change meanwhile.
  function Judge(source: Source, result: Option<Build>): Event {
    if result.None? || result.value.modId != source.local.reference.modId then Status(source.local, Error)
    else if result.value.hash == source.local.reference.hash then Status(source.local, Watching)
    else if source.candidate.Some? then Ready(source.local, result.value)
    else Status(source.local, Settling)
  }

  predicate Disturbed(source: Source, tick: Tick) {
    tick.touched && source.listening
  }

  function Verdict(source: Source, tick: Tick): Event {
    if Disturbed(source, tick) then Status(source.local, Settling) else Judge(source, Prepare(ModeOf(source), tick.found))
  }

  // ---- What is said of a source, status by status ----

  // The files cannot be read, or the copy is not of the build that was waited for.
  predicate Unusable(source: Source, tick: Tick) {
    tick.found == None || (source.candidate != None && source.candidate != Some(tick.found.value.hash))
  }

  ghost predicate Says(source: Source, tick: Tick, event: Event) {
    var id, disturbed := source.local.reference.modId, tick.touched && source.listening;
    && event.local == source.local
    && (event == Status(source.local, Error) <==> !disturbed && (Unusable(source, tick) || tick.found.value.modId != id))
    && (event == Status(source.local, Watching) <==>
         !disturbed && !Unusable(source, tick) && tick.found == Some(Build(id, source.local.reference.hash)))
    && (event == Status(source.local, Settling) <==>
         || disturbed
         || (source.candidate == None && tick.found != None
             && tick.found.value.modId == id && tick.found.value.hash != source.local.reference.hash))
    && (event.Ready? <==>
         && !disturbed && source.candidate != None && !Unusable(source, tick)
         && tick.found.value.modId == id && tick.found.value.hash != source.local.reference.hash)
    && (event.Ready? ==> Some(event.build) == tick.found)
  }

  // What is waited for then: the build that was found, or nothing.
  ghost predicate Awaits(source: Source, tick: Tick, event: Event, candidate: Option<string>) {
    if event == Status(source.local, Settling) && !(tick.touched && source.listening) then
      tick.found != None && candidate == Some(tick.found.value.hash)
    else candidate == None
  }

  // The event of a turn is what is to be said of the source that was read.
  ghost predicate SaysAt(tick: Tick, turn: Turn) {
    turn.event.Some? ==>
      var id := turn.event.value.local.reference.modId;
      && id in turn.observed && id in turn.after
      && Says(turn.observed[id], tick, turn.event.value)
      && Awaits(turn.observed[id], tick, turn.event.value, turn.after[id].candidate)
  }

  lemma VerdictSays(source: Source, tick: Tick)
    ensures Says(source, tick, Verdict(source, tick))
  {
  }

  lemma TurnSays(before: Sources, paused: bool, tick: Tick, turn: Turn)
    requires Took(before, paused, tick, turn)
    ensures SaysAt(tick, turn)
  {
    if turn.event.Some? {
      VerdictSays(turn.observed[turn.event.value.local.reference.modId], tick);
    }
  }

  ghost predicate SaysAll(ticks: seq<Tick>, trail: seq<Turn>) {
    |trail| <= |ticks| && forall k | 0 <= k < |trail| :: SaysAt(ticks[k], trail[k])
  }

  lemma RunSays(start: Sources, paused: bool, ticks: seq<Tick>, trail: seq<Turn>)
    requires IsRun(start, paused, ticks, trail)
    ensures SaysAll(ticks, trail)
  {
    forall k | 0 <= k < |trail| ensures SaysAt(ticks[k], trail[k]) {
      assert TookAt(start, paused, ticks, trail, k);
      TurnSays(Before(start, trail, k), PausedBefore(paused, trail, k), ticks[k], trail[k]);
    }
  }

  // Only a build that has just been found, without a change meanwhile, becomes a
  // candidate, and it is left alone for the quiet period.
  predicate Finds(source: Source, tick: Tick) {
    !Disturbed(source, tick) && Verdict(source, tick) == Status(source.local, Settling)
  }

  predicate Concluded(before: Source, after: Source, tick: Tick, started: nat, read: nat, upto: nat) {
    && after.local == before.local && started <= read <= upto
    && (if Finds(before, tick) then tick.found.Some? && after.candidate == Some(tick.found.value.hash) && after.due == read + QUIET
        else
          var delay := if Disturbed(before, tick) then QUIET else RECHECK;
          after.candidate.None? && started + delay <= after.due <= upto + delay)
  }

  // The source that has been due longest is read, if any is due; the others are untouched.
  ghost predicate ReadAs(before: Sources, after: Sources, tick: Tick, event: Option<Event>, started: nat, read: nat, upto: nat) {
    if event.None? then after == before && forall id | id in before :: before[id].due > started
    else
      var id := event.value.local.reference.modId;
      && id in before && before[id].due <= started && (forall d | d in before :: before[id].due <= before[d].due)
      && event.value == Verdict(before[id], tick)
      && id in after && after == before[id := after[id]]
      && Concluded(before[id], after[id], tick, started, read, upto)
  }

  // ---- A turn, and a run ----

  predicate PausedBy(tick: Tick, paused: bool) {
    if tick.message.Updated? then tick.message.input.paused else paused
  }

  // The loop ends here.
  predicate Over(tick: Tick, paused: bool) {
    tick.message.Closed? || (!PausedBy(tick, paused) && tick.cancelled)
  }

  ghost predicate Took(before: Sources, paused: bool, tick: Tick, turn: Turn) {
    && !Over(tick, paused) && turn.paused == PausedBy(tick, paused) && turn.from <= turn.started <= turn.read <= turn.upto
    && (if tick.message.Updated? then Admitted(before, turn.listed, tick.message.input, turn.from, turn.upto) else turn.listed == before)
    && Keyed(turn.listed)
    && ObservedAll(turn.listed, turn.observed, tick.changed, turn.from, turn.upto)
    && if turn.paused then turn.event.None? && turn.after == turn.observed
       else ReadAs(turn.observed, turn.after, tick, turn.event, turn.started, turn.read, turn.upto)
  }

  function Before(start: Sources, trail: seq<Turn>, k: nat): Sources
    requires k <= |trail|
  {
    if k == 0 then start else trail[k - 1].after
  }

  predicate PausedBefore(paused: bool, trail: seq<Turn>, k: nat)
    requires k <= |trail|
  {
    if k == 0 then paused else trail[k - 1].paused
  }

  ghost predicate TookAt(start: Sources, paused: bool, ticks: seq<Tick>, trail: seq<Turn>, k: nat)
    requires k < |trail| <= |ticks|
  {
    Took(Before(start, trail, k), PausedBefore(paused, trail, k), ticks[k], trail[k]) && (k > 0 ==> trail[k].from == trail[k - 1].upto)
  }

  predicate Refused(tick: Tick, turn: Turn) {
    turn.event.Some? && !tick.delivered
  }

  // Turn by turn from these sources, each beginning when the last one ended; only the last event may find nobody.
  ghost predicate IsRun(start: Sources, paused: bool, ticks: seq<Tick>, trail: seq<Turn>) {
    && |trail| <= |ticks|
    && (forall k: nat | k < |trail| :: TookAt(start, paused, ticks, trail, k))
    && forall k | 0 <= k < |trail| - 1 :: !Refused(ticks[k], trail[k])
  }

  // It goes on until there is a reason to end.
  predicate Ended(paused: bool, ticks: seq<Tick>, trail: seq<Turn>) {
    |trail| < |ticks| ==>
      || Over(ticks[|trail|], PausedBefore(paused, trail, |trail|))
      || (|trail| > 0 && Refused(ticks[|trail| - 1], trail[|trail| - 1]))
  }

  function SentIn(tick: Tick, turn: Turn): seq<Event> {
    if turn.event.Some? && tick.delivered then [turn.event.value] else []
  }

  // The events that somebody has taken.
  function Sent(ticks: seq<Tick>, trail: seq<Turn>): seq<Event>
    requires |trail| <= |ticks|
  {
    if trail == [] then []
    else
      var n := |trail| - 1;
      Sent(ticks, trail[..n]) + SentIn(ticks[n], trail[n])
  }

  // The run has led here.
  ghost predicate Reached(start: Sources, paused: bool, clock: nat, ticks: seq<Tick>, trail: seq<Turn>, sources: Sources, pause: bool, now: nat) {
    && IsRun(start, paused, ticks, trail)
    && sources == Before(start, trail, |trail|) && pause == PausedBefore(paused, trail, |trail|)
    && if trail == [] then now == clock else trail[0].from == clock && trail[|trail| - 1].upto == now
  }

  predicate GoesOn(ticks: seq<Tick>, trail: seq<Turn>)
    requires |trail| <= |ticks|
  {
    |trail| > 0 ==> !Refused(ticks[|trail| - 1], trail[|trail| - 1])
  }

  // The turns are taken between these two times.
  predicate Spans(trail: seq<Turn>, from: nat, upto: nat) {
    trail != [] ==> trail[0].from == from && trail[|trail| - 1].upto <= upto
  }

  lemma RunMore(start: Sources, paused: bool, clock: nat, ticks: seq<Tick>, trail: seq<Turn>, sources: Sources, pause: bool, now: nat, turn: Turn)
    requires Reached(start, paused, clock, ticks, trail, sources, pause, now) && |trail| < |ticks|
    requires GoesOn(ticks, trail) && Took(sources, pause, ticks[|trail|], turn) && turn.from == now
    ensures Reached(start, paused, clock, ticks, trail + [turn], turn.after, turn.paused, turn.upto)
  {
    forall k: nat | k <= |trail| ensures TookAt(start, paused, ticks, trail + [turn], k) {
      TookStill(start, paused, ticks, trail, turn, k);
    }
  }

  function Longer(trail: seq<Turn>, turn: Option<Turn>): seq<Turn> {
    if turn.Some? then trail + [turn.value] else trail
  }

  lemma TurnTaken(start: Sources, paused: bool, clock: nat, ticks: seq<Tick>, trail: seq<Turn>, turn: Turn, taken: seq<Event>)
    requires |trail| < |ticks| && Reached(start, paused, clock, ticks, trail + [turn], turn.after, turn.paused, turn.upto)
    ensures IsRun(start, paused, ticks, trail + [turn]) && Spans(trail + [turn], clock, turn.upto)
    ensures GoesOn(ticks, trail + [turn]) <==> !Refused(ticks[|trail|], turn)
    ensures Refused(ticks[|trail|], turn) ==> Ended(paused, ticks, trail + [turn])
    ensures taken + Sent(ticks, trail) + SentIn(ticks[|trail|], turn) == taken + Sent(ticks, trail + [turn])
  {
    SentMore(ticks, trail, turn);
    Regroup(taken, Sent(ticks, trail), SentIn(ticks[|trail|], turn));
  }

  lemma Regroup(a: seq<Event>, b: seq<Event>, c: seq<Event>)
    ensures a + b + c == a + (b + c)
  {
  }

  lemma ReachedSpans(start: Sources, paused: bool, clock: nat, ticks: seq<Tick>, trail: seq<Turn>, sources: Sources, pause: bool, now: nat)
    requires |trail| < |ticks| && Reached(start, paused, clock, ticks, trail, sources, pause, now)
    ensures IsRun(start, paused, ticks, trail) && Spans(trail, clock, now)
    ensures Over(ticks[|trail|], pause) ==> Ended(paused, ticks, trail)
  {
  }

  lemma TookStill(start: Sources, paused: bool, ticks: seq<Tick>, trail: seq<Turn>, turn: Turn, k: nat)
    requires k <= |trail| < |ticks|
    requires k < |trail| ==> TookAt(start, paused, ticks, trail, k)
    requires Took(Before(start, trail, |trail|), PausedBefore(paused, trail, |trail|), ticks[|trail|], turn)
    requires |trail| > 0 ==> turn.from == trail[|trail| - 1].upto
    ensures TookAt(start, paused, ticks, trail + [turn], k)
  {
    var more := trail + [turn];
    assert Before(start, more, k) == Before(start, trail, k) && PausedBefore(paused, more, k) == PausedBefore(paused, trail, k);
  }

  lemma SentMore(ticks: seq<Tick>, trail: seq<Turn>, turn: Turn)
    requires |trail| < |ticks|
    ensures Sent(ticks, trail + [turn]) == Sent(ticks, trail) + SentIn(ticks[|trail|], turn)
  {
    assert (trail + [turn])[..|trail|] == trail;
  }

  // ---- What is claimed of a run ----

  // In this turn the source was read, undisturbed, and this build was found in it; the
  // reading ended at least two seconds before.
  predicate FoundIn(tick: Tick, turn: Turn, local: LocalSource, hash: string, before: nat) {
    var id := local.reference.modId;
    && turn.event == Some(Status(local, Settling)) && tick.found == Some(Build(id, hash))
    && id in turn.observed && !Disturbed(turn.observed[id], tick)
    && turn.read + 2_000 <= before
  }

  // The source was neither taken off the list, nor resumed, nor was a change signal of
  // it heard.
  predicate LeftAlone(tick: Tick, turn: Turn, local: LocalSource) {
    var id := local.reference.modId;
    && (tick.message.Updated? ==> local in tick.message.input.sources && !tick.message.input.resume)
    && id in turn.listed && !(id in tick.changed && turn.listed[id].listening)
  }

  predicate WasRead(turn: Turn, local: LocalSource) {
    turn.event.Some? && turn.event.value.local.reference.modId == local.reference.modId
  }

  // The build was found in turn j, and until turn n the source has been left alone and
  // not read again.
  ghost predicate SettledSince(ticks: seq<Tick>, trail: seq<Turn>, j: nat, n: nat, local: LocalSource, hash: string, before: nat)
    requires n <= |trail| <= |ticks|
  {
    && j < n && FoundIn(ticks[j], trail[j], local, hash, before)
    && forall i | j < i < n :: LeftAlone(ticks[i], trail[i], local) && !WasRead(trail[i], local)
  }

  lemma CandidateKept(before: Sources, paused: bool, tick: Tick, turn: Turn, id: string)
    requires Keyed(before) && Took(before, paused, tick, turn) && id in turn.observed && turn.observed[id].candidate.Some?
    ensures id in before && before[id] == turn.observed[id] && LeftAlone(tick, turn, before[id].local)
  {
    assert Observed(turn.listed[id], turn.observed[id], id in tick.changed, turn.from, turn.upto);
    if tick.message.Updated? {
      var input := tick.message.input;
      assert input.sources[..|input.sources|] == input.sources;
      assert AdmittedAs(before, turn.listed[id], input, id, FirstOf(input.sources, id), turn.from, turn.upto);
    }
  }

  lemma CandidateFound(before: Sources, paused: bool, tick: Tick, turn: Turn, id: string)
    requires Keyed(before) && Took(before, paused, tick, turn) && id in turn.after && turn.after[id].candidate.Some?
    ensures var source := turn.after[id];
            || FoundIn(tick, turn, source.local, source.candidate.value, source.due)
            || (id in before && before[id] == source && LeftAlone(tick, turn, source.local) && !WasRead(turn, source.local))
  {
    assert forall d | d in turn.listed :: Observed(turn.listed[d], turn.observed[d], d in tick.changed, turn.from, turn.upto);
    if turn.event.None? || turn.event.value.local.reference.modId != id {
      CandidateKept(before, paused, tick, turn, id);
    }
  }

  lemma StaysKeyed(ticks: seq<Tick>, trail: seq<Turn>, n: nat)
    requires IsRun(map[], true, ticks, trail) && n <= |trail|
    ensures Keyed(Before(map[], trail, n))
  {
    if n > 0 {
      assert TookAt(map[], true, ticks, trail, n - 1);
      TurnKeyed(Before(map[], trail, n - 1), PausedBefore(true, trail, n - 1), ticks[n - 1], trail[n - 1]);
    }
  }

  lemma TurnKeyed(before: Sources, paused: bool, tick: Tick, turn: Turn)
    requires Took(before, paused, tick, turn)
    ensures Keyed(turn.after)
  {
    ObservedKeyed(turn.listed, turn.observed, tick.changed, turn.from, turn.upto);
  }

  lemma CandidateFoundAt(ticks: seq<Tick>, trail: seq<Turn>, n: nat, id: string)
    requires IsRun(map[], true, ticks, trail) && n < |trail| && id in trail[n].after && trail[n].after[id].candidate.Some?
    ensures var source, before := trail[n].after[id], Before(map[], trail, n);
            || FoundIn(ticks[n], trail[n], source.local, source.candidate.value, source.due)
            || (id in before && before[id] == source && LeftAlone(ticks[n], trail[n], source.local) && !WasRead(trail[n], source.local))
  {
    StaysKeyed(ticks, trail, n);
    assert TookAt(map[], true, ticks, trail, n);
    CandidateFound(Before(map[], trail, n), PausedBefore(true, trail, n), ticks[n], trail[n], id);
  }

  lemma CandidateWasFound(ticks: seq<Tick>, trail: seq<Turn>, n: nat, id: string)
    requires IsRun(map[], true, ticks, trail) && n <= |trail|
    requires id in Before(map[], trail, n) && Before(map[], trail, n)[id].candidate.Some?
    ensures var source := Before(map[], trail, n)[id];
            exists j: nat :: SettledSince(ticks, trail, j, n, source.local, source.candidate.value, source.due)
  {
    CandidateFoundAt(ticks, trail, n - 1, id);
    var source := trail[n - 1].after[id];
    if FoundIn(ticks[n - 1], trail[n - 1], source.local, source.candidate.value, source.due) {
      assert SettledSince(ticks, trail, n - 1, n, source.local, source.candidate.value, source.due);
    } else {
      CandidateWasFound(ticks, trail, n - 1, id);
      var j: nat :| SettledSince(ticks, trail, j, n - 1, source.local, source.candidate.value, source.due);
      assert SettledSince(ticks, trail, j, n, source.local, source.candidate.value, source.due);
    }
  }

  // The build handed over in turn k was found by a reading of the same source in an
  // earlier turn, which ended at least the quiet period before the copy began. Since
  // then the source was listed all the time, watching was not resumed, no change signal
  // of it was heard, and it was not read; and the copy found the same build.
  ghost predicate HandedOver(ticks: seq<Tick>, trail: seq<Turn>, k: nat)
    requires k < |trail| <= |ticks| && trail[k].event.Some? && trail[k].event.value.Ready?
  {
    var local, build := trail[k].event.value.local, trail[k].event.value.build;
    && ticks[k].found == Some(build) && build.modId == local.reference.modId && build.hash != local.reference.hash
    && LeftAlone(ticks[k], trail[k], local)
    && local.reference.modId in trail[k].observed && !Disturbed(trail[k].observed[local.reference.modId], ticks[k])
    && exists j: nat :: SettledSince(ticks, trail, j, k, local, build.hash, trail[k].started)
  }

  lemma ReadyWasSettled(ticks: seq<Tick>, trail: seq<Turn>, k: nat)
    requires IsRun(map[], true, ticks, trail) && k < |trail| && trail[k].event.Some? && trail[k].event.value.Ready?
    ensures HandedOver(ticks, trail, k)
  {
    StaysKeyed(ticks, trail, k);
    assert TookAt(map[], true, ticks, trail, k);
    ReadyCopies(Before(map[], trail, k), PausedBefore(true, trail, k), ticks[k], trail[k]);
    var source := Before(map[], trail, k)[trail[k].event.value.local.reference.modId];
    CandidateWasFound(ticks, trail, k, source.local.reference.modId);
    var j: nat :| SettledSince(ticks, trail, j, k, source.local, source.candidate.value, source.due);
    assert SettledSince(ticks, trail, j, k, source.local, source.candidate.value, trail[k].started);
  }

  // What is handed over is the candidate, copied without a change meanwhile.
  lemma ReadyCopies(before: Sources, paused: bool, tick: Tick, turn: Turn)
    requires Keyed(before) && Took(before, paused, tick, turn) && turn.event.Some? && turn.event.value.Ready?
    ensures var local, build := turn.event.value.local, turn.event.value.build;
            var id := local.reference.modId;
            && tick.found == Some(build) && build.modId == id && build.hash != local.reference.hash
            && LeftAlone(tick, turn, local) && id in turn.observed && !Disturbed(turn.observed[id], tick)
            && id in before && before[id].local == local && before[id].candidate == Some(build.hash) && before[id].due <= turn.started
  {
    CandidateKept(before, paused, tick, turn, turn.event.value.local.reference.modId);
  }

  // ---- The worker ----

  class Worker {
    var sources: Sources
    var paused: bool
    var clock: nat
    var sent: seq<Event>

    constructor ()
      ensures sources == map[] && paused && sent == []
    {
      sources, paused, clock, sent := map[], true, 0, [];
    }

    // The clock never goes back.
    method Now() returns (t: nat)
      modifies this`clock
      ensures old(clock) <= clock == t
    {
      var passed: int := *;
      if passed > 0 {
        clock := clock + passed;
      }
      t := clock;
    }

    // Opening the notifications of a source may fail.
    method Listen() returns (listening: bool)
    {
      listening := *;
    }

    // ---- A new list of sources ----

    // `retain`: only sources that are still listed, unchanged, keep their state.
    method Retain(listed: seq<LocalSource>)
      modifies this`sources
      ensures forall id :: id in sources <==> Kept(old(sources), listed, id)
      ensures forall id | id in sources :: id in old(sources) && sources[id] == old(sources)[id]
    {
      sources := map id | id in sources && sources[id].local in listed :: sources[id];
    }

    // `or_insert_with`, and `resume`
    method Admit(local: LocalSource, resume: bool)
      modifies this`sources, this`clock
      ensures old(clock) <= clock && AdmitsOne(old(sources), sources, local, resume, old(clock), clock)
    {
      var id := local.reference.modId;
      if id !in sources {
        var listening := Listen();
        var now := Now();
        sources := sources[id := Source(local, listening, now, None)];
      }
      if resume {
        var now := Now();
        sources := sources[id := sources[id].(due := now, candidate := None)];
      }
    }

    // Afterwards every listed mod is watched and nothing else is, and only a source that
    // was listed before, unchanged, goes on, unless watching was resumed.
    method Update(input: Input)
      requires Keyed(sources)
      modifies this`sources, this`paused, this`clock
      ensures Keyed(sources) && paused == input.paused && old(clock) <= clock
      ensures Admitted(old(sources), sources, input, old(clock), clock)
    {
      paused := input.paused;
      Retain(input.sources);
      for i := 0 to |input.sources|
        invariant old(clock) <= clock && paused == input.paused
        invariant AdmittedUpTo(old(sources), sources, input, i, old(clock), clock)
      {
        ghost var mid, now := sources, clock;
        Admit(input.sources[i], input.resume);
        AdmittedMore(old(sources), mid, sources, input, i, old(clock), now, clock);
      }
      AdmittedAreKeyed(old(sources), sources, input, |input.sources|, old(clock), clock);
    }

    // ---- Change signals ----

    method ObserveOne(id: string, changed: set<string>)
      requires id in sources
      modifies this`sources, this`clock
      ensures old(clock) <= clock && sources.Keys == old(sources).Keys
      ensures forall d | d in sources && d != id :: sources[d] == old(sources)[d]
      ensures Observed(old(sources)[id], sources[id], id in changed, old(clock), clock)
    {
      if id in changed && sources[id].listening {
        var now := Now();
        var listening := Listen();
        sources := sources[id := sources[id].(due := now + QUIET, candidate := None, listening := listening)];
      }
    }

    // Each source with a signal that is heard loses its candidate and waits.
    method Observe(changed: set<string>)
      modifies this`sources, this`clock
      ensures old(clock) <= clock && ObservedAll(old(sources), sources, changed, old(clock), clock)
    {
      var todo := sources.Keys;
      while todo != {}
        invariant old(clock) <= clock && todo <= sources.Keys
        invariant ObservedUpTo(old(sources), sources, todo, changed, old(clock), clock)
        decreases |todo|
      {
        var id :| id in todo;
        ObserveOne(id, changed);
        todo := todo - {id};
      }
    }

    // ---- One reading ----

    // A source whose time has come, the one that has waited longest.
    method NextDue(now: nat) returns (next: Option<string>)
      ensures next.None? ==> forall id | id in sources :: sources[id].due > now
      ensures next.Some? ==> next.value in sources && sources[next.value].due <= now
      ensures next.Some? ==> forall id | id in sources :: sources[next.value].due <= sources[id].due
    {
      next := None;
      var todo := sources.Keys;
      while todo != {}
        invariant todo <= sources.Keys
        invariant next.None? ==> forall id | id in sources && id !in todo :: sources[id].due > now
        invariant next.Some? ==> next.value in sources && sources[next.value].due <= now
        invariant next.Some? ==> forall id | id in sources && id !in todo :: sources[next.value].due <= sources[id].due
        decreases |todo|
      {
        var id :| id in todo;
        if sources[id].due <= now && (next.None? || sources[id].due < sources[next.value].due) {
          next := Some(id);
        }
        todo := todo - {id};
      }
    }

    // The files of one source have been read.
    method Conclude(id: string, tick: Tick, started: nat) returns (event: Event, read: nat)
      requires id in sources && started <= clock
      modifies this`sources, this`clock
      ensures old(clock) <= clock && id in sources && sources == old(sources)[id := sources[id]]
      ensures Says(old(sources)[id], tick, event) && Awaits(old(sources)[id], tick, event, sources[id].candidate)
      ensures event == Verdict(old(sources)[id], tick) && Concluded(old(sources)[id], sources[id], tick, started, read, clock)
    {
      var source := sources[id];
      read := Now();
      var listening := Listen();
      if tick.touched && source.listening {
        var now := Now();
        sources := sources[id := Source(source.local, listening, now + QUIET, None)];
        return Status(source.local, Settling), read;
      }
      var result := Prepare(ModeOf(source), tick.found);
      event := Judge(source, result);
      if event == Status(source.local, Settling) {
        read := Now();
        sources := sources[id := Source(source.local, listening, read + QUIET, Some(result.value.hash))];
      } else {
        sources := sources[id := Source(source.local, listening, read + RECHECK, None)];
      }
    }

    // One reading, of the source that has been due longest; the others are untouched.
    method Read(tick: Tick) returns (event: Option<Event>, started: nat, read: nat)
      requires Keyed(sources)
      modifies this`sources, this`clock
      ensures old(clock) <= started <= read <= clock && Keyed(sources)
      ensures ReadAs(old(sources), sources, tick, event, started, read, clock)
    {
      started := Now();
      read := started;
      var next := NextDue(started);
      if next.None? {
        return None, started, read;
      }
      var verdict, ended := Conclude(next.value, tick, started);
      return Some(verdict), started, ended;
    }

    // ---- The loop ----

    // One turn; without one the loop is over, and after one it may be.
    method TakeTurn(tick: Tick) returns (more: bool, ghost turn: Option<Turn>)
      requires Keyed(sources)
      modifies this
      ensures Keyed(sources)
      ensures old(clock) <= clock
      ensures turn.Some? ==> Took(old(sources), old(paused), tick, turn.value) && turn.value.from == old(clock) && turn.value.upto == clock
      ensures turn.Some? ==> sources == turn.value.after && paused == turn.value.paused && (more <==> !Refused(tick, turn.value))
      ensures sent == old(sent) + if turn.Some? then SentIn(tick, turn.value) else []
      ensures turn.None? ==> !more && Over(tick, old(paused))
    {
      ghost var from := clock;
      match tick.message {
        case Updated(input) => Update(input);
        case Timeout =>
        case Closed => return false, None;
      }
      ghost var listed, upto := sources, clock;
      Observe(tick.changed);
      ghost var observed := sources;
      ObservedKeyed(listed, observed, tick.changed, upto, clock);
      if paused {
        turn := Some(Turn(true, listed, observed, None, sources, from, clock, clock, clock));
        TurnFits(old(sources), old(paused), tick, turn.value, upto, clock);
        return true, turn;
      }
      if tick.cancelled {
        return false, None;
      }
      ghost var heard := clock;
      var event, started, read := Read(tick);
      turn := Some(Turn(false, listed, observed, event, sources, from, started, read, clock));
      TurnFits(old(sources), old(paused), tick, turn.value, upto, heard);
      more := event.None? || tick.delivered;
      if event.Some? && tick.delivered {
        sent := sent + [event.value];
      }
    }

    // One turn of a run that has come here.
    method Advance(ticks: seq<Tick>, ghost trail: seq<Turn>, tick: Tick, ghost start: Sources, ghost pause: bool, ghost begun: nat,
                   ghost taken: seq<Event>)
      returns (more: bool, ghost longer: seq<Turn>)
      requires Keyed(sources) && |trail| < |ticks| && tick == ticks[|trail|] && GoesOn(ticks, trail)
      requires Reached(start, pause, begun, ticks, trail, sources, paused, clock) && sent == taken + Sent(ticks, trail)
      modifies this
      ensures IsRun(start, pause, ticks, longer) && sent == taken + Sent(ticks, longer) && Spans(longer, begun, clock)
      ensures more ==> Keyed(sources) && |longer| == |trail| + 1 && GoesOn(ticks, longer)
      ensures more ==> Reached(start, pause, begun, ticks, longer, sources, paused, clock)
      ensures !more ==> Ended(pause, ticks, longer)
    {
      ghost var turn;
      more, turn := TakeTurn(tick);
      longer := Longer(trail, turn);
      if turn.Some? {
        RunMore(start, pause, begun, ticks, trail, old(sources), old(paused), old(clock), turn.value);
        TurnTaken(start, pause, begun, ticks, trail, turn.value, taken);
      } else {
        ReachedSpans(start, pause, begun, ticks, trail, old(sources), old(paused), old(clock));
      }
    }

    // `run`
    method Run(ticks: seq<Tick>) returns (ghost trail: seq<Turn>)
      requires Keyed(sources)
      modifies this
      ensures IsRun(old(sources), old(paused), ticks, trail) && Ended(old(paused), ticks, trail)
      ensures sent == old(sent) + Sent(ticks, trail) && Spans(trail, old(clock), clock)
    {
      trail := [];
      for k := 0 to |ticks|
        invariant Keyed(sources) && |trail| == k && GoesOn(ticks, trail)
        invariant Reached(old(sources), old(paused), old(clock), ticks, trail, sources, paused, clock)
        invariant sent == old(sent) + Sent(ticks, trail)
      {
        var more;
        more, trail := Advance(ticks, trail, ticks[k], old(sources), old(paused), old(clock), old(sent));
        if !more {
          return;
        }
      }
    }
  }

  lemma AdmittedAreKeyed(before: Sources, after: Sources, input: Input, i: nat, from: nat, upto: nat)
    requires i <= |input.sources| && Keyed(before) && AdmittedUpTo(before, after, input, i, from, upto)
    ensures Keyed(after)
  {
  }

  lemma ObservedKeyed(before: Sources, after: Sources, changed: set<string>, from: nat, upto: nat)
    requires Keyed(before) && ObservedAll(before, after, changed, from, upto)
    ensures Keyed(after)
  {
    forall id | id in after ensures after[id].local.reference.modId == id {
      assert Observed(before[id], after[id], id in changed, from, upto);
    }
  }

  // The parts of a turn make the turn.
  lemma TurnFits(before: Sources, paused: bool, tick: Tick, turn: Turn, listed: nat, heard: nat)
    requires turn.from <= listed <= heard <= turn.started <= turn.read <= turn.upto && Keyed(turn.listed)
    requires !Over(tick, paused) && turn.paused == PausedBy(tick, paused)
    requires if tick.message.Updated? then Admitted(before, turn.listed, tick.message.input, turn.from, listed) else turn.listed == before
    requires ObservedAll(turn.listed, turn.observed, tick.changed, listed, heard)
    requires if turn.paused then turn.event.None? && turn.after == turn.observed
             else ReadAs(turn.observed, turn.after, tick, turn.event, turn.started, turn.read, turn.upto)
    ensures Took(before, paused, tick, turn)
  {
    forall id | id in turn.listed ensures Observed(turn.listed[id], turn.observed[id], id in tick.changed, turn.from, turn.upto) {
      assert Observed(turn.listed[id], turn.observed[id], id in tick.changed, listed, heard);
    }
    if tick.message.Updated? {
      AdmittedLater(before, turn.listed, tick.message.input, turn.from, listed, turn.upto);
    }
  }

  lemma AdmittedLater(before: Sources, after: Sources, input: Input, from: nat, now: nat, upto: nat)
    requires Admitted(before, after, input, from, now) && now <= upto
    ensures Admitted(before, after, input, from, upto)
  {
    var all := input.sources[..|input.sources|];
    forall id | id in after ensures AdmittedAs(before, after[id], input, id, FirstOf(all, id), from, upto) {
      assert AdmittedAs(before, after[id], input, id, FirstOf(all, id), from, now);
    }
  }

  // A worker that starts with nothing: whatever it meets, every build it hands over has
  // settled, and what others receive from it is what its turns say.
  method Work(ticks: seq<Tick>) returns (sent: seq<Event>, ghost trail: seq<Turn>)
    ensures IsRun(map[], true, ticks, trail) && Ended(true, ticks, trail) && sent == Sent(ticks, trail)
    ensures forall k | 0 <= k < |trail| && trail[k].event.Some? && trail[k].event.value.Ready? :: HandedOver(ticks, trail, k)
    ensures SaysAll(ticks, trail)
  {
    var worker := new Worker();
    trail := worker.Run(ticks);
    sent := worker.sent;
    RunSays(map[], true, ticks, trail);
    forall k | 0 <= k < |trail| && trail[k].event.Some? && trail[k].event.value.Ready? ensures HandedOver(ticks, trail, k) {
      ReadyWasSettled(ticks, trail, k);
    }
  }
}
