// Running an activation document inside the game: which mods load, which code is
// called, and in which order it is shut down again.
module ActivationSession {
  import opened Results
  import opened Sequences
  import opened ActivationDocument

  // How the code and files of one mod answer.
  datatype Behaviour = Behaviour(
    payload: bool,      // every file has its hash, no assembly conflicts
    supported: bool,    // the adapter takes overlays and each file is one
    applies: bool,      // applying the overlay does not throw
    created: bool,      // the entry type is found and an instance is made
    configured: bool,   // its settings can be made
    initialises: bool,  // `Initialize` does not throw
    stoppable: bool)    // the instance can be shut down

  datatype Call = Apply(modId: string) | Initialize(modId: string) | Shutdown(modId: string)

  datatype Outcome = Loaded | Skipped | InvalidPayload | UnsupportedContent | InitializationFailed

  datatype Report = Report(modId: string, outcome: Outcome)

  // ---- One mod ----

  predicate Satisfied(m: ActiveMod, loaded: set<string>) {
    forall id | id in m.required :: id in loaded
  }

  predicate Works(m: ActiveMod, b: Behaviour) {
    b.payload && if m.entryAssembly.None? then b.supported && b.applies else b.created && b.configured && b.initialises
  }

  function OutcomeOf(m: ActiveMod, b: Behaviour, loaded: set<string>): Outcome {
    if !Satisfied(m, loaded) then Skipped
    else if !b.payload then InvalidPayload
    else if m.entryAssembly.None? && !b.supported then UnsupportedContent
    else if Works(m, b) then Outcome.Loaded
    else InitializationFailed
  }

  // An instance of the mod is made.
  predicate Starts(m: ActiveMod, b: Behaviour, loaded: set<string>) {
    Satisfied(m, loaded) && b.payload && m.entryAssembly.Some? && b.created
  }

  function CallsOf(m: ActiveMod, b: Behaviour, loaded: set<string>): seq<Call> {
    if !Satisfied(m, loaded) || !b.payload then []
    else if m.entryAssembly.None? then (if b.supported then [Apply(m.modId)] else [])
    else if !b.created then []
    else
      (if b.configured then [Initialize(m.modId)] else [])
      + (if b.stoppable && !Works(m, b) then [Shutdown(m.modId)] else [])
  }

  // The mod is kept for the shutdown at the end.
  predicate Kept(m: ActiveMod, b: Behaviour, loaded: set<string>) {
    Starts(m, b, loaded) && Works(m, b) && b.stoppable
  }

  // ---- A list of mods ----

  function LoadedSet(mods: seq<ActiveMod>, behaviour: string -> Behaviour): set<string> {
    if mods == [] then {}
    else
      var m := mods[|mods| - 1];
      var before := LoadedSet(mods[..|mods| - 1], behaviour);
      if Satisfied(m, before) && Works(m, behaviour(m.modId)) then before + {m.modId} else before
  }

  function Trace(mods: seq<ActiveMod>, behaviour: string -> Behaviour): seq<Call> {
    if mods == [] then []
    else
      var init, m := mods[..|mods| - 1], mods[|mods| - 1];
      Trace(init, behaviour) + CallsOf(m, behaviour(m.modId), LoadedSet(init, behaviour))
  }

  function Pushed(mods: seq<ActiveMod>, behaviour: string -> Behaviour): seq<string> {
    if mods == [] then []
    else
      var init, m := mods[..|mods| - 1], mods[|mods| - 1];
      Pushed(init, behaviour) + (if Kept(m, behaviour(m.modId), LoadedSet(init, behaviour)) then [m.modId] else [])
  }

  function Reports(mods: seq<ActiveMod>, behaviour: string -> Behaviour): (r: seq<Report>)
    ensures |r| == |mods| && forall i | 0 <= i < |mods| :: r[i].modId == mods[i].modId
  {
    if mods == [] then []
    else
      var init, m := mods[..|mods| - 1], mods[|mods| - 1];
      Reports(init, behaviour) + [Report(m.modId, OutcomeOf(m, behaviour(m.modId), LoadedSet(init, behaviour)))]
  }

  // Shutting down from the last to the first.
  function Stops(pushed: seq<string>): (calls: seq<Call>)
    ensures |calls| == |pushed| && forall i | 0 <= i < |calls| :: calls[i] == Shutdown(pushed[|pushed| - 1 - i])
  {
    seq(|pushed|, i requires 0 <= i < |pushed| => Shutdown(pushed[|pushed| - 1 - i]))
  }

  // Every call made from activation to disposal.
  function Complete(mods: seq<ActiveMod>, behaviour: string -> Behaviour): seq<Call> {
    Trace(mods, behaviour) + Stops(Pushed(mods, behaviour))
  }

  // ---- What is reported and called, in terms of how each mod behaves ----

  ghost predicate HasAll(m: ActiveMod, s: set<string>) {
    forall id | id in m.required :: id in s
  }

  // In `s` are the mods that have all they require in it and do not fail.
  ghost predicate Loads(mods: seq<ActiveMod>, behaviour: string -> Behaviour, s: set<string>) {
    && (forall id | id in s :: Earlier(mods, |mods|, id))
    && forall k | 0 <= k < |mods| :: mods[k].modId in s <==> LoadsBy(mods[k], behaviour(mods[k].modId), s)
  }

  ghost predicate LoadsBy(m: ActiveMod, b: Behaviour, s: set<string>) {
    && HasAll(m, s) && b.payload
    && (m.entryAssembly == None ==> b.supported && b.applies)
    && (m.entryAssembly != None ==> b.created && b.configured && b.initialises)
  }

  // What is reported of a mod, given what has loaded and whether it did.
  ghost predicate Tells(m: ActiveMod, b: Behaviour, s: set<string>, loaded: bool, outcome: Outcome) {
    && (outcome == Outcome.Loaded <==> loaded)
    && (outcome == Skipped <==> exists id :: id in m.required && id !in s)
    && (outcome == InvalidPayload <==> HasAll(m, s) && !b.payload)
    && (outcome == UnsupportedContent <==> HasAll(m, s) && b.payload && m.entryAssembly == None && !b.supported)
    && (outcome == InitializationFailed <==> HasAll(m, s) && b.payload && (m.entryAssembly == None ==> b.supported) && !loaded)
  }

  ghost predicate TellsAll(mods: seq<ActiveMod>, behaviour: string -> Behaviour, s: set<string>, reports: seq<Report>) {
    && |reports| == |mods|
    && forall k | 0 <= k < |mods| ::
         reports[k].modId == mods[k].modId && Tells(mods[k], behaviour(mods[k].modId), s, mods[k].modId in s, reports[k].outcome)
  }

  // An overlay is applied if it is supported; an instance is initialised if it is made
  // and configured, and stopped at once if that fails.
  ghost predicate Calls(m: ActiveMod, b: Behaviour, s: set<string>, calls: seq<Call>) {
    && (Apply(m.modId) in calls <==> HasAll(m, s) && b.payload && m.entryAssembly == None && b.supported)
    && (Initialize(m.modId) in calls <==> HasAll(m, s) && b.payload && m.entryAssembly != None && b.created && b.configured)
    && (Shutdown(m.modId) in calls <==>
         HasAll(m, s) && b.payload && m.entryAssembly != None && b.created && b.stoppable && m.modId !in s)
  }

  // The j-th call belongs to the mod at[j]; mods are called in their order, and one is
  // stopped after it was initialised.
  ghost predicate InTurn(mods: seq<ActiveMod>, n: nat, calls: seq<Call>, at: seq<nat>) {
    && |at| == |calls|
    && (forall j | 0 <= j < |calls| :: at[j] < n <= |mods| && calls[j].modId == mods[at[j]].modId)
    && forall i, j | 0 <= i < j < |calls| :: at[i] < at[j] || (at[i] == at[j] && calls[i].Initialize? && calls[j].Shutdown?)
  }

  ghost predicate CallsAll(mods: seq<ActiveMod>, behaviour: string -> Behaviour, s: set<string>, calls: seq<Call>) {
    && (exists at :: InTurn(mods, |mods|, calls, at))
    && forall k | 0 <= k < |mods| :: Calls(mods[k], behaviour(mods[k].modId), s, calls)
  }

  // Loaded instances that can be stopped are kept for the end, in their order.
  ghost predicate KeepsAll(mods: seq<ActiveMod>, behaviour: string -> Behaviour, s: set<string>, kept: seq<string>) {
    exists pos: seq<nat> :: Increasing(pos) && |pos| == |kept|
      && (forall k: nat :: k in pos <==> k < |mods| && Stays(mods[k], behaviour(mods[k].modId), s))
      && forall i | 0 <= i < |pos| :: pos[i] < |mods| && kept[i] == mods[pos[i]].modId
  }

  ghost predicate Stays(m: ActiveMod, b: Behaviour, s: set<string>) {
    m.modId in s && m.entryAssembly != None && b.stoppable
  }

  // ---- The session object ----

  class Session {
    var started: bool
    var shutdown: seq<string>
    var settings: set<string>
    var calls: seq<Call>

    constructor ()
      ensures !started && shutdown == [] && settings == {} && calls == []
    {
      started, shutdown, settings, calls := false, [], {}, [];
    }

    // One turn of the loop; the second result says that the mod was successful.
    method Attempt(m: ActiveMod, b: Behaviour, successful: set<string>) returns (outcome: Outcome, success: bool)
      requires m.modId !in settings
      modifies this`shutdown, this`settings, this`calls
      ensures outcome == OutcomeOf(m, b, successful)
      ensures success <==> Satisfied(m, successful) && Works(m, b)
      ensures Tells(m, b, successful, success, outcome) && (success <==> LoadsBy(m, b, successful))
      ensures calls == old(calls) + CallsOf(m, b, successful)
      ensures shutdown == old(shutdown) + (if Kept(m, b, successful) then [m.modId] else [])
      ensures settings == old(settings) + (if Starts(m, b, successful) && Works(m, b) then {m.modId} else {})
    {
      if exists id :: id in m.required && id !in successful {
        return Skipped, false;
      }
      if !b.payload {
        return InvalidPayload, false;
      }
      if m.entryAssembly.None? {
        if !b.supported {
          return UnsupportedContent, false;
        }
        calls := calls + [Apply(m.modId)];
        return if b.applies then Outcome.Loaded else InitializationFailed, b.applies;
      }
      if !b.created {
        return InitializationFailed, false;
      }
      var initialised := false;
      if b.configured {
        calls := calls + [Initialize(m.modId)];
        initialised := b.initialises;
      }
      if !initialised {
        if b.stoppable {
          calls := calls + [Shutdown(m.modId)];
        }
        return InitializationFailed, false;
      }
      settings := settings + {m.modId};
      if b.stoppable {
        shutdown := shutdown + [m.modId];
      }
      return Outcome.Loaded, true;
    }

    // `Activate`: once in a process, and only for a document the validator accepts.
    method Activate(a: Activation, behaviour: string -> Behaviour) returns (r: Option<seq<Report>>)
      requires !started ==> shutdown == [] && settings == {} && calls == []
      modifies this
      ensures started
      ensures r.Some? <==> !old(started) && ValidActivation(a)
      ensures r.Some? ==> r.value == Reports(a.mods, behaviour)
      ensures r.Some? ==> calls == Trace(a.mods, behaviour) && shutdown == Pushed(a.mods, behaviour)
      // In terms of how each mod behaves:
      ensures r.Some? ==> Loads(a.mods, behaviour, LoadedSet(a.mods, behaviour))
      ensures r.Some? ==> TellsAll(a.mods, behaviour, LoadedSet(a.mods, behaviour), r.value)
      ensures r.Some? ==> CallsAll(a.mods, behaviour, LoadedSet(a.mods, behaviour), calls)
      ensures r.Some? ==> KeepsAll(a.mods, behaviour, LoadedSet(a.mods, behaviour), shutdown)
      ensures r.None? ==> calls == old(calls) && shutdown == old(shutdown) && settings == old(settings)
    {
      if started {
        return None;
      }
      started := true;
      var valid := Check(a);
      if !valid {
        return None;
      }
      var results := Loop(a.mods, behaviour);
      LoadedLoads(a.mods, behaviour);
      ReportsTell(a.mods, behaviour);
      TraceCalls(a.mods, behaviour);
      PushedStay(a.mods, behaviour);
      return Some(results);
    }

    method Loop(mods: seq<ActiveMod>, behaviour: string -> Behaviour) returns (results: seq<Report>)
      requires shutdown == [] && settings == {} && calls == []
      requires InSequence(mods)
      modifies this`shutdown, this`settings, this`calls
      ensures results == Reports(mods, behaviour)
      ensures calls == Trace(mods, behaviour) && shutdown == Pushed(mods, behaviour)
      ensures settings <= LoadedSet(mods, behaviour)
    {
      var successful: set<string> := {};
      results := [];
      for k := 0 to |mods|
        invariant successful == LoadedSet(mods[..k], behaviour) && settings <= successful
        invariant results == Reports(mods[..k], behaviour)
        invariant calls == Trace(mods[..k], behaviour) && shutdown == Pushed(mods[..k], behaviour)
      {
        var m := mods[k];
        assert mods[..k + 1][..k] == mods[..k];
        LoadedAreEarlier(mods, k, behaviour);
        var outcome, success := Attempt(m, behaviour(m.modId), successful);
        if success {
          successful := successful + {m.modId};
        }
        results := results + [Report(m.modId, outcome)];
      }
      assert mods[..|mods|] == mods;
    }

    // `Dispose`: the last started is the first stopped; a second call does nothing.
    method Dispose()
      modifies this`shutdown, this`calls
      ensures calls == old(calls) + Stops(old(shutdown)) && shutdown == []
    {
      var i := |shutdown|;
      while i > 0
        invariant 0 <= i <= |shutdown| && shutdown == old(shutdown)
        invariant calls == old(calls) + Stops(shutdown)[..|shutdown| - i]
      {
        i := i - 1;
        assert Stops(shutdown)[|shutdown| - 1 - i] == Shutdown(shutdown[i]);
        calls := calls + [Shutdown(shutdown[i])];
      }
      assert Stops(shutdown)[..|shutdown|] == Stops(shutdown);
      shutdown := [];
    }
  }

  // ---- What the validator guarantees to the loop ----

  ghost predicate InSequence(mods: seq<ActiveMod>) {
    forall k | 0 <= k < |mods| :: InOrder(mods, k)
  }

  lemma {:induction false} LoadedAreListed(mods: seq<ActiveMod>, behaviour: string -> Behaviour)
    ensures forall id | id in LoadedSet(mods, behaviour) :: Earlier(mods, |mods|, id)
  {
    if mods != [] {
      var n := |mods| - 1;
      LoadedAreListed(mods[..n], behaviour);
      forall id | id in LoadedSet(mods, behaviour) ensures Earlier(mods, |mods|, id) {
        if id in LoadedSet(mods[..n], behaviour) {
          var j :| 0 <= j < n && mods[..n][j].modId == id;
          assert mods[j].modId == id;
        } else {
          assert mods[n].modId == id;
        }
      }
    }
  }

  lemma LoadedAreEarlier(mods: seq<ActiveMod>, k: nat, behaviour: string -> Behaviour)
    requires k < |mods| && InSequence(mods)
    ensures mods[k].modId !in LoadedSet(mods[..k], behaviour)
  {
    LoadedAreListed(mods[..k], behaviour);
    assert InOrder(mods, k);
    forall j | 0 <= j < k ensures mods[..k][j].modId != mods[k].modId {
      assert mods[..k][j] == mods[j];
    }
  }

  // ---- Which mods load ----

  // A set of mods in which exactly those are that work and have all they require.
  ghost predicate Settles(mods: seq<ActiveMod>, behaviour: string -> Behaviour, s: set<string>) {
    && (forall id | id in s :: Earlier(mods, |mods|, id))
    && forall m | m in mods :: m.modId in s <==> Works(m, behaviour(m.modId)) && Satisfied(m, s)
  }

  lemma {:induction false} LoadedUpTo(mods: seq<ActiveMod>, n: nat, behaviour: string -> Behaviour)
    requires InSequence(mods) && n <= |mods|
    ensures forall k | 0 <= k < n ::
      mods[k].modId in LoadedSet(mods[..n], behaviour) <==>
        Works(mods[k], behaviour(mods[k].modId)) && Satisfied(mods[k], LoadedSet(mods[..k], behaviour))
  {
    if n > 0 {
      LoadedUpTo(mods, n - 1, behaviour);
      assert mods[..n][..n - 1] == mods[..n - 1];
      LoadedAreEarlier(mods, n - 1, behaviour);
      forall k | 0 <= k < n - 1 ensures mods[k].modId != mods[n - 1].modId {
        assert InOrder(mods, n - 1);
      }
    }
  }

  lemma LoadedGrows(mods: seq<ActiveMod>, k: nat, n: nat, behaviour: string -> Behaviour)
    requires InSequence(mods) && k <= n <= |mods|
    ensures forall j | 0 <= j < k ::
      mods[j].modId in LoadedSet(mods[..k], behaviour) <==> mods[j].modId in LoadedSet(mods[..n], behaviour)
  {
    LoadedUpTo(mods, k, behaviour);
    LoadedUpTo(mods, n, behaviour);
  }

  // The loaded mods are such a set,
  lemma LoadedSettles(mods: seq<ActiveMod>, behaviour: string -> Behaviour)
    requires InSequence(mods)
    ensures Settles(mods, behaviour, LoadedSet(mods, behaviour))
  {
    LoadedAreListed(mods, behaviour);
    assert mods[..|mods|] == mods;
    LoadedUpTo(mods, |mods|, behaviour);
    forall m | m in mods
      ensures m.modId in LoadedSet(mods, behaviour) <==> Works(m, behaviour(m.modId)) && Satisfied(m, LoadedSet(mods, behaviour))
    {
      var k :| 0 <= k < |mods| && mods[k] == m;
      SatisfiedEarly(mods, k, behaviour);
    }
  }

  lemma SatisfiedEarly(mods: seq<ActiveMod>, k: nat, behaviour: string -> Behaviour)
    requires InSequence(mods) && k < |mods|
    ensures Satisfied(mods[k], LoadedSet(mods[..k], behaviour)) <==> Satisfied(mods[k], LoadedSet(mods, behaviour))
  {
    assert mods[..|mods|] == mods;
    LoadedGrows(mods, k, |mods|, behaviour);
    assert InOrder(mods, k);
    forall id | id in mods[k].required
      ensures id in LoadedSet(mods[..k], behaviour) <==> id in LoadedSet(mods, behaviour)
    {
      var j :| 0 <= j < k && mods[j].modId == id;
    }
  }

  // and the only one.
  lemma SettlesOnce(mods: seq<ActiveMod>, behaviour: string -> Behaviour, s: set<string>)
    requires InSequence(mods) && Settles(mods, behaviour, s)
    ensures s == LoadedSet(mods, behaviour)
  {
    assert mods[..|mods|] == mods;
    LoadedAreListed(mods, behaviour);
    LoadedSettles(mods, behaviour);
    AgreeUpTo(mods, behaviour, s, LoadedSet(mods, behaviour), |mods|);
    forall id ensures id in s <==> id in LoadedSet(mods, behaviour) {
      if id in s || id in LoadedSet(mods, behaviour) {
        var j :| 0 <= j < |mods| && mods[j].modId == id;
      }
    }
  }

  lemma {:induction false} AgreeUpTo(mods: seq<ActiveMod>, behaviour: string -> Behaviour, s: set<string>, t: set<string>, n: nat)
    requires InSequence(mods) && Settles(mods, behaviour, s) && Settles(mods, behaviour, t) && n <= |mods|
    ensures forall j | 0 <= j < n :: mods[j].modId in s <==> mods[j].modId in t
  {
    if n > 0 {
      AgreeUpTo(mods, behaviour, s, t, n - 1);
      AgreeAt(mods, behaviour, s, t, n - 1);
    }
  }

  lemma AgreeAt(mods: seq<ActiveMod>, behaviour: string -> Behaviour, s: set<string>, t: set<string>, k: nat)
    requires k < |mods| && InOrder(mods, k) && Settles(mods, behaviour, s) && Settles(mods, behaviour, t)
    requires forall j | 0 <= j < k :: mods[j].modId in s <==> mods[j].modId in t
    ensures mods[k].modId in s <==> mods[k].modId in t
  {
    assert mods[k] in mods;
    forall id | id in mods[k].required ensures id in s <==> id in t {
      var j :| 0 <= j < k && mods[j].modId == id;
    }
  }

  // Another valid order of the same mods loads the same set.
  lemma OrderDoesNotMatter(mods: seq<ActiveMod>, others: seq<ActiveMod>, behaviour: string -> Behaviour)
    requires InSequence(mods) && InSequence(others) && forall m :: m in mods <==> m in others
    ensures LoadedSet(mods, behaviour) == LoadedSet(others, behaviour)
  {
    var s := LoadedSet(others, behaviour);
    LoadedSettles(others, behaviour);
    forall id | id in s ensures Earlier(mods, |mods|, id) {
      var j :| 0 <= j < |others| && others[j].modId == id;
      assert others[j] in mods;
      var k :| 0 <= k < |mods| && mods[k] == others[j];
      assert mods[k].modId == id;
    }
    SettlesOnce(mods, behaviour, s);
  }

  // Nothing is held back without a failure.
  lemma AllLoad(mods: seq<ActiveMod>, behaviour: string -> Behaviour)
    requires InSequence(mods) && forall m | m in mods :: Works(m, behaviour(m.modId))
    ensures forall m | m in mods :: m.modId in LoadedSet(mods, behaviour)
  {
    var ids := set k | 0 <= k < |mods| :: mods[k].modId;
    forall m | m in mods ensures m.modId in ids && Satisfied(m, ids) {
      var k :| 0 <= k < |mods| && mods[k] == m;
      assert InOrder(mods, k);
      forall id | id in m.required ensures id in ids {
        var j :| 0 <= j < k && mods[j].modId == id;
      }
    }
    SettlesOnce(mods, behaviour, ids);
  }

  // ---- Calls ----

  function Times(calls: seq<Call>, c: Call): nat {
    multiset(calls)[c]
  }

  // The instance of mods[k] is made and can be shut down.
  predicate Stoppable(mods: seq<ActiveMod>, k: nat, behaviour: string -> Behaviour)
    requires k < |mods|
  {
    var m := mods[k];
    Starts(m, behaviour(m.modId), LoadedSet(mods[..k], behaviour)) && behaviour(m.modId).stoppable
  }

  lemma TraceStep(mods: seq<ActiveMod>, n: nat, behaviour: string -> Behaviour)
    requires n < |mods|
    ensures var m := mods[n];
            var loaded := LoadedSet(mods[..n], behaviour);
            && Trace(mods[..n + 1], behaviour) == Trace(mods[..n], behaviour) + CallsOf(m, behaviour(m.modId), loaded)
            && Pushed(mods[..n + 1], behaviour)
            == Pushed(mods[..n], behaviour) + (if Kept(m, behaviour(m.modId), loaded) then [m.modId] else [])
  {
    assert mods[..n + 1][..n] == mods[..n];
  }

  // The calls of one mod concern that mod; with what is pushed they shut it down once.
  lemma OwnCalls(m: ActiveMod, b: Behaviour, loaded: set<string>)
    ensures forall c | c in CallsOf(m, b, loaded) :: c.modId == m.modId
    ensures Times(CallsOf(m, b, loaded), Shutdown(m.modId)) + (if Kept(m, b, loaded) then 1 else 0)
         == if Starts(m, b, loaded) && b.stoppable then 1 else 0
  {
  }

  // Only listed mods are called or pushed.
  lemma {:induction false} CalledIsListed(mods: seq<ActiveMod>, n: nat, c: Call, behaviour: string -> Behaviour)
    requires n <= |mods| && c in Trace(mods[..n], behaviour)
    ensures Earlier(mods, n, c.modId)
  {
    var m, before := mods[n - 1], mods[..n - 1];
    TraceStep(mods, n - 1, behaviour);
    if c in Trace(before, behaviour) {
      CalledIsListed(mods, n - 1, c, behaviour);
    } else {
      OwnCalls(m, behaviour(m.modId), LoadedSet(before, behaviour));
      assert mods[n - 1].modId == c.modId;
    }
  }

  lemma {:induction false} PushedIsListed(mods: seq<ActiveMod>, n: nat, id: string, behaviour: string -> Behaviour)
    requires n <= |mods| && id in Pushed(mods[..n], behaviour)
    ensures Earlier(mods, n, id)
  {
    TraceStep(mods, n - 1, behaviour);
    if id in Pushed(mods[..n - 1], behaviour) {
      PushedIsListed(mods, n - 1, id, behaviour);
    } else {
      assert mods[n - 1].modId == id;
    }
  }

  lemma OnlyListed(mods: seq<ActiveMod>, n: nat, behaviour: string -> Behaviour)
    requires n <= |mods|
    ensures forall c | c in Trace(mods[..n], behaviour) :: Earlier(mods, n, c.modId)
    ensures forall id | id in Pushed(mods[..n], behaviour) :: Earlier(mods, n, id)
  {
    forall c | c in Trace(mods[..n], behaviour) ensures Earlier(mods, n, c.modId) {
      CalledIsListed(mods, n, c, behaviour);
    }
    forall id | id in Pushed(mods[..n], behaviour) ensures Earlier(mods, n, id) {
      PushedIsListed(mods, n, id, behaviour);
    }
  }

  lemma TimesAppend(a: seq<Call>, b: seq<Call>, c: Call)
    ensures Times(a + b, c) == Times(a, c) + Times(b, c)
    ensures c !in a ==> Times(a, c) == 0
  {
  }

  // How often a mod is shut down in a trace, or pushed to be shut down at the end.
  function Stopped(trace: seq<Call>, pushed: seq<string>, id: string): nat {
    Times(trace, Shutdown(id)) + multiset(pushed)[id]
  }

  lemma CountsAt(mods: seq<ActiveMod>, k: nat, behaviour: string -> Behaviour)
    requires k < |mods| && InSequence(mods)
    ensures Stopped(Trace(mods[..k + 1], behaviour), Pushed(mods[..k + 1], behaviour), mods[k].modId)
         == if Stoppable(mods, k, behaviour) then 1 else 0
  {
    var m, loaded := mods[k], LoadedSet(mods[..k], behaviour);
    OnlyListed(mods, k, behaviour);
    assert InOrder(mods, k);
    assert Shutdown(m.modId) !in Trace(mods[..k], behaviour) && m.modId !in Pushed(mods[..k], behaviour);
    TraceStep(mods, k, behaviour);
    OwnCalls(m, behaviour(m.modId), loaded);
    TimesAppend(Trace(mods[..k], behaviour), CallsOf(m, behaviour(m.modId), loaded), Shutdown(m.modId));
  }

  lemma CountsStep(mods: seq<ActiveMod>, n: nat, id: string, behaviour: string -> Behaviour)
    requires n < |mods| && mods[n].modId != id
    ensures Stopped(Trace(mods[..n + 1], behaviour), Pushed(mods[..n + 1], behaviour), id)
         == Stopped(Trace(mods[..n], behaviour), Pushed(mods[..n], behaviour), id)
  {
    var m, loaded := mods[n], LoadedSet(mods[..n], behaviour);
    var own := CallsOf(m, behaviour(m.modId), loaded);
    TraceStep(mods, n, behaviour);
    OwnCalls(m, behaviour(m.modId), loaded);
    assert Shutdown(id) !in own;
    TimesAppend(Trace(mods[..n], behaviour), own, Shutdown(id));
    TimesAppend(own, [], Shutdown(id));
  }

  lemma IdsDiffer(mods: seq<ActiveMod>, i: nat, j: nat)
    requires InSequence(mods) && i < j < |mods|
    ensures mods[i].modId != mods[j].modId
  {
    assert InOrder(mods, j);
  }

  lemma {:induction false} CountsStay(mods: seq<ActiveMod>, k: nat, n: nat, id: string, behaviour: string -> Behaviour)
    requires k <= n <= |mods| && forall j | k <= j < n :: mods[j].modId != id
    ensures Stopped(Trace(mods[..n], behaviour), Pushed(mods[..n], behaviour), id)
         == Stopped(Trace(mods[..k], behaviour), Pushed(mods[..k], behaviour), id)
  {
    if n > k {
      CountsStay(mods, k, n - 1, id, behaviour);
      CountsStep(mods, n - 1, id, behaviour);
    }
  }

  lemma {:induction false} StopsCount(pushed: seq<string>, id: string)
    ensures Times(Stops(pushed), Shutdown(id)) == multiset(pushed)[id]
  {
    if pushed != [] {
      var n := |pushed| - 1;
      StopsCount(pushed[..n], id);
      assert Stops(pushed) == [Shutdown(pushed[n])] + Stops(pushed[..n]);
      assert pushed == pushed[..n] + [pushed[n]];
    }
  }

  // From activation to disposal, every instance that can be shut down is shut down
  // exactly once, and nothing else ever is.
  lemma ShutDownOnce(mods: seq<ActiveMod>, k: nat, behaviour: string -> Behaviour)
    requires k < |mods| && InSequence(mods)
    ensures Times(Complete(mods, behaviour), Shutdown(mods[k].modId)) == if Stoppable(mods, k, behaviour) then 1 else 0
  {
    assert mods[..|mods|] == mods;
    CountsAt(mods, k, behaviour);
    forall j | k < j < |mods| ensures mods[j].modId != mods[k].modId {
      IdsDiffer(mods, k, j);
    }
    CountsStay(mods, k + 1, |mods|, mods[k].modId, behaviour);
    TimesAppend(Trace(mods, behaviour), Stops(Pushed(mods, behaviour)), Shutdown(mods[k].modId));
    StopsCount(Pushed(mods, behaviour), mods[k].modId);
  }

  lemma NoOtherIsShutDown(mods: seq<ActiveMod>, id: string, behaviour: string -> Behaviour)
    requires !Earlier(mods, |mods|, id)
    ensures Times(Complete(mods, behaviour), Shutdown(id)) == 0
  {
    assert mods[..|mods|] == mods;
    OnlyListed(mods, |mods|, behaviour);
    StopsCount(Pushed(mods, behaviour), id);
  }

  // Of all calls from activation to disposal those of this mod are these alone, and
  // they stand at p.
  predicate CalledAt(calls: seq<Call>, own: seq<Call>, id: string, p: nat) {
    && p + |own| <= |calls| && calls[p..p + |own|] == own
    && forall q | 0 <= q < |calls| && calls[q].modId == id :: p <= q < p + |own|
  }

  // A failing instance is shut down at its failure: after the calls of the mods before
  // it come its initialization and its shutdown, and it is not called at any other time.
  lemma FailureStopsAtOnce(mods: seq<ActiveMod>, k: nat, behaviour: string -> Behaviour)
    requires k < |mods| && InSequence(mods) && Stoppable(mods, k, behaviour) && !Works(mods[k], behaviour(mods[k].modId))
    ensures var id := mods[k].modId;
            var own := (if behaviour(id).configured then [Initialize(id)] else []) + [Shutdown(id)];
            CalledAt(Complete(mods, behaviour), own, id, |Trace(mods[..k], behaviour)|)
  {
    FailingCalls(mods[k], behaviour(mods[k].modId), LoadedSet(mods[..k], behaviour));
    OwnCallsStand(mods, k, behaviour);
  }

  lemma FailingCalls(m: ActiveMod, b: Behaviour, loaded: set<string>)
    requires Starts(m, b, loaded) && b.stoppable && !Works(m, b)
    ensures CallsOf(m, b, loaded) == (if b.configured then [Initialize(m.modId)] else []) + [Shutdown(m.modId)]
    ensures Shutdown(m.modId) in CallsOf(m, b, loaded)
  {
  }

  lemma OwnCallsStand(mods: seq<ActiveMod>, k: nat, behaviour: string -> Behaviour)
    requires k < |mods| && InSequence(mods)
    requires Shutdown(mods[k].modId) in CallsOf(mods[k], behaviour(mods[k].modId), LoadedSet(mods[..k], behaviour))
    ensures var own := CallsOf(mods[k], behaviour(mods[k].modId), LoadedSet(mods[..k], behaviour));
            CalledAt(Complete(mods, behaviour), own, mods[k].modId, |Trace(mods[..k], behaviour)|)
  {
    var own := CallsOf(mods[k], behaviour(mods[k].modId), LoadedSet(mods[..k], behaviour));
    OwnPart(mods, k, behaviour, own);
    NotStoppedAgain(mods, k, behaviour, Trace(mods, behaviour));
    CalledInPart(Trace(mods[..k], behaviour), own, Trace(mods, behaviour), Stops(Pushed(mods, behaviour)), mods[k].modId);
  }

  // The calls of one mod stand in the trace where its turn is.
  predicate IsPart(before: seq<Call>, own: seq<Call>, trace: seq<Call>, id: string) {
    && before + own <= trace
    && (forall c | c in own :: c in trace)
    && forall q | 0 <= q < |trace| && trace[q].modId == id :: |before| <= q < |before| + |own|
  }

  lemma OwnPart(mods: seq<ActiveMod>, k: nat, behaviour: string -> Behaviour, own: seq<Call>)
    requires k < |mods| && InSequence(mods)
    requires own == CallsOf(mods[k], behaviour(mods[k].modId), LoadedSet(mods[..k], behaviour))
    ensures IsPart(Trace(mods[..k], behaviour), own, Trace(mods, behaviour), mods[k].modId)
  {
    var trace := Trace(mods, behaviour);
    assert mods[..|mods|] == mods;
    TraceTail(mods, k + 1, |mods|, behaviour);
    TraceStep(mods, k, behaviour);
    assert forall c | c in own :: c in Trace(mods[..k + 1], behaviour);
    forall q | 0 <= q < |trace| && trace[q].modId == mods[k].modId
      ensures |Trace(mods[..k], behaviour)| <= q < |Trace(mods[..k + 1], behaviour)|
    {
      StartsInTail(mods, k, q, behaviour);
    }
  }

  lemma CalledInPart(before: seq<Call>, own: seq<Call>, trace: seq<Call>, last: seq<Call>, id: string)
    requires IsPart(before, own, trace, id) && forall c | c in last :: c.modId != id
    ensures CalledAt(trace + last, own, id, |before|)
  {
    assert (before + own)[|before|..] == own;
    forall q | |trace| <= q < |trace + last| ensures (trace + last)[q].modId != id {
      assert last[q - |trace|] in last;
    }
  }

  // An instance whose shutdown stands in the trace is not shut down at the end.
  lemma NotStoppedAgain(mods: seq<ActiveMod>, k: nat, behaviour: string -> Behaviour, trace: seq<Call>)
    requires k < |mods| && InSequence(mods) && trace == Trace(mods, behaviour) && Shutdown(mods[k].modId) in trace
    ensures forall c | c in Stops(Pushed(mods, behaviour)) :: c.modId != mods[k].modId
  {
    var id, last := mods[k].modId, Stops(Pushed(mods, behaviour));
    ShutDownOnce(mods, k, behaviour);
    TimesAppend(trace, last, Shutdown(id));
    forall c | c in last ensures c != Shutdown(id) && c.Shutdown? {
    }
  }

  // ---- Order of calls ----

  // Ids called or pushed for the mods from j on.
  ghost predicate Later(mods: seq<ActiveMod>, j: nat, id: string) {
    exists k :: j <= k < |mods| && mods[k].modId == id
  }

  lemma {:induction false} PushedTail(mods: seq<ActiveMod>, j: nat, n: nat, behaviour: string -> Behaviour)
    requires j <= n <= |mods|
    ensures var head, all := Pushed(mods[..j], behaviour), Pushed(mods[..n], behaviour);
            head <= all && forall x | |head| <= x < |all| :: Later(mods, j, all[x])
  {
    if j < n {
      PushedTail(mods, j, n - 1, behaviour);
      TraceStep(mods, n - 1, behaviour);
      assert Later(mods, j, mods[n - 1].modId);
    }
  }

  lemma TailGrows(mods: seq<ActiveMod>, j: nat, head: seq<Call>, all: seq<Call>, own: seq<Call>)
    requires head <= all && forall x | |head| <= x < |all| :: Later(mods, j, all[x].modId)
    requires forall c | c in own :: Later(mods, j, c.modId)
    ensures head <= all + own && forall x | |head| <= x < |all + own| :: Later(mods, j, (all + own)[x].modId)
  {
    forall x | |head| <= x < |all + own| ensures Later(mods, j, (all + own)[x].modId) {
      if x >= |all| {
        assert own[x - |all|] in own;
      }
    }
  }

  lemma OwnLater(mods: seq<ActiveMod>, j: nat, n: nat, b: Behaviour, loaded: set<string>)
    requires j <= n < |mods|
    ensures forall c | c in CallsOf(mods[n], b, loaded) :: Later(mods, j, c.modId)
  {
    OwnCalls(mods[n], b, loaded);
    assert Later(mods, j, mods[n].modId);
  }

  lemma {:induction false} TraceTail(mods: seq<ActiveMod>, j: nat, n: nat, behaviour: string -> Behaviour)
    requires j <= n <= |mods|
    ensures var head, all := Trace(mods[..j], behaviour), Trace(mods[..n], behaviour);
            head <= all && forall x | |head| <= x < |all| :: Later(mods, j, all[x].modId)
  {
    if j < n {
      var m, loaded := mods[n - 1], LoadedSet(mods[..n - 1], behaviour);
      TraceTail(mods, j, n - 1, behaviour);
      TraceStep(mods, n - 1, behaviour);
      OwnLater(mods, j, n - 1, behaviour(m.modId), loaded);
      TailGrows(mods, j, Trace(mods[..j], behaviour), Trace(mods[..n - 1], behaviour), CallsOf(m, behaviour(m.modId), loaded));
    }
  }

  lemma NotEarlierAndLater(mods: seq<ActiveMod>, j: nat, id: string)
    requires InSequence(mods) && j <= |mods|
    ensures !(Earlier(mods, j, id) && Later(mods, j, id))
  {
    forall i, k | 0 <= i < j <= k < |mods| ensures mods[i].modId != mods[k].modId {
      IdsDiffer(mods, i, k);
    }
  }

  predicate KeptAt(mods: seq<ActiveMod>, k: nat, behaviour: string -> Behaviour)
    requires k < |mods|
  {
    Kept(mods[k], behaviour(mods[k].modId), LoadedSet(mods[..k], behaviour))
  }

  // A mod that is kept is not shut down before the end.
  lemma KeptIsNotStopped(mods: seq<ActiveMod>, k: nat, behaviour: string -> Behaviour)
    requires k < |mods| && InSequence(mods) && KeptAt(mods, k, behaviour)
    ensures Shutdown(mods[k].modId) !in Trace(mods, behaviour)
  {
    var id := mods[k].modId;
    ShutDownOnce(mods, k, behaviour);
    TimesAppend(Trace(mods, behaviour), Stops(Pushed(mods, behaviour)), Shutdown(id));
    StopsCount(Pushed(mods, behaviour), id);
    TraceStep(mods, k, behaviour);
    PushedTail(mods, k + 1, |mods|, behaviour);
    assert mods[..|mods|] == mods;
    assert Pushed(mods, behaviour)[|Pushed(mods[..k], behaviour)|] == id;
    assert multiset(Pushed(mods, behaviour))[id] >= 1;
  }

  lemma PushedInOrder(mods: seq<ActiveMod>, i: nat, j: nat, a: nat, c: nat, behaviour: string -> Behaviour)
    requires i < j < |mods| && InSequence(mods)
    requires a < |Pushed(mods, behaviour)| && Pushed(mods, behaviour)[a] == mods[i].modId
    requires c < |Pushed(mods, behaviour)| && Pushed(mods, behaviour)[c] == mods[j].modId
    ensures a < c
  {
    assert mods[..|mods|] == mods;
    PushedTail(mods, j, |mods|, behaviour);
    OnlyListed(mods, j, behaviour);
    NotEarlierAndLater(mods, j, mods[i].modId);
    NotEarlierAndLater(mods, j, mods[j].modId);
    assert Earlier(mods, j, mods[i].modId) && Later(mods, j, mods[j].modId);
    var head := Pushed(mods[..j], behaviour);
    assert forall x | 0 <= x < |head| :: head[x] in head;
  }

  lemma StoppedAtEnd(trace: seq<Call>, pushed: seq<string>, p: nat, id: string)
    requires p < |trace + Stops(pushed)| && (trace + Stops(pushed))[p] == Shutdown(id) && Shutdown(id) !in trace
    ensures p >= |trace| && pushed[|pushed| - 1 - (p - |trace|)] == id
  {
    assert forall x | 0 <= x < |trace| :: trace[x] in trace;
  }

  // Loaded mods are shut down in the reverse of their order, so a mod always goes
  // before everything it requires.
  lemma DependentsFirst(mods: seq<ActiveMod>, i: nat, j: nat, p: nat, q: nat, behaviour: string -> Behaviour)
    requires i < j < |mods| && InSequence(mods) && KeptAt(mods, i, behaviour) && KeptAt(mods, j, behaviour)
    requires p < |Complete(mods, behaviour)| && Complete(mods, behaviour)[p] == Shutdown(mods[j].modId)
    requires q < |Complete(mods, behaviour)| && Complete(mods, behaviour)[q] == Shutdown(mods[i].modId)
    ensures p < q
  {
    var a := KeptPlace(mods, i, q, behaviour);
    var c := KeptPlace(mods, j, p, behaviour);
    PushedInOrder(mods, i, j, a, c, behaviour);
  }

  // A mod that was kept a-th is shut down a-th from the end.
  lemma KeptPlace(mods: seq<ActiveMod>, k: nat, p: nat, behaviour: string -> Behaviour) returns (a: nat)
    requires k < |mods| && InSequence(mods) && KeptAt(mods, k, behaviour)
    requires p < |Complete(mods, behaviour)| && Complete(mods, behaviour)[p] == Shutdown(mods[k].modId)
    ensures a < |Pushed(mods, behaviour)| && Pushed(mods, behaviour)[a] == mods[k].modId
    ensures p + a + 1 == |Trace(mods, behaviour)| + |Pushed(mods, behaviour)|
  {
    KeptIsNotStopped(mods, k, behaviour);
    StoppedAtEnd(Trace(mods, behaviour), Pushed(mods, behaviour), p, mods[k].modId);
    a := |Pushed(mods, behaviour)| - 1 - (p - |Trace(mods, behaviour)|);
  }

  predicate Runs(c: Call, id: string) {
    c == Initialize(id) || c == Apply(id)
  }

  lemma {:induction false} LoadedWereRun(mods: seq<ActiveMod>, n: nat, id: string, behaviour: string -> Behaviour)
    requires n <= |mods| && id in LoadedSet(mods[..n], behaviour)
    ensures exists p :: 0 <= p < |Trace(mods[..n], behaviour)| && Runs(Trace(mods[..n], behaviour)[p], id)
  {
    var init, m := mods[..n - 1], mods[n - 1];
    assert mods[..n][..n - 1] == init;
    TraceStep(mods, n - 1, behaviour);
    if id in LoadedSet(init, behaviour) {
      LoadedWereRun(mods, n - 1, id, behaviour);
      var p :| 0 <= p < |Trace(init, behaviour)| && Runs(Trace(init, behaviour)[p], id);
      assert Trace(mods[..n], behaviour)[p] == Trace(init, behaviour)[p];
    } else {
      var own := CallsOf(m, behaviour(m.modId), LoadedSet(init, behaviour));
      assert Runs(own[0], id);
      assert Trace(mods[..n], behaviour)[|Trace(init, behaviour)|] == own[0];
    }
  }

  // A mod runs only after everything it requires has run and loaded.
  lemma RunsAfterRequirements(mods: seq<ActiveMod>, k: nat, p: nat, id: string, behaviour: string -> Behaviour)
    requires k < |mods| && InSequence(mods) && id in mods[k].required
    requires p < |Trace(mods, behaviour)| && Runs(Trace(mods, behaviour)[p], mods[k].modId)
    ensures id in LoadedSet(mods, behaviour)
    ensures exists q :: 0 <= q < p && Runs(Trace(mods, behaviour)[q], id)
  {
    var m, head := mods[k], Trace(mods[..k], behaviour);
    assert mods[..|mods|] == mods;
    StartsInTail(mods, k, p, behaviour);
    IsSatisfied(mods, k, p, behaviour);
    LoadedWereRun(mods, k, id, behaviour);
    var q :| 0 <= q < |head| && Runs(head[q], id);
    TraceTail(mods, k, |mods|, behaviour);
    assert Trace(mods, behaviour)[q] == head[q];
    SatisfiedEarly(mods, k, behaviour);
  }

  lemma StartsInTail(mods: seq<ActiveMod>, k: nat, p: nat, behaviour: string -> Behaviour)
    requires k < |mods| && InSequence(mods)
    requires p < |Trace(mods, behaviour)| && Trace(mods, behaviour)[p].modId == mods[k].modId
    ensures |Trace(mods[..k], behaviour)| <= p < |Trace(mods[..k + 1], behaviour)|
  {
    assert mods[..|mods|] == mods;
    var head, upto := Trace(mods[..k], behaviour), Trace(mods[..k + 1], behaviour);
    TraceTail(mods, k, |mods|, behaviour);
    TraceTail(mods, k + 1, |mods|, behaviour);
    OnlyListed(mods, k, behaviour);
    assert p < |head| ==> head[p] in head;
    NotEarlierAndLater(mods, k, mods[k].modId);
    NotEarlierAndLater(mods, k + 1, mods[k].modId);
    assert Later(mods, k, mods[k].modId) && Earlier(mods, k + 1, mods[k].modId);
  }

  lemma IsSatisfied(mods: seq<ActiveMod>, k: nat, p: nat, behaviour: string -> Behaviour)
    requires k < |mods| && |Trace(mods[..k], behaviour)| <= p < |Trace(mods[..k + 1], behaviour)|
    ensures Satisfied(mods[k], LoadedSet(mods[..k], behaviour))
  {
    TraceStep(mods, k, behaviour);
  }

  // ---- Reports, calls and what is kept, in terms of how each mod behaves ----

  lemma LoadedLoads(mods: seq<ActiveMod>, behaviour: string -> Behaviour)
    requires InSequence(mods)
    ensures Loads(mods, behaviour, LoadedSet(mods, behaviour))
  {
    LoadedSettles(mods, behaviour);
    forall k | 0 <= k < |mods|
      ensures mods[k].modId in LoadedSet(mods, behaviour) <==> LoadsBy(mods[k], behaviour(mods[k].modId), LoadedSet(mods, behaviour))
    {
      assert mods[k] in mods;
    }
  }

  lemma {:induction false} ReportAt(mods: seq<ActiveMod>, k: nat, behaviour: string -> Behaviour)
    requires k < |mods|
    ensures Reports(mods, behaviour)[k].outcome == OutcomeOf(mods[k], behaviour(mods[k].modId), LoadedSet(mods[..k], behaviour))
    decreases |mods|
  {
    var n := |mods| - 1;
    if k < n {
      ReportAt(mods[..n], k, behaviour);
      assert mods[..n][..k] == mods[..k];
    }
  }

  lemma ReportsTell(mods: seq<ActiveMod>, behaviour: string -> Behaviour)
    requires InSequence(mods)
    ensures TellsAll(mods, behaviour, LoadedSet(mods, behaviour), Reports(mods, behaviour))
  {
    LoadedSettles(mods, behaviour);
    forall k | 0 <= k < |mods|
      ensures var s := LoadedSet(mods, behaviour);
              Tells(mods[k], behaviour(mods[k].modId), s, mods[k].modId in s, Reports(mods, behaviour)[k].outcome)
    {
      ReportAt(mods, k, behaviour);
      SatisfiedEarly(mods, k, behaviour);
      assert mods[k] in mods;
    }
  }

  lemma InPart(before: seq<Call>, own: seq<Call>, trace: seq<Call>, c: Call)
    requires IsPart(before, own, trace, c.modId)
    ensures c in trace <==> c in own
  {
    if c in trace {
      var q :| 0 <= q < |trace| && trace[q] == c;
      assert trace[q] == (before + own)[q];
    }
  }

  lemma CallInTrace(mods: seq<ActiveMod>, k: nat, c: Call, behaviour: string -> Behaviour)
    requires k < |mods| && InSequence(mods) && c.modId == mods[k].modId
    ensures c in Trace(mods, behaviour) <==> c in CallsOf(mods[k], behaviour(mods[k].modId), LoadedSet(mods[..k], behaviour))
  {
    var own := CallsOf(mods[k], behaviour(mods[k].modId), LoadedSet(mods[..k], behaviour));
    OwnPart(mods, k, behaviour, own);
    InPart(Trace(mods[..k], behaviour), own, Trace(mods, behaviour), c);
  }

  lemma InTurnMore(mods: seq<ActiveMod>, n: nat, calls: seq<Call>, at: seq<nat>, own: seq<Call>) returns (longer: seq<nat>)
    requires n < |mods| && InTurn(mods, n, calls, at)
    requires forall c | c in own :: c.modId == mods[n].modId
    requires forall i, j | 0 <= i < j < |own| :: own[i].Initialize? && own[j].Shutdown?
    ensures InTurn(mods, n + 1, calls + own, longer)
  {
    longer := at + seq(|own|, i => n);
    var all := calls + own;
    forall j | 0 <= j < |all| ensures longer[j] < n + 1 && all[j].modId == mods[longer[j]].modId {
      if j >= |calls| {
        assert own[j - |calls|] in own;
      }
    }
    forall i, j | 0 <= i < j < |all|
      ensures longer[i] < longer[j] || (longer[i] == longer[j] && all[i].Initialize? && all[j].Shutdown?)
    {
      if i >= |calls| {
        assert own[i - |calls|].Initialize? && own[j - |calls|].Shutdown?;
      }
    }
  }

  // A mod is called twice only to be initialised and then stopped.
  lemma OwnPair(m: ActiveMod, b: Behaviour, loaded: set<string>)
    ensures var own := CallsOf(m, b, loaded);
            forall i, j | 0 <= i < j < |own| :: own[i].Initialize? && own[j].Shutdown?
  {
    var own := CallsOf(m, b, loaded);
    assert |own| <= 2 && (|own| == 2 ==> own == [Initialize(m.modId), Shutdown(m.modId)]);
  }

  lemma OneMoreTurn(mods: seq<ActiveMod>, n: nat, behaviour: string -> Behaviour, before: seq<nat>) returns (at: seq<nat>)
    requires n < |mods| && InTurn(mods, n, Trace(mods[..n], behaviour), before)
    ensures InTurn(mods, n + 1, Trace(mods[..n + 1], behaviour), at)
  {
    var own := CallsOf(mods[n], behaviour(mods[n].modId), LoadedSet(mods[..n], behaviour));
    OwnCalls(mods[n], behaviour(mods[n].modId), LoadedSet(mods[..n], behaviour));
    OwnPair(mods[n], behaviour(mods[n].modId), LoadedSet(mods[..n], behaviour));
    at := InTurnMore(mods, n, Trace(mods[..n], behaviour), before, own);
    TraceStep(mods, n, behaviour);
  }

  lemma {:induction false} TraceInTurn(mods: seq<ActiveMod>, n: nat, behaviour: string -> Behaviour) returns (at: seq<nat>)
    requires n <= |mods|
    ensures InTurn(mods, n, Trace(mods[..n], behaviour), at)
  {
    if n == 0 {
      at := [];
    } else {
      at := TraceInTurn(mods, n - 1, behaviour);
      at := OneMoreTurn(mods, n - 1, behaviour, at);
    }
  }

  lemma TraceCalls(mods: seq<ActiveMod>, behaviour: string -> Behaviour)
    requires InSequence(mods)
    ensures CallsAll(mods, behaviour, LoadedSet(mods, behaviour), Trace(mods, behaviour))
  {
    var at := TraceInTurn(mods, |mods|, behaviour);
    assert mods[..|mods|] == mods;
    forall k | 0 <= k < |mods|
      ensures Calls(mods[k], behaviour(mods[k].modId), LoadedSet(mods, behaviour), Trace(mods, behaviour))
    {
      CallsOfOne(mods, k, behaviour);
    }
  }

  lemma OwnCallsMeaning(m: ActiveMod, b: Behaviour, loaded: set<string>, s: set<string>)
    requires Satisfied(m, loaded) <==> Satisfied(m, s)
    requires m.modId in s <==> Works(m, b) && Satisfied(m, s)
    ensures Calls(m, b, s, CallsOf(m, b, loaded))
  {
  }

  lemma CallsOfOne(mods: seq<ActiveMod>, k: nat, behaviour: string -> Behaviour)
    requires InSequence(mods) && k < |mods|
    ensures Calls(mods[k], behaviour(mods[k].modId), LoadedSet(mods, behaviour), Trace(mods, behaviour))
  {
    LoadedSettles(mods, behaviour);
    SatisfiedEarly(mods, k, behaviour);
    assert mods[k] in mods;
    OwnCallsMeaning(mods[k], behaviour(mods[k].modId), LoadedSet(mods[..k], behaviour), LoadedSet(mods, behaviour));
    CallInTrace(mods, k, Apply(mods[k].modId), behaviour);
    CallInTrace(mods, k, Initialize(mods[k].modId), behaviour);
    CallInTrace(mods, k, Shutdown(mods[k].modId), behaviour);
  }

  // Which mods are kept, by their places.
  ghost predicate KeptPlaces(mods: seq<ActiveMod>, n: nat, behaviour: string -> Behaviour, kept: seq<string>, pos: seq<nat>) {
    && n <= |mods| && Increasing(pos) && |pos| == |kept|
    && (forall k: nat :: k in pos <==> k < n && KeptAt(mods, k, behaviour))
    && forall i | 0 <= i < |pos| :: pos[i] < n && kept[i] == mods[pos[i]].modId
  }

  lemma OneMoreKept(mods: seq<ActiveMod>, n: nat, behaviour: string -> Behaviour, kept: seq<string>, pos: seq<nat>)
    requires n < |mods| && KeptPlaces(mods, n, behaviour, kept, pos)
    ensures KeptAt(mods, n, behaviour) ==> KeptPlaces(mods, n + 1, behaviour, kept + [mods[n].modId], pos + [n])
    ensures !KeptAt(mods, n, behaviour) ==> KeptPlaces(mods, n + 1, behaviour, kept, pos)
  {
    assert forall k :: k in pos + [n] <==> k in pos || k == n;
  }

  lemma {:induction false} PushedPlaces(mods: seq<ActiveMod>, n: nat, behaviour: string -> Behaviour) returns (pos: seq<nat>)
    requires n <= |mods|
    ensures KeptPlaces(mods, n, behaviour, Pushed(mods[..n], behaviour), pos)
  {
    if n == 0 {
      pos := [];
    } else {
      pos := PushedPlaces(mods, n - 1, behaviour);
      TraceStep(mods, n - 1, behaviour);
      OneMoreKept(mods, n - 1, behaviour, Pushed(mods[..n - 1], behaviour), pos);
      if KeptAt(mods, n - 1, behaviour) {
        pos := pos + [n - 1];
      }
    }
  }

  lemma PushedStay(mods: seq<ActiveMod>, behaviour: string -> Behaviour)
    requires InSequence(mods)
    ensures KeepsAll(mods, behaviour, LoadedSet(mods, behaviour), Pushed(mods, behaviour))
  {
    var pos := PushedPlaces(mods, |mods|, behaviour);
    assert mods[..|mods|] == mods;
    LoadedSettles(mods, behaviour);
    forall k: nat ensures k in pos <==> k < |mods| && Stays(mods[k], behaviour(mods[k].modId), LoadedSet(mods, behaviour)) {
      if k < |mods| {
        SatisfiedEarly(mods, k, behaviour);
        assert mods[k] in mods;
      }
    }
  }
}
