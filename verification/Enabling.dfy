// Enabling a mod in the collection, from what it needs to the selection that is kept.
module Enabling {
  import opened Results
  import opened References
  import opened MixedOrder
  import opened Requirements
  import Selection
  import ActivationRequest

  ghost predicate Owned(store: Selection.Store, r: Reference) {
    match r
    case Registry(x) => FindEntry(store.installed, x).Some?
    case Local(l) => exists e | e in store.entries :: e.reference == Stored(l)
  }

  function Without(entries: seq<Reference>, a: Reference): (r: seq<Reference>)
    ensures forall x :: x in r <==> x in entries && x != a
  {
    if entries == [] then []
    else
      var n := |entries| - 1;
      Without(entries[..n], a) + if entries[n] == a then [] else [entries[n]]
  }

  // The others stay, in their order.
  lemma {:induction false} WithoutOthers(entries: seq<Reference>, a: Reference)
    ensures a !in entries ==> Without(entries, a) == entries
  {
    if entries != [] {
      var n := |entries| - 1;
      WithoutOthers(entries[..n], a);
      assert entries == entries[..n] + [entries[n]];
    }
  }

  lemma {:induction false} WithoutBoth(s: seq<Reference>, t: seq<Reference>, a: Reference)
    ensures Without(s + t, a) == Without(s, a) + Without(t, a)
  {
    if t == [] {
      assert s + t == s;
    } else {
      var n := |t| - 1;
      WithoutBoth(s, t[..n], a);
      assert (s + t)[..|s| + n] == s + t[..n];
    }
  }

  lemma OnlyHere(entries: seq<Reference>, i: nat)
    requires OneRuntimeId(entries) && i < |entries|
    ensures entries[i] !in entries[..i] && entries[i] !in entries[i + 1..]
  {
    forall j | 0 <= j < |entries| && j != i ensures entries[j] != entries[i] {
      if j < i {
        assert RuntimeId(entries[j]) != RuntimeId(entries[i]);
      } else {
        assert RuntimeId(entries[i]) != RuntimeId(entries[j]);
      }
    }
  }

  lemma WithoutLast(front: seq<Reference>, a: Reference)
    requires a !in front
    ensures Without(front + [a], a) == front
  {
    var all := front + [a];
    assert all[..|front|] == front && all[|front|] == a;
    WithoutOthers(front, a);
  }

  lemma WithoutOne(entries: seq<Reference>, i: nat)
    requires OneRuntimeId(entries) && i < |entries|
    ensures Without(entries, entries[i]) == entries[..i] + entries[i + 1..]
  {
    OnlyHere(entries, i);
    WithoutLast(entries[..i], entries[i]);
    WithoutOthers(entries[i + 1..], entries[i]);
    WithoutBoth(entries[..i] + [entries[i]], entries[i + 1..], entries[i]);
    assert entries[..i] + [entries[i]] + entries[i + 1..] == entries;
  }

  // The entry is gone, and nothing else has moved.
  ghost predicate LeftOut(entries: seq<Reference>, a: Reference, r: seq<Reference>) {
    && (a !in entries ==> r == entries)
    && forall i | 0 <= i < |entries| && entries[i] == a :: r == entries[..i] + entries[i + 1..]
  }

  lemma WithoutLeavesOut(entries: seq<Reference>, a: Reference)
    requires OneRuntimeId(entries)
    ensures LeftOut(entries, a, Without(entries, a))
  {
    WithoutOthers(entries, a);
    forall i | 0 <= i < |entries| && entries[i] == a ensures Without(entries, a) == entries[..i] + entries[i + 1..] {
      WithoutOne(entries, i);
    }
  }

  ghost predicate CanJoin(store: Selection.Store, entries: seq<Reference>, a: Reference) {
    Resolvable(store.locals, a, {}) && Enableable(store.locals, entries, a)
  }

  // The new list becomes a document, and each of its artifacts is as recorded.
  ghost predicate Sound(store: Selection.Store, verified: set<Reference>, entries: seq<Reference>) {
    ActivationRequest.SelectionReady(store, entries) && forall x | x in entries :: x in verified
  }

  // `SetEnabled`: the collection afterwards, if it may change. A mod of the library can
  // be enabled exactly when it can be resolved, nothing it needs meets another build of
  // its mod, and the list that results is a selection the game can be given. current:
  // nobody changed the collection meanwhile; verified: the artifacts that are as recorded.
  method SetEnabled(store: Selection.Store, entries: seq<Reference>, a: Reference, enabled: bool, current: bool, verified: set<Reference>)
    returns (r: Option<seq<Reference>>, asked: seq<Reference>)
    requires OneRuntimeId(entries)
    ensures enabled && CanJoin(store, entries, a) ==> EnabledIn(store.locals, entries, a, asked)
    ensures !enabled ==> LeftOut(entries, a, asked)
    ensures r.Some? <==>
      && ValidReference(a) && current && Owned(store, a)
      && (enabled ==> CanJoin(store, entries, a) && Sound(store, verified, asked))
    ensures r.Some? ==> r.value == asked
  {
    asked := Without(entries, a);
    WithoutLeavesOut(entries, a);
    if enabled {
      var joined := EnableNeeded(store.locals, entries, a);
      if joined.None? {
        return None, asked;
      }
      asked := joined.value;
    }
    var owned := IsOwned(store, a);
    if !ValidReference(a) || !current || !owned {
      return None, asked;
    }
    if enabled {
      var document := ActivationRequest.RequestSelection(store, asked);
      if document.Err? || exists x :: x in asked && x !in verified {
        return None, asked;
      }
    }
    return Some(asked), asked;
  }

  method IsOwned(store: Selection.Store, r: Reference) returns (owned: bool)
    ensures owned <==> Owned(store, r)
  {
    match r {
      case Registry(x) => return FindEntry(store.installed, x).Some?;
      case Local(l) => return exists e :: e in store.entries && e.reference == Stored(l);
    }
  }
}
