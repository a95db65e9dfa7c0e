// Inventories without repeats, filled from several lists in turn and cut to size.
module Inventories {
  import opened Results
  import opened References
  import opened Sequences
  import opened ActivationDocument

  // Appends the entries whose ids have not been seen yet.
  function AppendUnseen(acc: seq<Listed>, more: seq<Listed>): seq<Listed> {
    if more == [] then acc
    else
      var n := |more| - 1;
      var rest := AppendUnseen(acc, more[..n]);
      if more[n].modId in IdsOf(rest) then rest else rest + [more[n]]
  }

  function IdsOf(listed: seq<Listed>): set<string> {
    set i | 0 <= i < |listed| :: listed[i].modId
  }

  lemma IdsAppend(listed: seq<Listed>, item: Listed)
    ensures IdsOf(listed + [item]) == IdsOf(listed) + {item.modId}
  {
    var all := listed + [item];
    forall id ensures id in IdsOf(all) <==> id in IdsOf(listed) + {item.modId} {
      if id in IdsOf(listed) {
        var i :| 0 <= i < |listed| && listed[i].modId == id;
        assert all[i].modId == id;
      }
      assert all[|listed|].modId == item.modId;
    }
  }

  lemma HasListedMeaning(listed: seq<Listed>, id: string)
    ensures HasListed(listed, id) <==> id in IdsOf(listed)
  {
  }

  // Nothing is lost from the front, nothing repeats, and every id is there.
  lemma {:induction false} AppendUnseenMeaning(acc: seq<Listed>, more: seq<Listed>)
    requires ListedOnce(acc)
    ensures var r := AppendUnseen(acc, more);
            acc <= r && ListedOnce(r) && IdsOf(r) == IdsOf(acc) + IdsOf(more)
  {
    if more != [] {
      var n := |more| - 1;
      AppendUnseenMeaning(acc, more[..n]);
      var rest := AppendUnseen(acc, more[..n]);
      assert more == more[..n] + [more[n]];
      IdsAppend(more[..n], more[n]);
      IdsAppend(rest, more[n]);
      ListedAppend(rest, more[n]);
      HasListedMeaning(rest, more[n].modId);
    }
  }

  // After `acc` come items of `more` in their order, each the first with its id.
  ghost predicate TakesFirsts(acc: seq<Listed>, more: seq<Listed>, r: seq<Listed>) {
    exists pos: seq<nat> :: Increasing(pos) && TakesAt(acc, more, r, pos)
  }

  ghost predicate TakesAt(acc: seq<Listed>, more: seq<Listed>, r: seq<Listed>, pos: seq<nat>) {
    && acc <= r && |r| == |acc| + |pos|
    && forall i | 0 <= i < |pos| ::
         pos[i] < |more| && r[|acc| + i] == more[pos[i]] && forall q | 0 <= q < pos[i] :: more[q].modId != more[pos[i]].modId
  }

  lemma TakesOneMore(acc: seq<Listed>, more: seq<Listed>, rest: seq<Listed>, pos: seq<nat>)
    requires more != [] && Increasing(pos) && TakesAt(acc, more[..|more| - 1], rest, pos)
    requires forall q | 0 <= q < |more| - 1 :: more[q].modId != more[|more| - 1].modId
    ensures TakesFirsts(acc, more, rest + [more[|more| - 1]])
  {
    var n := |more| - 1;
    assert Increasing(pos + [n]);
    assert TakesAt(acc, more, rest + [more[n]], pos + [n]);
  }

  lemma {:induction false} AppendTakesFirsts(acc: seq<Listed>, more: seq<Listed>)
    requires ListedOnce(acc)
    ensures TakesFirsts(acc, more, AppendUnseen(acc, more))
  {
    if more == [] {
      assert TakesAt(acc, more, acc, []);
    } else {
      var n := |more| - 1;
      AppendTakesFirsts(acc, more[..n]);
      AppendUnseenMeaning(acc, more[..n]);
      var rest := AppendUnseen(acc, more[..n]);
      var pos: seq<nat> :| Increasing(pos) && TakesAt(acc, more[..n], rest, pos);
      if more[n].modId in IdsOf(rest) {
        assert TakesAt(acc, more, rest, pos);
      } else {
        forall q | 0 <= q < n ensures more[q].modId != more[n].modId {
          assert more[..n][q].modId in IdsOf(more[..n]);
        }
        TakesOneMore(acc, more, rest, pos);
      }
    }
  }

  // A list without repeats is taken as it is.
  lemma {:induction false} AppendDistinct(first: seq<Listed>)
    requires ListedOnce(first)
    ensures AppendUnseen([], first) == first
  {
    if first != [] {
      var n := |first| - 1;
      AppendDistinct(first[..n]);
      assert first == first[..n] + [first[n]];
    }
  }

  lemma {:induction false} AppendInTurn(acc: seq<Listed>, first: seq<Listed>, second: seq<Listed>)
    ensures AppendUnseen(acc, first + second) == AppendUnseen(AppendUnseen(acc, first), second)
  {
    if second == [] {
      assert first + second == first;
    } else {
      var n := |second| - 1;
      AppendInTurn(acc, first, second[..n]);
      assert (first + second)[..|first| + n] == first + second[..n];
    }
  }

  // ---- Cutting to size ----

  function Kept(full: seq<Listed>): seq<Listed> {
    if |full| <= MAX_MODS then full else full[..MAX_MODS]
  }

  // `saturating_sub`
  function Omitted(full: seq<Listed>): nat {
    if |full| <= MAX_MODS then 0 else |full| - MAX_MODS
  }

  // Nothing that stands among the first 256 is lost; the count is exact.
  lemma CutMeaning(full: seq<Listed>, front: seq<Listed>)
    requires ListedOnce(full) && front <= full && |front| <= MAX_MODS
    ensures front <= Kept(full) && ListedOnce(Kept(full))
    ensures |Kept(full)| + Omitted(full) == |full|
    ensures |Kept(full)| <= MAX_MODS && (Omitted(full) == 0 || |Kept(full)| == MAX_MODS)
  {
  }

  // The loop `if seen.insert(id) { inventory.push(entry) }`.
  method Extend(inventory0: seq<Listed>, seen0: set<string>, more: seq<Listed>)
    returns (inventory: seq<Listed>, seen: set<string>)
    requires seen0 == IdsOf(inventory0)
    ensures inventory == AppendUnseen(inventory0, more) && seen == IdsOf(inventory)
  {
    inventory, seen := inventory0, seen0;
    for i := 0 to |more|
      invariant inventory == AppendUnseen(inventory0, more[..i]) && seen == IdsOf(inventory)
    {
      assert more[..i + 1][..i] == more[..i];
      if more[i].modId !in seen {
        IdsAppend(inventory, more[i]);
        seen := seen + {more[i].modId};
        inventory := inventory + [more[i]];
      }
    }
    assert more[..|more|] == more;
  }

  function FindListed(listed: seq<Listed>, id: string): (r: Option<Listed>)
    ensures r.Some? ==> r.value in listed && r.value.modId == id
    ensures r.None? ==> !HasListed(listed, id)
  {
    if listed == [] then None
    else if listed[0].modId == id then Some(listed[0])
    else
      var rest := FindListed(listed[1..], id);
      assert rest.None? ==> forall i | 1 <= i < |listed| :: listed[i] == listed[1..][i - 1];
      rest
  }

  lemma {:induction false} FindListedAt(listed: seq<Listed>, i: nat)
    requires i < |listed| && ListedOnce(listed)
    ensures FindListed(listed, listed[i].modId) == Some(listed[i])
  {
    if i > 0 {
      FindListedAt(listed[1..], i - 1);
      assert listed[0].modId != listed[i].modId;
    }
  }
}
