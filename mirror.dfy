/** The list operations the app applies to its local copy of the goal
    collection once the backend has answered: replace by id after an update,
    remove by id after a delete, find by id before a deposit. */
module Mirror {
  import opened Goals
  import opened Metrics

  /** Every entry whose id is the saved goal's id becomes the saved goal;
      all other entries stay where they are. */
  function ReplaceById(goals: seq<Goal>, saved: Goal): (r: seq<Goal>)
    ensures |r| == |goals|
    ensures forall i :: 0 <= i < |goals| ==>
      r[i] == if goals[i].id == saved.id then saved else goals[i]
  {
    if goals == [] then []
    else [if goals[0].id == saved.id then saved else goals[0]] + ReplaceById(goals[1..], saved)
  }

  /** Keeps the entries whose id differs from `id`, in their order. */
  function RemoveById(goals: seq<Goal>, id: Id): (r: seq<Goal>)
    ensures |r| <= |goals|
    ensures forall g :: g in r <==> g in goals && g.id != id
    ensures |r| == |goals| <==> !HasId(goals, id)
  {
    if goals == [] then []
    else
      var rest := RemoveById(goals[1..], id);
      assert HasId(goals[1..], id) ==> HasId(goals, id) by {
        if HasId(goals[1..], id) {
          var k :| 0 <= k < |goals[1..]| && goals[1..][k].id == id;
          assert goals[k + 1].id == id;
        }
      }
      assert HasId(goals, id) && goals[0].id != id ==> HasId(goals[1..], id) by {
        if HasId(goals, id) && goals[0].id != id {
          var k :| 0 <= k < |goals| && goals[k].id == id;
          assert goals[1..][k - 1].id == id;
        }
      }
      (if goals[0].id != id then [goals[0]] else []) + rest
  }

  /** The first entry carrying `id`, if any. */
  function FindById(goals: seq<Goal>, id: Id): (r: Option<Goal>)
    ensures r.None? <==> !HasId(goals, id)
    ensures r.Some? ==> r.value.id == id
    ensures r.Some? ==>
      exists i :: 0 <= i < |goals| && goals[i] == r.value && (forall j :: 0 <= j < i ==> goals[j].id != id)
  {
    if goals == [] then None
    else if goals[0].id == id then Some(goals[0])
    else
      var rest := FindById(goals[1..], id);
      assert HasId(goals, id) ==> HasId(goals[1..], id) by {
        if HasId(goals, id) {
          var k :| 0 <= k < |goals| && goals[k].id == id;
          assert goals[1..][k - 1].id == id;
        }
      }
      if rest.Some? then
        var i :| 0 <= i < |goals[1..]| && goals[1..][i] == rest.value &&
          forall j :: 0 <= j < i ==> goals[1..][j].id != id;
        assert goals[i + 1] == rest.value;
        assert forall j :: 1 <= j < i + 1 ==> goals[j] == goals[1..][j - 1];
        rest
      else
        rest
  }

  /** The record a deposit sends: the same goal with `amount` added to what is saved. */
  function WithDeposit(g: Goal, amount: real): (d: Goal)
    ensures d.savedAmount - g.savedAmount == amount
    ensures d.(savedAmount := g.savedAmount) == g
  {
    g.(savedAmount := g.savedAmount + amount)
  }

  // ---------------------------------------------------------------------------
  // Properties of the list operations

  /** Replacing by id keeps the ids in place, and the saved goal ends up in
      the list exactly when its id was already there. */
  lemma ReplaceKeepsIds(goals: seq<Goal>, saved: Goal)
    ensures forall i :: 0 <= i < |goals| ==> ReplaceById(goals, saved)[i].id == goals[i].id
    ensures HasId(goals, saved.id) <==> saved in ReplaceById(goals, saved)
  {
    var r := ReplaceById(goals, saved);
    if saved in r {
      var i :| 0 <= i < |r| && r[i] == saved;
      assert goals[i].id == saved.id;
    }
    if HasId(goals, saved.id) {
      var i :| 0 <= i < |goals| && goals[i].id == saved.id;
      assert r[i] == saved;
    }
  }

  /** Replacing a goal whose id is absent leaves the list as it was. */
  lemma ReplaceAbsentIsIdentity(goals: seq<Goal>, saved: Goal)
    requires !HasId(goals, saved.id)
    ensures ReplaceById(goals, saved) == goals
  {
    var r := ReplaceById(goals, saved);
    forall i | 0 <= i < |goals| ensures r[i] == goals[i] {
      assert goals[i].id != saved.id;
    }
  }

  /** Replacing twice with the same response is the same as replacing once. */
  lemma ReplaceIdempotent(goals: seq<Goal>, saved: Goal)
    ensures ReplaceById(ReplaceById(goals, saved), saved) == ReplaceById(goals, saved)
  {
  }

  /** Removal commutes with concatenation, so the kept entries keep their relative order. */
  lemma {:induction false} RemoveDistributes(a: seq<Goal>, b: seq<Goal>, id: Id)
    ensures RemoveById(a + b, id) == RemoveById(a, id) + RemoveById(b, id)
  {
    if a == [] {
      assert a + b == b;
    } else {
      assert (a + b)[0] == a[0];
      assert (a + b)[1..] == a[1..] + b;
      RemoveDistributes(a[1..], b, id);
    }
  }

  /** Removing an id that is absent leaves the list as it was. */
  lemma {:induction false} RemoveAbsentIsIdentity(goals: seq<Goal>, id: Id)
    requires !HasId(goals, id)
    ensures RemoveById(goals, id) == goals
  {
    var r := RemoveById(goals, id);
    assert |r| == |goals|;
    if goals != [] {
      assert goals[0].id != id;
      assert !HasId(goals[1..], id);
      RemoveAbsentIsIdentity(goals[1..], id);
    }
  }

  /** After removal no entry carries the id, so removing twice is removing once. */
  lemma RemoveLeavesNoId(goals: seq<Goal>, id: Id)
    ensures !HasId(RemoveById(goals, id), id)
    ensures RemoveById(RemoveById(goals, id), id) == RemoveById(goals, id)
  {
    RemoveAbsentIsIdentity(RemoveById(goals, id), id);
  }

  /** With unique ids, writing back a record for the goal found by its id
      swaps that goal's amounts for the record's in both totals. */
  lemma {:induction false} ReplaceTotals(goals: seq<Goal>, saved: Goal)
    requires UniqueIds(goals)
    requires FindById(goals, saved.id).Some?
    ensures var before := FindById(goals, saved.id).value;
      var after := ReplaceById(goals, saved);
      TotalSaved(after) == TotalSaved(goals) - before.savedAmount + saved.savedAmount &&
      TotalTarget(after) == TotalTarget(goals) - before.targetAmount + saved.targetAmount
  {
    var after := ReplaceById(goals, saved);
    assert after[1..] == ReplaceById(goals[1..], saved);
    assert UniqueIds(goals[1..]);
    if goals[0].id == saved.id {
      assert !HasId(goals[1..], saved.id);
      ReplaceAbsentIsIdentity(goals[1..], saved);
    } else {
      assert FindById(goals[1..], saved.id) == FindById(goals, saved.id);
      ReplaceTotals(goals[1..], saved);
    }
  }

  /** With unique ids, depositing into the goal found by id and writing the
      result back raises the total saved by exactly the amount and leaves
      the total target unchanged. */
  lemma DepositRaisesTotalSaved(goals: seq<Goal>, id: Id, amount: real)
    requires UniqueIds(goals)
    requires FindById(goals, id).Some?
    ensures var after := ReplaceById(goals, WithDeposit(FindById(goals, id).value, amount));
      TotalSaved(after) == TotalSaved(goals) + amount &&
      TotalTarget(after) == TotalTarget(goals)
  {
    ReplaceTotals(goals, WithDeposit(FindById(goals, id).value, amount));
  }
}
