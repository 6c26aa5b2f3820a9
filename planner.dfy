/** The top-level application state: the local copy of the goal collection,
    the loading and error indicators and the two-step delete confirmation.
    Each handler is one atomic step; the backend's answer is a parameter
    (`ok` and the record it returned). */
module Planner {
  import opened Goals
  import opened Metrics
  import opened Mirror

  /** A call made to the goals REST resource. */
  datatype Request =
    | Get                       // list the collection
    | Post(draft: Draft)        // create a goal
    | Put(id: Id, record: Goal) // replace the goal with this id
    | Delete(id: Id)            // remove the goal with this id

  /** The message shown when listing the goals fails. */
  function FetchFailure(message: string): (m: string)
    ensures |m| > |message| && m[|m| - |message|..] == message
  {
    "Failed to fetch goals: " + message
  }

  /** A pending deletion counts only when its id is a non-empty string
      (the empty string is falsy in the guard of the confirm handler). */
  predicate Pending(goalToDelete: Option<Id>) {
    goalToDelete.Some? && goalToDelete.value != ""
  }

  class App {
    var goals: seq<Goal>
    var loading: bool
    var error: Option<string>
    var showConfirmModal: bool
    var goalToDelete: Option<Id>
    /** The calls issued to the backend, oldest first. */
    var requests: seq<Request>

    /** The confirmation dialog is only ever shown with a goal chosen for deletion. */
    ghost predicate Valid()
      reads this
    {
      showConfirmModal ==> goalToDelete.Some?
    }

    constructor ()
      ensures Valid()
      ensures goals == [] && loading && error == None
      ensures !showConfirmModal && goalToDelete == None && requests == []
    {
      goals := [];
      loading := true;
      error := None;
      showConfirmModal := false;
      goalToDelete := None;
      requests := [];
    }

    /** Lists the collection: on success the copy becomes the response and
        the error is cleared, otherwise the copy is kept and an error is set. */
    method FetchGoals(ok: bool, data: seq<Goal>, message: string)
      requires Valid()
      modifies this`goals, this`loading, this`error, this`requests
      ensures Valid()
      ensures requests == old(requests) + [Get]
      ensures goals == if ok then data else old(goals)
      ensures error == if ok then None else Some(FetchFailure(message))
      ensures !loading
    {
      loading := true;
      requests := requests + [Get];
      if ok {
        goals := data;
        error := None;
      } else {
        error := Some(FetchFailure(message));
      }
      loading := false;
    }

    /** Creates a goal: on success the backend's record is appended. */
    method AddGoal(newGoal: Draft, ok: bool, savedGoal: Goal)
      requires Valid()
      modifies this`goals, this`requests
      ensures Valid()
      ensures requests == old(requests) + [Post(newGoal)]
      ensures goals == if ok then old(goals) + [savedGoal] else old(goals)
      ensures ok ==> |goals| == |old(goals)| + 1 && goals[..|old(goals)|] == old(goals)
      ensures ok ==> TotalSaved(goals) == TotalSaved(old(goals)) + savedGoal.savedAmount
    {
      requests := requests + [Post(newGoal)];
      if ok {
        TotalsAppend(goals, savedGoal);
        goals := goals + [savedGoal];
      }
    }

    /** Updates a goal: on success every entry with the returned record's id
        becomes that record. */
    method UpdateGoal(updatedGoal: Goal, ok: bool, savedGoal: Goal)
      requires Valid()
      modifies this`goals, this`requests
      ensures Valid()
      ensures requests == old(requests) + [Put(updatedGoal.id, updatedGoal)]
      ensures goals == if ok then ReplaceById(old(goals), savedGoal) else old(goals)
    {
      requests := requests + [Put(updatedGoal.id, updatedGoal)];
      if ok {
        goals := ReplaceById(goals, savedGoal);
      }
    }

    /** Deletes a goal: on success every entry with that id is dropped. */
    method DeleteGoal(goalId: Id, ok: bool)
      requires Valid()
      modifies this`goals, this`requests
      ensures Valid()
      ensures requests == old(requests) + [Delete(goalId)]
      ensures goals == if ok then RemoveById(old(goals), goalId) else old(goals)
      ensures ok ==> !HasId(goals, goalId)
    {
      requests := requests + [Delete(goalId)];
      if ok {
        RemoveLeavesNoId(goals, goalId);
        goals := RemoveById(goals, goalId);
      }
    }

    /** Deposits into a goal: finds the first entry with the id in the local
        copy and sends it back with `amount` added to what is saved; when no
        entry has the id nothing is sent. */
    method MakeDeposit(goalId: Id, amount: real, ok: bool, savedGoal: Goal)
      requires Valid()
      modifies this`goals, this`requests
      ensures Valid()
      ensures FindById(old(goals), goalId).None? ==>
        goals == old(goals) && requests == old(requests)
      ensures FindById(old(goals), goalId).Some? ==>
        var sent := WithDeposit(FindById(old(goals), goalId).value, amount);
        requests == old(requests) + [Put(goalId, sent)] &&
        goals == if ok then ReplaceById(old(goals), savedGoal) else old(goals)
      ensures (ok && UniqueIds(old(goals)) && FindById(old(goals), goalId).Some? &&
               savedGoal == WithDeposit(FindById(old(goals), goalId).value, amount)) ==>
        TotalSaved(goals) == TotalSaved(old(goals)) + amount
    {
      var found := FindById(goals, goalId);
      if found.None? {
        return;
      }
      var updatedGoal := WithDeposit(found.value, amount);
      if UniqueIds(goals) {
        DepositRaisesTotalSaved(goals, goalId, amount);
      }
      UpdateGoal(updatedGoal, ok, savedGoal);
    }

    /** First step of a delete: remember the goal and show the dialog. */
    method HandleDeleteRequest(goalId: Id)
      requires Valid()
      modifies this`goalToDelete, this`showConfirmModal
      ensures Valid()
      ensures goalToDelete == Some(goalId) && showConfirmModal
      ensures goals == old(goals) && requests == old(requests)
    {
      goalToDelete := Some(goalId);
      showConfirmModal := true;
    }

    /** Confirming: deletes only when a goal is pending, then forgets it and
        hides the dialog; otherwise nothing changes. */
    method ConfirmDelete(ok: bool)
      requires Valid()
      modifies this`goals, this`requests, this`goalToDelete, this`showConfirmModal
      ensures Valid()
      ensures Pending(old(goalToDelete)) ==>
        var id := old(goalToDelete).value;
        requests == old(requests) + [Delete(id)] &&
        goals == (if ok then RemoveById(old(goals), id) else old(goals)) &&
        goalToDelete == None && !showConfirmModal
      ensures !Pending(old(goalToDelete)) ==>
        goals == old(goals) && requests == old(requests) &&
        goalToDelete == old(goalToDelete) && showConfirmModal == old(showConfirmModal)
      // Confirming from the visible dialog always names a chosen goal (by Valid),
      // so a non-empty one is deleted and the dialog closes.
      ensures old(showConfirmModal) && old(goalToDelete).value != "" ==>
        requests == old(requests) + [Delete(old(goalToDelete).value)] && !showConfirmModal
    {
      if Pending(goalToDelete) {
        DeleteGoal(goalToDelete.value, ok);
        goalToDelete := None;
        showConfirmModal := false;
      }
    }

    /** Cancelling only hides the dialog; the chosen goal is kept. */
    method CancelDelete()
      requires Valid()
      modifies this`showConfirmModal
      ensures Valid()
      ensures !showConfirmModal
      ensures goalToDelete == old(goalToDelete)
      ensures goals == old(goals) && requests == old(requests)
    {
      showConfirmModal := false;
    }
  }
}
