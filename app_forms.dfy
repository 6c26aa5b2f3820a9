/** The submit handlers of the three forms defined next to the app: adding a
    goal, depositing into a chosen goal, and editing a goal. Each turns the
    form's text fields into the call it makes, or rejects the submit. The
    numeric conversion of a text field (`parseFloat`) is a parameter. */
module AppForms {
  import opened Goals
  import opened Metrics
  import opened Mirror

  // ---------------------------------------------------------------------------
  // Add-goal form

  /** The goal posted by the add form: all four fields must be non-empty; the
      new goal starts with nothing saved. */
  function AddGoalSubmission(
    name: string, targetText: string, category: string, deadline: string,
    target: real, createdAt: string): (r: Option<Draft>)
    ensures r.Some? <==> name != "" && targetText != "" && category != "" && deadline != ""
    ensures r.Some? ==> r.value.savedAmount == 0.0
    ensures r.Some? ==> r.value.name == name && r.value.category == category && r.value.deadline == deadline
    ensures r.Some? ==> r.value.targetAmount == target && r.value.createdAt == createdAt
  {
    if name == "" || targetText == "" || category == "" || deadline == "" then None
    else Some(Draft(name, target, 0.0, category, deadline, createdAt))
  }

  class AddGoalForm {
    var name: string
    var targetAmount: string
    var category: string
    var deadline: string

    constructor ()
      ensures name == "" && targetAmount == "" && category == "" && deadline == ""
    {
      name, targetAmount, category, deadline := "", "", "", "";
    }

    /** Submits the form: `target` is the parsed target amount and `createdAt`
        today's date. A successful submit clears every field; a rejected one
        keeps them. */
    method HandleSubmit(target: real, createdAt: string) returns (posted: Option<Draft>)
      modifies this
      ensures posted == AddGoalSubmission(old(name), old(targetAmount), old(category), old(deadline), target, createdAt)
      ensures posted.Some? ==> name == "" && targetAmount == "" && category == "" && deadline == ""
      ensures posted.None? ==>
        name == old(name) && targetAmount == old(targetAmount) &&
        category == old(category) && deadline == old(deadline)
    {
      posted := AddGoalSubmission(name, targetAmount, category, deadline, target, createdAt);
      if posted.Some? {
        name, targetAmount, category, deadline := "", "", "", "";
      }
    }
  }

  // ---------------------------------------------------------------------------
  // Deposit form

  /** The deposit form's guard exactly as the source has it: empty fields and
      amounts that are at most zero are rejected, but NaN is not at most zero,
      so a NaN amount gets through. */
  function DepositSubmissionAsWritten(amountText: string, goalId: Id, amount: JsNumber): (r: Option<(Id, JsNumber)>)
    ensures r.Some? <==> amountText != "" && goalId != "" && !(amount.Num? && amount.value <= 0.0)
    ensures r.Some? ==> r.value == (goalId, amount)
  {
    if amountText == "" || goalId == "" then None
    else if amount.Num? && amount.value <= 0.0 then None
    else Some((goalId, amount))
  }

  /** A non-numeric amount text that `parseFloat` turns into NaN passes the guard as written. */
  lemma DepositFormPassesNaN()
    ensures DepositSubmissionAsWritten("abc", "1", NaN) == Some(("1", NaN))
  {
  }

  /** The deposit form's guard with the NaN check the deposit dialog has:
      only a positive number is ever dispatched. */
  function DepositSubmission(amountText: string, goalId: Id, amount: JsNumber): (r: Option<DepositCall>)
    ensures r.Some? <==> amountText != "" && goalId != "" && amount.Num? && amount.value > 0.0
    ensures r.Some? ==> r.value.goalId == goalId && r.value.amount > 0.0 && amount == Num(r.value.amount)
  {
    if amountText == "" || goalId == "" then None
    else if amount.NaN? || amount.value <= 0.0 then None
    else Some(DepositCall(goalId, amount.value))
  }

  /** The corrected guard differs from the one as written only on NaN. */
  lemma DepositSubmissionAgreesOffNaN(amountText: string, goalId: Id, amount: JsNumber)
    ensures amount.Num? ==>
      (DepositSubmission(amountText, goalId, amount).Some? <==>
       DepositSubmissionAsWritten(amountText, goalId, amount).Some?)
    ensures amount.NaN? ==> DepositSubmission(amountText, goalId, amount).None?
    ensures DepositSubmission(amountText, goalId, amount).Some? ==>
      var call := DepositSubmission(amountText, goalId, amount).value;
      DepositSubmissionAsWritten(amountText, goalId, amount) == Some((call.goalId, Num(call.amount)))
  {
  }

  /** A dispatched deposit only ever raises the saved amount of the goal it is applied to. */
  lemma DepositOnlyRaises(amountText: string, goalId: Id, amount: JsNumber, g: Goal)
    requires DepositSubmission(amountText, goalId, amount).Some?
    ensures WithDeposit(g, DepositSubmission(amountText, goalId, amount).value.amount).savedAmount > g.savedAmount
  {
  }

  class DepositForm {
    var depositAmount: string
    var selectedGoalId: string

    constructor ()
      ensures depositAmount == "" && selectedGoalId == ""
    {
      depositAmount, selectedGoalId := "", "";
    }

    /** Submits the form: `amount` is the parsed amount text. A dispatched
        deposit clears both fields; a rejected one keeps them. */
    method HandleSubmit(amount: JsNumber) returns (call: Option<DepositCall>)
      modifies this
      ensures call == DepositSubmission(old(depositAmount), old(selectedGoalId), amount)
      ensures call.Some? ==> depositAmount == "" && selectedGoalId == ""
      ensures call.None? ==> depositAmount == old(depositAmount) && selectedGoalId == old(selectedGoalId)
    {
      call := DepositSubmission(depositAmount, selectedGoalId, amount);
      if call.Some? {
        depositAmount, selectedGoalId := "", "";
      }
    }
  }

  // ---------------------------------------------------------------------------
  // Edit dialog

  /** The record the edit dialog sends: all four fields must be non-empty; it
      changes name, target, category and deadline and keeps everything else,
      in particular the id and the saved amount. On success the dialog closes. */
  function EditSubmission(
    goal: Goal, name: string, targetText: string, category: string, deadline: string,
    target: real): (r: Option<Goal>)
    ensures r.Some? <==> name != "" && targetText != "" && category != "" && deadline != ""
    ensures r.Some? ==> r.value.id == goal.id && r.value.savedAmount == goal.savedAmount && r.value.createdAt == goal.createdAt
    ensures r.Some? ==> r.value.name == name && r.value.category == category && r.value.deadline == deadline
    ensures r.Some? ==> r.value.targetAmount == target
  {
    if name == "" || targetText == "" || category == "" || deadline == "" then None
    else Some(goal.(name := name, targetAmount := target, category := category, deadline := deadline))
  }

  /** With unique ids, writing an edited record back keeps every id in
      place and leaves the total saved unchanged. */
  lemma EditKeepsIdsAndSaved(
    goals: seq<Goal>, goal: Goal, name: string, targetText: string, category: string,
    deadline: string, target: real)
    requires UniqueIds(goals)
    requires FindById(goals, goal.id) == Some(goal)
    requires EditSubmission(goal, name, targetText, category, deadline, target).Some?
    ensures var after := ReplaceById(goals, EditSubmission(goal, name, targetText, category, deadline, target).value);
      (forall i :: 0 <= i < |goals| ==> after[i].id == goals[i].id) &&
      TotalSaved(after) == TotalSaved(goals)
  {
    var edited := EditSubmission(goal, name, targetText, category, deadline, target).value;
    ReplaceKeepsIds(goals, edited);
    ReplaceTotals(goals, edited);
  }
}
