/** The deposit dialog opened for one goal: its submit handler checks the
    parsed amount and either dispatches the deposit and closes, or alerts and
    stays open. */
module DepositModal {
  import opened Goals
  import AppForms

  /** What one submit does: the deposit callback it calls (if any), whether it
      closes the dialog, and whether it shows the "valid positive amount" alert. */
  datatype Effects = Effects(deposit: Option<DepositCall>, closed: bool, alerted: bool)

  /** Submitting the dialog for `goal` with the parsed amount: NaN and amounts
      at most zero are rejected; otherwise the deposit goes to this goal and
      the dialog closes after it. */
  function HandleSubmit(goal: Goal, amount: JsNumber): (e: Effects)
    ensures e.deposit.Some? <==> amount.Num? && amount.value > 0.0
    ensures amount.NaN? ==> e.deposit.None? && !e.closed
    ensures e.deposit.Some? ==>
      e.deposit.value.goalId == goal.id && e.deposit.value.amount > 0.0 &&
      amount == Num(e.deposit.value.amount)
    ensures e.closed <==> e.deposit.Some?
    ensures e.alerted <==> !e.closed
  {
    if amount.NaN? || amount.value <= 0.0 then Effects(None, false, true)
    else Effects(Some(DepositCall(goal.id, amount.value)), true, false)
  }

  /** For a filled-in amount and a goal with a non-empty id, the dialog
      dispatches exactly what the corrected deposit form dispatches. */
  lemma AgreesWithDepositForm(goal: Goal, amountText: string, amount: JsNumber)
    requires amountText != "" && goal.id != ""
    ensures HandleSubmit(goal, amount).deposit == AppForms.DepositSubmission(amountText, goal.id, amount)
  {
  }
}
