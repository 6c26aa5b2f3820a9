# Smart Goal Planner — a Dafny model of its goal logic

The Smart Goal Planner is a single-page app for savings goals. A goal has a
name, a target amount, a saved amount, a category, a deadline and a creation
date. Users add goals, deposit into them, edit or delete them, and see
per-goal and overall progress. The goals live in a REST backend. The app keeps
a local copy of the collection and changes it only when the backend reports
success.

This project models that logic in Dafny:

- `goals.dfy` — module `Goals`: the goal record, the body posted for a new
  goal (`Draft`), a deposit call, and a JavaScript number as the parser
  returns it (`NaN` or a finite value).
- `metrics.dfy` — module `Metrics`: what a goal card and the overview panel
  compute. This covers progress, remaining amount, bar width, days left, the
  Completed/Overdue/Warning flags and their display precedence, and the
  overview totals.
- `mirror.dfy` — module `Mirror`: the list operations applied to the local
  copy. These are replace by id, remove by id, find by id, and the deposit
  record. Lemmas state the "nothing else changes" and order properties, and
  the effect on the totals.
- `planner.dfy` — module `Planner`: class `App` holds the application state:
  `goals`, `loading`, `error`, `showConfirmModal` and `goalToDelete`. Its
  methods are the handlers: fetch, add, update, delete, deposit, delete
  request, confirm and cancel. Each backend call is one atomic step. Its
  outcome is a parameter: `ok` plus the record the backend returned. The
  field `requests` logs the calls sent to the backend, so that "nothing is
  sent" can be stated.
- `app_forms.dfy` — module `AppForms`: the submit handlers of the add form,
  the deposit form and the edit dialog in `App.jsx`.
- `deposit_modal.dfy` — module `DepositModal`: the submit handler of the
  per-goal deposit dialog.
- `goal_form.dfy` — module `SmartGoalForm`: the stand-alone goal form. Its
  change handler updates a single field, and its submit builds a new goal and
  clears the form.

Amounts are exact `real`s. The text-to-number conversions (`parseFloat`,
`Number`) are parameters. The generated id, today's date, and the
millisecond difference between deadline and now are parameters too.

Behaviour worth noting:

- The bar width is only capped at 100. It is not clamped below at 0.
- `makeDeposit` does not check that the amount is positive; only the forms do.
- A failed lookup in `makeDeposit` only alerts.
- Delete and update act on every entry with the id, not just one.
- The date-only deadline is read as UTC midnight, while now is the local clock. On the deadline day the card therefore shows 0 days left only while the local date equals the UTC date. East of UTC, early in the day, it shows 1 day left. West of UTC, late in the day, it shows -1 and "Overdue!" (`Metrics.DeadlineDayDaysLeft`).

## Model

| member | source | states |
|---|---|---|
| `Metrics.DaysLeft` | Smart-Goal-Planner/src/App.jsx:15-21 | days left is the ceiling of the millisecond difference over one day: `(d-1)·day < diff ≤ d·day` |
| `Metrics.DaysLeftNearToday` | Smart-Goal-Planner/src/App.jsx:19 | a deadline at most one day in the past gives 0, one exactly a day further back gives -1, one up to a day ahead gives 1 |
| `Metrics.DeadlineDayDaysLeft` | Smart-Goal-Planner/src/App.jsx:15-21 | on the deadline day, with the date-only deadline read as UTC midnight, days left is 1 exactly when the local zone's offset east of UTC exceeds the time since local midnight, -1 exactly when the local time is a full day past UTC midnight, and 0 otherwise |
| `Metrics.Progress` | Smart-Goal-Planner/src/App.jsx:129 | for a positive target, progress · target = saved · 100; progress ≥ 100 exactly when completed, > 100 exactly when over-funded, non-negative exactly when saved ≥ 0, zero exactly when nothing is saved |
| `Metrics.Remaining` | Smart-Goal-Planner/src/App.jsx:130 | remaining is negative exactly when saved > target, ≤ 0 exactly when completed, and saved + remaining = target |
| `Metrics.BarWidth` | Smart-Goal-Planner/src/App.jsx:178 | the bar width never exceeds 100 or the progress, and is either the progress or 100 |
| `Metrics.BarFullIffCompleted` | Smart-Goal-Planner/src/App.jsx:178-179 | a goal's bar is full exactly when the goal is completed |
| `Metrics.IsCompleted` | Smart-Goal-Planner/src/App.jsx:132 | defines a goal as completed when its saved amount reaches its target |
| `Metrics.IsOverdue` | Smart-Goal-Planner/src/App.jsx:133 | defines a goal as overdue when days left is negative and it is not completed |
| `Metrics.IsWarning` | Smart-Goal-Planner/src/App.jsx:134 | defines the warning flag: between 0 and 30 days left inclusive and not completed |
| `Metrics.StatusOf` | Smart-Goal-Planner/src/App.jsx:185-194 | the card shows Completed iff saved ≥ target, Overdue iff the overdue flag, Warning iff the warning flag, otherwise on track with more than 30 days left |
| `Metrics.FlagsExclusive` | Smart-Goal-Planner/src/App.jsx:132-134 | at most one of completed/overdue/warning holds, and Completed does not depend on the days left |
| `Metrics.CompletedGoals` | Smart-Goal-Planner/src/App.jsx:492 | the completed count is at most the list length; it equals the length iff every goal is completed, and is 0 iff none is |
| `Metrics.TotalSaved` | Smart-Goal-Planner/src/App.jsx:490 | the sum of the saved amounts (its fold step is `TotalsAppend`); never negative when no saved amount is |
| `Metrics.TotalTarget` | Smart-Goal-Planner/src/App.jsx:491 | the sum of the target amounts (its fold step is `TotalsAppend`); with all targets positive it is positive exactly when the list is non-empty |
| `Metrics.Overview` | Smart-Goal-Planner/src/App.jsx:488-493 | total goals is the length; total saved, total target and completed count are `TotalSaved`, `TotalTarget` and `CompletedGoals` of the list; completed ≤ total; overall progress is 0 when the total target is not positive and is saved/target·100 otherwise |
| `Metrics.TotalsAppend` | Smart-Goal-Planner/src/App.jsx:490-492 | appending a goal adds its saved and target amounts to the totals and adds one to the completed count if it is completed |
| `Metrics.AllCompletedSavedCoversTarget` | Smart-Goal-Planner/src/App.jsx:490-492 | when every goal is completed, total saved ≥ total target |
| `Metrics.AllCompletedFullOverall` | Smart-Goal-Planner/src/App.jsx:489-493 | all goals completed with a positive total target gives overall progress ≥ 100 and completed = total |
| `Mirror.ReplaceById` | Smart-Goal-Planner/src/App.jsx:598 | same length; position i holds the saved record if its id matches, and the old entry otherwise |
| `Mirror.RemoveById` | Smart-Goal-Planner/src/App.jsx:614 | a goal is kept iff it was present and its id differs; the length shrinks iff the id was present |
| `Mirror.FindById` | Smart-Goal-Planner/src/App.jsx:623 | returns nothing iff no entry has the id, otherwise the first entry carrying the id |
| `Mirror.WithDeposit` | Smart-Goal-Planner/src/App.jsx:629-632 | the deposit record differs from the goal only in savedAmount, which grows by exactly the amount |
| `Mirror.ReplaceKeepsIds` | Smart-Goal-Planner/src/App.jsx:598 | replace by id keeps every id in place; the saved record appears iff its id was present |
| `Mirror.ReplaceAbsentIsIdentity` | Smart-Goal-Planner/src/App.jsx:598 | a response whose id is absent leaves the list unchanged |
| `Mirror.ReplaceIdempotent` | Smart-Goal-Planner/src/App.jsx:598 | applying the same response twice equals applying it once |
| `Mirror.RemoveDistributes` | Smart-Goal-Planner/src/App.jsx:614 | removal distributes over concatenation, so the kept entries keep their relative order |
| `Mirror.RemoveAbsentIsIdentity` | Smart-Goal-Planner/src/App.jsx:614 | removing an absent id leaves the list unchanged |
| `Mirror.RemoveLeavesNoId` | Smart-Goal-Planner/src/App.jsx:614 | after removal no entry has the id, and a second removal changes nothing |
| `Mirror.ReplaceTotals` | Smart-Goal-Planner/src/App.jsx:598 | with unique ids, writing back a record swaps the found goal's amounts for the record's in both totals |
| `Mirror.DepositRaisesTotalSaved` | Smart-Goal-Planner/src/App.jsx:622-634 | with unique ids, a deposit written back raises total saved by exactly the amount and keeps total target |
| `Planner.FetchFailure` | Smart-Goal-Planner/src/App.jsx:553 | the fetch error message ends with the failure's own message |
| `Planner.Pending` | Smart-Goal-Planner/src/App.jsx:644 | defines when a deletion is pending: an id is chosen and it is not the empty string, which is falsy |
| `Planner.App.constructor` | Smart-Goal-Planner/src/App.jsx:532-536 | starts with no goals, loading, no error, no dialog and nothing pending |
| `Planner.App.FetchGoals` | Smart-Goal-Planner/src/App.jsx:541-557 | on success the copy becomes the response and the error is cleared; on failure the copy is kept and the error is set; loading ends false |
| `Planner.App.AddGoal` | Smart-Goal-Planner/src/App.jsx:564-582 | on success the copy is the old copy plus the returned record: one longer, earlier entries unchanged, total saved raised by its saved amount; on failure unchanged |
| `Planner.App.UpdateGoal` | Smart-Goal-Planner/src/App.jsx:585-603 | sends the record to its id; on success the copy is replaced by id with the returned record, on failure unchanged |
| `Planner.App.DeleteGoal` | Smart-Goal-Planner/src/App.jsx:606-619 | sends a delete for the id; on success every entry with that id is removed and none remains, on failure unchanged |
| `Planner.App.MakeDeposit` | Smart-Goal-Planner/src/App.jsx:622-635 | unknown id: nothing sent, copy unchanged; otherwise the first match is sent with savedAmount + amount, and an echoed success raises total saved by the amount when ids are unique |
| `Planner.App.HandleDeleteRequest` | Smart-Goal-Planner/src/App.jsx:638-641 | remembers the id and shows the dialog; sends nothing and leaves the copy unchanged |
| `Planner.App.ConfirmDelete` | Smart-Goal-Planner/src/App.jsx:643-649 | with a pending (non-empty) id: deletes it, then forgets it and hides the dialog; without one: nothing changes; confirming from the visible dialog always names the chosen goal |
| `Planner.App.CancelDelete` | Smart-Goal-Planner/src/App.jsx:680 | hides the dialog; the pending id, the copy and the requests stay |
| `AppForms.AddGoalSubmission` | Smart-Goal-Planner/src/App.jsx:236-250 | a draft is posted iff all four fields are non-empty; it carries the form's values, the parsed target, the date, and saved amount 0 |
| `AppForms.AddGoalForm.constructor` | Smart-Goal-Planner/src/App.jsx:231-234 | all four fields start empty |
| `AppForms.AddGoalForm.HandleSubmit` | Smart-Goal-Planner/src/App.jsx:236-257 | posts the submission; a successful submit clears every field, a rejected one keeps them |
| `AppForms.DepositSubmissionAsWritten` | Smart-Goal-Planner/src/App.jsx:327-338 | the guard as written dispatches iff both fields are non-empty and the amount is not a number ≤ 0, so NaN is dispatched |
| `AppForms.DepositFormPassesNaN` | Smart-Goal-Planner/src/App.jsx:333-338 | an amount text parsing to NaN is dispatched by the guard as written |
| `AppForms.DepositSubmission` | Smart-Goal-Planner/src/App.jsx:327-338 | corrected guard: dispatches iff both fields are non-empty and the amount is a number > 0, to the selected id with that amount |
| `AppForms.DepositSubmissionAgreesOffNaN` | Smart-Goal-Planner/src/App.jsx:333-338 | the corrected and as-written guards agree on every numeric amount, and the corrected one rejects NaN |
| `AppForms.DepositOnlyRaises` | Smart-Goal-Planner/src/App.jsx:338 | a dispatched deposit strictly raises the saved amount of the goal it is applied to |
| `AppForms.DepositForm.constructor` | Smart-Goal-Planner/src/App.jsx:324-325 | both fields start empty |
| `AppForms.DepositForm.HandleSubmit` | Smart-Goal-Planner/src/App.jsx:327-341 | dispatches the corrected submission; a dispatch clears both fields, a rejection keeps them |
| `AppForms.EditSubmission` | Smart-Goal-Planner/src/App.jsx:397-412 | an update is sent iff all four fields are non-empty; it sets name, target, category and deadline and keeps id, saved amount and creation date |
| `AppForms.EditKeepsIdsAndSaved` | Smart-Goal-Planner/src/App.jsx:404-410 | with unique ids, writing an edit back keeps every id in place and the total saved unchanged |
| `DepositModal.HandleSubmit` | Smart-Goal-Planner/src/components/DepositForm.jsx:6-15 | NaN and amounts ≤ 0 are rejected with an alert and the dialog stays open; otherwise the dialog's own goal id gets the positive amount and the dialog closes |
| `DepositModal.AgreesWithDepositForm` | Smart-Goal-Planner/src/components/DepositForm.jsx:8-13 | for a filled-in amount, the dialog dispatches exactly what the corrected deposit form dispatches |
| `SmartGoalForm.WithField` | Smart-Goal-Planner/src/components/GoalForm.jsx:12-15 | the named field takes the value and every other field keeps its own |
| `SmartGoalForm.ChangesCommute` | Smart-Goal-Planner/src/components/GoalForm.jsx:12-15 | changes to different fields commute, the later change to the same field wins, and re-reporting a field's value changes nothing |
| `SmartGoalForm.NewGoal` | Smart-Goal-Planner/src/components/GoalForm.jsx:20-26 | the new goal has the supplied id and date, saved amount 0, the converted target, and name, category and deadline copied from the form |
| `SmartGoalForm.Form.constructor` | Smart-Goal-Planner/src/components/GoalForm.jsx:5-10 | the form starts with four empty fields |
| `SmartGoalForm.Form.HandleChange` | Smart-Goal-Planner/src/components/GoalForm.jsx:12-15 | the form data becomes the old data with only the named field set |
| `SmartGoalForm.Form.HandleSubmit` | Smart-Goal-Planner/src/components/GoalForm.jsx:17-38 | returns the goal built from the old form data, then every field is empty |

## Findings

| source | as written | input that shows it | evidently intended | confidence | as-written member | corrected member |
|---|---|---|---|---|---|---|
| Smart-Goal-Planner/src/App.jsx:333-338 | the deposit form rejects an amount only if it compares at most zero, and NaN compares false | amount text `abc` with a goal selected: the parse gives NaN and the deposit is dispatched; the update body's saved amount is NaN, which JSON serialisation sends as `null`, so the backend stores a null saved amount and the goal's savings are lost | reject NaN as well, as the deposit dialog does (components/DepositForm.jsx:9) | low, not executed: a browser number input usually reports a non-numeric entry as the empty string, which the form does reject | `AppForms.DepositSubmissionAsWritten` (with `AppForms.DepositFormPassesNaN`) | `AppForms.DepositSubmission` |

## Left out

- HTTP and JSON: each backend call is an `ok` flag plus the returned record. Network errors, non-JSON bodies and status codes are folded into `ok = false`.
- The action-plan dialog and its text-generation call, with the Markdown rendering of the result (App.jsx:49-125). It is an external service and a foreign library.
- Clock and date parsing: `DaysLeft` takes the millisecond difference between deadline and now; `createdAt` is a parameter.
- Floating point: amounts are exact reals. `parseFloat`/`Number` are parameters. `toFixed`, currency formatting and `toLocaleString` are display only. NaN is modelled only where the deposit guards test it; goal records never hold NaN.
- `AppForms.DepositForm.HandleSubmit`: dispatches through the corrected guard `AppForms.DepositSubmission`, so on a NaN amount it rejects and keeps both fields, where the source dispatches NaN and clears them; the as-written behaviour is `AppForms.DepositSubmissionAsWritten` (see Findings).
- `Metrics.Progress`: requires a positive target. The source would divide by zero: a target of "0" passes both goal forms, since they only check for empty text.
- Concurrency: async interleaving and the lost update between two concurrent deposits are not modelled. Each handler is one atomic step on the state it read.
- `Planner.App.FetchGoals`: the interim `loading = true` while the request is in flight is not observable in one atomic step; only the final `false` is stated.
- The initial fetch on mount is not performed by the constructor. A caller runs `FetchGoals`.
- `Planner.App.ConfirmDelete`: ids are strings, so only the empty string counts as "no pending goal". A numeric id 0, also falsy in the source, is not modelled.
- `AppForms.EditSubmission`: the dialog's target field first holds the goal's number rather than text. The model treats it as text, so an untouched numeric target of 0 (falsy in the source) counts as filled in.
- The per-field change setters of the add form and the deposit form are plain assignments to the public fields of `AddGoalForm` and `DepositForm`.
- `SmartGoalForm.Form.HandleChange` accepts only the form's four input names. An unknown name would add a new key in the source; no input of the form has one.
- The edit-dialog and action-plan visibility state (`editingGoal`, `actionPlanGoal`), JSX markup, styling, alerts, console logging and the React bootstrap in `main.jsx`.
