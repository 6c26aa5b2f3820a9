/** Derived metrics of one goal (the goal card) and of the whole list (the
    overview panel): progress, remaining amount, days left, status flags and
    aggregate totals. */
module Metrics {
  import opened Goals

  /** Milliseconds in one day. */
  const MsPerDay: int := 1000 * 60 * 60 * 24

  /** Whole days until the deadline, given the millisecond difference between
      the deadline and now: the ceiling of `diffMs / MsPerDay`. */
  function DaysLeft(diffMs: int): (d: int)
    ensures (d - 1) * MsPerDay < diffMs <= d * MsPerDay
  {
    -((-diffMs) / MsPerDay)
  }

  /** A deadline at most one day in the past gives 0 days left; one exactly a
      day further back gives -1; one up to a day ahead gives 1. A deadline of
      today lies in the first band only while the local date equals the UTC
      date (see `DeadlineDayDaysLeft`). */
  lemma DaysLeftNearToday(diffMs: int)
    ensures -MsPerDay < diffMs <= 0 ==> DaysLeft(diffMs) == 0
    ensures diffMs == -MsPerDay ==> DaysLeft(diffMs) == -1
    ensures 0 < diffMs <= MsPerDay ==> DaysLeft(diffMs) == 1
  {
    var d := DaysLeft(diffMs);
    assert (d - 1) * MsPerDay < diffMs <= d * MsPerDay;
  }

  /** On the deadline day itself: the date-only deadline is read as UTC
      midnight, so with the local clock `msSinceLocalMidnight` into that day and
      the local zone `utcOffsetMs` ahead of UTC, the difference is
      `utcOffsetMs - msSinceLocalMidnight`. The card then shows 1 day left east
      of UTC before the offset has elapsed, -1 (overdue) once the local time is
      a full day past UTC midnight, and 0 otherwise. */
  lemma DeadlineDayDaysLeft(msSinceLocalMidnight: int, utcOffsetMs: int)
    requires 0 <= msSinceLocalMidnight < MsPerDay
    requires -MsPerDay < utcOffsetMs < MsPerDay
    ensures var d := DaysLeft(utcOffsetMs - msSinceLocalMidnight);
      -1 <= d <= 1 &&
      (d == 1 <==> utcOffsetMs > msSinceLocalMidnight) &&
      (d == -1 <==> utcOffsetMs - msSinceLocalMidnight <= -MsPerDay) &&
      (d == 0 <==> -MsPerDay < utcOffsetMs - msSinceLocalMidnight <= 0)
  {
    var diff := utcOffsetMs - msSinceLocalMidnight;
    var d := DaysLeft(diff);
    assert (d - 1) * MsPerDay < diff <= d * MsPerDay;
  }

  predicate IsCompleted(g: Goal) {
    g.savedAmount >= g.targetAmount
  }

  predicate IsOverdue(g: Goal, daysLeft: int) {
    daysLeft < 0 && !IsCompleted(g)
  }

  predicate IsWarning(g: Goal, daysLeft: int) {
    daysLeft <= 30 && daysLeft >= 0 && !IsCompleted(g)
  }

  /** Progress in percent; not clamped, so it exceeds 100 for an over-funded goal. */
  function Progress(g: Goal): (p: real)
    requires g.targetAmount > 0.0
    ensures p >= 100.0 <==> IsCompleted(g)
    ensures p > 100.0 <==> g.savedAmount > g.targetAmount
    ensures p >= 0.0 <==> g.savedAmount >= 0.0
    ensures p == 0.0 <==> g.savedAmount == 0.0
    ensures p * g.targetAmount == g.savedAmount * 100.0
  {
    var p := (g.savedAmount / g.targetAmount) * 100.0;
    assert p * g.targetAmount == g.savedAmount * 100.0;
    p
  }

  /** Amount still to save; negative exactly when the goal is over-funded. */
  function Remaining(g: Goal): (r: real)
    ensures r < 0.0 <==> g.savedAmount > g.targetAmount
    ensures r <= 0.0 <==> IsCompleted(g)
    ensures g.savedAmount + r == g.targetAmount
  {
    g.targetAmount - g.savedAmount
  }

  /** Width of a progress bar in percent: progress capped at 100. */
  function BarWidth(progress: real): (w: real)
    ensures w <= 100.0
    ensures w <= progress
    ensures w == progress || w == 100.0
  {
    if progress < 100.0 then progress else 100.0
  }

  /** A goal's bar is full exactly when the goal is completed. */
  lemma BarFullIffCompleted(g: Goal)
    requires g.targetAmount > 0.0
    ensures BarWidth(Progress(g)) == 100.0 <==> IsCompleted(g)
  {
    var p := Progress(g);
    if IsCompleted(g) {
      assert p >= 100.0;
    } else {
      assert p < 100.0;
    }
  }

  /** What the goal card shows below the bar. */
  datatype Status = Completed | Overdue | Warning | OnTrack

  /** Completed is checked first, then Overdue; otherwise the days left are
      shown, highlighted as a warning when the deadline is within 30 days. */
  function StatusOf(g: Goal, daysLeft: int): (s: Status)
    ensures s == Completed <==> IsCompleted(g)
    ensures s == Overdue <==> IsOverdue(g, daysLeft)
    ensures s == Warning <==> IsWarning(g, daysLeft)
    ensures s == OnTrack <==> !IsCompleted(g) && daysLeft > 30
  {
    if IsCompleted(g) then Completed
    else if IsOverdue(g, daysLeft) then Overdue
    else if IsWarning(g, daysLeft) then Warning
    else OnTrack
  }

  /** At most one of the three flags holds, and completion does not depend on the deadline. */
  lemma FlagsExclusive(g: Goal, daysLeft: int, otherDaysLeft: int)
    ensures !(IsCompleted(g) && IsOverdue(g, daysLeft))
    ensures !(IsCompleted(g) && IsWarning(g, daysLeft))
    ensures !(IsOverdue(g, daysLeft) && IsWarning(g, daysLeft))
    ensures StatusOf(g, daysLeft) == Completed <==> StatusOf(g, otherDaysLeft) == Completed
  {
  }

  // ---------------------------------------------------------------------------
  // Overview aggregates

  /** Sum of the saved amounts; never negative when no saved amount is. */
  function TotalSaved(goals: seq<Goal>): (s: real)
    ensures (forall i :: 0 <= i < |goals| ==> goals[i].savedAmount >= 0.0) ==> s >= 0.0
  {
    if goals == [] then 0.0
    else
      assert forall i :: 0 <= i < |goals[1..]| ==> goals[1..][i] == goals[i + 1];
      goals[0].savedAmount + TotalSaved(goals[1..])
  }

  /** Sum of the target amounts; positive for a non-empty list of positive targets. */
  function TotalTarget(goals: seq<Goal>): (t: real)
    ensures (forall i :: 0 <= i < |goals| ==> goals[i].targetAmount > 0.0) ==>
      (t > 0.0 <==> goals != [])
  {
    if goals == [] then 0.0
    else
      assert forall i :: 0 <= i < |goals[1..]| ==> goals[1..][i] == goals[i + 1];
      goals[0].targetAmount + TotalTarget(goals[1..])
  }

  /** Number of completed goals. */
  function CompletedGoals(goals: seq<Goal>): (n: nat)
    ensures n <= |goals|
    ensures n == |goals| <==> forall i :: 0 <= i < |goals| ==> IsCompleted(goals[i])
    ensures n == 0 <==> forall i :: 0 <= i < |goals| ==> !IsCompleted(goals[i])
  {
    if goals == [] then 0
    else
      var rest := CompletedGoals(goals[1..]);
      assert forall i :: 1 <= i < |goals| ==> goals[i] == goals[1..][i - 1];
      (if IsCompleted(goals[0]) then 1 else 0) + rest
  }

  datatype Summary = Summary(
    totalGoals: nat,
    completedGoals: nat,
    totalSaved: real,
    totalTarget: real,
    overallProgress: real)

  /** The overview panel: counts, sums and overall progress, which is 0 when
      the total target is not positive. */
  function Overview(goals: seq<Goal>): (o: Summary)
    ensures o.totalGoals == |goals|
    ensures o.totalSaved == TotalSaved(goals) && o.totalTarget == TotalTarget(goals)
    ensures o.completedGoals == CompletedGoals(goals)
    ensures o.completedGoals <= o.totalGoals
    ensures o.totalTarget <= 0.0 ==> o.overallProgress == 0.0
    ensures o.totalTarget > 0.0 ==> o.overallProgress * o.totalTarget == o.totalSaved * 100.0
  {
    var saved := TotalSaved(goals);
    var target := TotalTarget(goals);
    Summary(
      |goals|,
      CompletedGoals(goals),
      saved,
      target,
      if target > 0.0 then (saved / target) * 100.0 else 0.0)
  }

  /** Appending a goal adds its amounts to the totals. */
  lemma {:induction false} TotalsAppend(goals: seq<Goal>, g: Goal)
    ensures TotalSaved(goals + [g]) == TotalSaved(goals) + g.savedAmount
    ensures TotalTarget(goals + [g]) == TotalTarget(goals) + g.targetAmount
    ensures CompletedGoals(goals + [g]) == CompletedGoals(goals) + (if IsCompleted(g) then 1 else 0)
  {
    if goals == [] {
      assert [g][1..] == [];
    } else {
      assert (goals + [g])[0] == goals[0];
      assert (goals + [g])[1..] == goals[1..] + [g];
      TotalsAppend(goals[1..], g);
    }
  }

  /** When every goal is completed the total saved reaches the total target. */
  lemma {:induction false} AllCompletedSavedCoversTarget(goals: seq<Goal>)
    requires forall i :: 0 <= i < |goals| ==> IsCompleted(goals[i])
    ensures TotalSaved(goals) >= TotalTarget(goals)
  {
    if goals != [] {
      assert IsCompleted(goals[0]);
      assert forall i :: 0 <= i < |goals[1..]| ==> goals[1..][i] == goals[i + 1];
      AllCompletedSavedCoversTarget(goals[1..]);
    }
  }

  /** A list of all-completed goals with a positive total target shows at least 100%. */
  lemma AllCompletedFullOverall(goals: seq<Goal>)
    requires forall i :: 0 <= i < |goals| ==> IsCompleted(goals[i])
    requires TotalTarget(goals) > 0.0
    ensures Overview(goals).overallProgress >= 100.0
    ensures Overview(goals).completedGoals == Overview(goals).totalGoals
  {
    AllCompletedSavedCoversTarget(goals);
    var saved, target := TotalSaved(goals), TotalTarget(goals);
    RatioAtLeastHundred(saved, target);
    assert Overview(goals).overallProgress == (saved / target) * 100.0;
  }

  lemma RatioAtLeastHundred(saved: real, target: real)
    requires target > 0.0 && saved >= target
    ensures (saved / target) * 100.0 >= 100.0
  {
    var q := saved / target;
    assert q * target == saved;
  }
}
