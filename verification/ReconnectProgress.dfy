/**
 How far a reconnect loop gets: what its row counts, how long it can last, and what
 becomes of it when every pane drops at once.
 */
module ReconnectProgress {
  import opened Options
  import opened ReconnectSteps
  import opened ReconnectRuns
  import opened ReconnectSafety

  // ---------- The attempt count ----------

  /** This step makes the run start an attempt. */
  ghost predicate Starts(s: State, e: Event, run: nat)
    requires Closed(s)
  {
    e.Fires? && RunOf(s, e) == Some(run) && Next(s, e).effects != s.effects
  }

  ghost function StartCount(s: State, events: seq<Event>, run: nat): nat
    requires Closed(s)
    decreases |events|
  {
    if events == [] then 0
    else (if Starts(s, events[0], run) then 1 else 0) + StartCount(Next(s, events[0]), events[1..], run)
  }

  /** The attempts shown by the row of a run; a run that does not exist yet has made none. */
  ghost function Shown(s: State, run: nat): nat
    requires Closed(s)
  {
    if Current(s, run) && Row(s.toasts, s.heap[run].drop.paneId).Some?
    then Row(s.toasts, s.heap[run].drop.paneId).value.attempt else 0
  }

  lemma FireStarts(s: State, t: nat)
    requires Valid(s) && t in s.armed
    ensures var run, r := s.armed[t].run, Fired(s, t);
            && Starts(s, Fires(t), run) && Current(r, run) && Shown(r, run) == Shown(s, run) + 1
  {
    var p := s.heap[s.armed[t].run].drop.paneId;
    FiredLaunches(s, t);
    RowWithAttempt(s.toasts, p, Row(s.toasts, p).value.attempt + 1, p);
  }

  /** A run that stays current keeps its count, except that starting an attempt adds one. */
  lemma CountStep(s: State, e: Event, run: nat)
    requires Valid(s) && Current(Next(s, e), run)
    ensures Shown(Next(s, e), run) == Shown(s, run) + if Starts(s, e, run) then 1 else 0
  {
    var r := Next(s, e);
    var p := r.heap[run].drop.paneId;
    StepsCreateOnlyFreshRuns(s, e);
    NextKeeps(s, e);
    assert PaneOk(r, p) && PaneOk(s, p) && RunOk(s, run);
    if e.Cancels? {
      CancelEachKeepsRow(s, CancelledIds(s, e.paneId), p);
    } else if Subject(s, e).Some? && Subject(s, e).value != p {
      StepLeavesSibling(s, e, p);
    } else if Subject(s, e).Some? {
      OwnCountStep(s, e, run);
    }
  }

  lemma OwnCountStep(s: State, e: Event, run: nat)
    requires Valid(s) && !e.Cancels? && Current(Next(s, e), run)
    requires Subject(s, e) == Some(Next(s, e).heap[run].drop.paneId)
    ensures Shown(Next(s, e), run) == Shown(s, run) + if Starts(s, e, run) then 1 else 0
  {
    var p := Next(s, e).heap[run].drop.paneId;
    match e
    case Drops(drop) => DropCountStep(s, drop, run);
    case Fires(t) =>
      FiredLaunches(s, t);
      FireStarts(s, t);
    case Resolves(a) => ResolveCountStep(s, a, run);
    case Rejects(a) => RejectCountStep(s, a, run);
  }

  lemma DropCountStep(s: State, drop: Drop, run: nat)
    requires Valid(s) && Current(Dropped(s, drop), run) && drop.paneId == Dropped(s, drop).heap[run].drop.paneId
    ensures Shown(Dropped(s, drop), run) == Shown(s, run)
  {
    var p := drop.paneId;
    if drop.reason == "transport-dropped" {
      var c := ClearTimer(MarkCancelled(s, p), p);
      BeginRow(c, drop, p);
      assert RunOk(s, run);
      assert run == c.next == s.next;
    }
  }

  lemma ResolveCountStep(s: State, a: nat, run: nat)
    requires Valid(s) && a in s.inflight && Current(Resolved(s, a), run)
    ensures Shown(Resolved(s, a), run) == Shown(s, run)
  {
    var s1, p := Settle(s, a), s.heap[s.inflight[a].run].drop.paneId;
    if Current(End(s1, p), run) {
      EndLeavesRows(s1, p, run);
    }
  }

  lemma RejectCountStep(s: State, a: nat, run: nat)
    requires Valid(s) && a in s.inflight && Current(Rejected(s, a), run)
    ensures Shown(Rejected(s, a), run) == Shown(s, run)
  {
    var s1, p := Settle(s, a), s.heap[s.inflight[a].run].drop.paneId;
    if Current(End(s1, p), run) {
      EndLeavesRows(s1, p, run);
    }
  }

  lemma EndLeavesRows(s: State, p: string, run: nat)
    requires Closed(s) && Current(End(s, p), run)
    ensures Current(s, run) && Shown(End(s, p), run) == Shown(s, run)
  {
    RowWithout(s.toasts, p, s.heap[run].drop.paneId);
  }

  /** Cancelling a list of panes leaves the row and the run of every pane not on it. */
  lemma {:induction false} CancelEachKeepsRow(s: State, ids: seq<string>, p: string)
    requires Valid(s)
    ensures p in CancelEach(s, ids).runs ==>
              p !in ids && LoopOf(CancelEach(s, ids), p) == LoopOf(s, p)
    decreases |ids|
  {
    if ids != [] {
      CancelOneKeeps(s, ids[0]);
      CancelEachKeepsRow(CancelOne(s, ids[0]), ids[1..], p);
      CancelEachKeepsGone(CancelOne(s, ids[0]), ids[1..], ids[0]);
      if p != ids[0] {
        CancelLeavesSibling(s, ids[0], p);
      }
    }
  }

  lemma {:induction false} CancelEachKeepsGone(s: State, ids: seq<string>, p: string)
    requires Closed(s) && p !in s.runs
    ensures p !in CancelEach(s, ids).runs
    decreases |ids|
  {
    if ids != [] {
      CancelEachKeepsGone(CancelOne(s, ids[0]), ids[1..], p);
    }
  }

  /** A row shows exactly the attempts that its current run has started. */
  lemma {:induction false} RowCountsStarts(s: State, events: seq<Event>, run: nat)
    requires Valid(s) && Current(After(s, events), run)
    ensures Shown(After(s, events), run) == Shown(s, run) + StartCount(s, events, run)
    decreases |events|
  {
    if events != [] {
      var e, r := events[0], Next(s, events[0]);
      NextKeeps(s, e);
      if Current(r, run) {
        CountStep(s, e, run);
      } else {
        if run < r.next {
          NeverCurrentAgain(r, events[1..], run);
        }
        StepsCreateOnlyFreshRuns(s, e);
        assert RunOk(s, run);
      }
      RowCountsStarts(r, events[1..], run);
    }
  }

  lemma RowCountsAttemptsOfItsRun(events: seq<Event>, p: string)
    requires p in After(INITIAL, events).runs
    ensures var s := After(INITIAL, events);
            Row(s.toasts, p).Some? && Row(s.toasts, p).value.attempt == StartCount(INITIAL, events, s.runs[p])
  {
    var s := After(INITIAL, events);
    AfterKeeps(INITIAL, events);
    assert PaneOk(s, p);
    RowCountsStarts(INITIAL, events, s.runs[p]);
  }

  // ---------- Attempts and rejections ----------

  /** This step is the rejection of an attempt of the run. */
  ghost predicate RejectionOf(s: State, e: Event, run: nat) {
    e.Rejects? && RunOf(s, e) == Some(run)
  }

  ghost function RejectCount(s: State, events: seq<Event>, run: nat): nat
    requires Closed(s)
    decreases |events|
  {
    if events == [] then 0
    else (if RejectionOf(s, events[0], run) then 1 else 0) + RejectCount(Next(s, events[0]), events[1..], run)
  }

  /** The attempts of a run that are over. */
  ghost function Spent(s: State, run: nat): int
    requires Closed(s)
  {
    Shown(s, run) - if InFlight(s, run) then 1 else 0
  }

  /** An attempt in flight stays there until it settles. */
  lemma AttemptsStay(s: State, e: Event, run: nat)
    requires Valid(s) && InFlight(s, run) && RunOf(s, e) != Some(run)
    ensures InFlight(Next(s, e), run)
  {
    var a :| a in s.inflight && s.inflight[a].run == run;
    if e.Fires? {
      FireKeepsAttempt(s, e.timer, a);
    } else if e.Cancels? {
      CancelEachKeepsAttempts(s, CancelledIds(s, e.paneId));
    }
    assert a in Next(s, e).inflight && Next(s, e).inflight[a] == s.inflight[a];
  }

  lemma FireKeepsAttempt(s: State, t: nat, a: nat)
    requires Valid(s) && a in s.inflight
    ensures a in Fired(s, t).inflight && Fired(s, t).inflight[a] == s.inflight[a]
  {
    assert AttemptOk(s, a);
    if t in s.armed {
      FiredLaunches(s, t);
    }
  }

  lemma ResolvingEndsRun(s: State, a: nat)
    requires Valid(s) && a in s.inflight
    ensures !Current(Resolved(s, a), s.inflight[a].run)
  {
  }

  /** A run that stays current has one more attempt behind it exactly when one of its attempts is rejected. */
  lemma SpentStep(s: State, e: Event, run: nat)
    requires Valid(s) && Current(s, run) && Current(Next(s, e), run)
    ensures Spent(Next(s, e), run) == Spent(s, run) + if RejectionOf(s, e, run) then 1 else 0
  {
    CountStep(s, e, run);
    if RunOf(s, e) == Some(run) {
      if e.Fires? {
        FireBudget(s, e.timer);
        FireStarts(s, e.timer);
        assert s.next in Next(s, e).inflight && Next(s, e).inflight[s.next].run == run by { FiredLaunches(s, e.timer); }
      } else {
        SettlingEndsAttempt(s, e, run);
        if e.Resolves? {
          ResolvingEndsRun(s, e.attempt);
        }
      }
    } else {
      if InFlight(s, run) {
        AttemptsStay(s, e, run);
      }
      if InFlight(Next(s, e), run) {
        AttemptsComeFromStarts(s, e, run);
      }
    }
  }

  lemma FreshRunHasNothingSpent(s: State, e: Event, run: nat)
    requires Valid(s) && !Current(s, run) && Current(Next(s, e), run)
    ensures Spent(Next(s, e), run) == 0 && s.next <= run && !RejectionOf(s, e, run)
  {
    var r := Next(s, e);
    StepsCreateOnlyFreshRuns(s, e);
    NextKeeps(s, e);
    CountStep(s, e, run);
    assert r.runs[r.heap[run].drop.paneId] == run;
    assert forall a :: a in s.inflight ==> RunOk(s, s.inflight[a].run);
    assert RunOk(s, run);
    if InFlight(r, run) {
      AttemptsComeFromStarts(s, e, run);
    }
  }

  lemma {:induction false} SpentAreRejections(s: State, events: seq<Event>, run: nat)
    requires Valid(s) && Current(After(s, events), run)
    ensures Spent(After(s, events), run) == (if Current(s, run) then Spent(s, run) else 0) + RejectCount(s, events, run)
    decreases |events|
  {
    if events != [] {
      var e, r := events[0], Next(s, events[0]);
      NextKeeps(s, e);
      if Current(r, run) {
        if Current(s, run) {
          SpentStep(s, e, run);
        } else {
          FreshRunHasNothingSpent(s, e, run);
        }
      } else {
        if run < r.next {
          NeverCurrentAgain(r, events[1..], run);
        }
        StepsCreateOnlyFreshRuns(s, e);
        assert RunOk(s, run);
        assert forall a :: a in s.inflight ==> RunOk(s, s.inflight[a].run);
      }
      SpentAreRejections(r, events[1..], run);
    }
  }

  /**
   Over every run of the system, a row shows one attempt for each rejected connect of its
   current run, and one more while an attempt is in flight. So a loop goes on to another
   attempt exactly as often as connects are rejected.
   */
  lemma RowCountsRejections(events: seq<Event>, p: string)
    requires p in After(INITIAL, events).runs
    ensures var s := After(INITIAL, events);
            && Row(s.toasts, p).Some?
            && Row(s.toasts, p).value.attempt ==
               RejectCount(INITIAL, events, s.runs[p]) + if InFlight(s, s.runs[p]) then 1 else 0
  {
    var s := After(INITIAL, events);
    AfterKeeps(INITIAL, events);
    assert PaneOk(s, p);
    SpentAreRejections(INITIAL, events, s.runs[p]);
  }

  /**
   Over every run of the system, a rejected connect of a current run ends its loop in
   failure exactly when it is the fifth.
   */
  lemma GivesUpIff(events: seq<Event>, a: nat)
    requires a in After(INITIAL, events).inflight
    requires Current(After(INITIAL, events), After(INITIAL, events).inflight[a].run)
    ensures var s := After(INITIAL, events);
            var run := s.inflight[a].run;
            var host := s.heap[run].drop.host;
            var reported := Next(s, Rejects(a)).effects[|s.effects|..];
            FlashFailure(host) in reported <==> RejectCount(INITIAL, events, run) + 1 == 5
  {
    var s := After(INITIAL, events);
    var run, r := s.inflight[a].run, Next(s, Rejects(a));
    AfterKeeps(INITIAL, events);
    assert PaneOk(s, s.heap[run].drop.paneId) && Live(s, s.heap[run].drop.paneId) && AttemptOk(s, a);
    SpentAreRejections(INITIAL, events, run);
    assert InFlight(s, run);
    if s.inflight[a].number >= MAX {
      assert r.effects[|s.effects|..] == [FlashFailure(s.heap[run].drop.host), ServerCancel(s.heap[run].drop.paneId)];
    } else {
      assert r.effects[|s.effects|..] == [];
    }
  }

  // ---------- The length of a run ----------

  ghost function StepCount(s: State, events: seq<Event>, run: nat): nat
    requires Closed(s)
    decreases |events|
  {
    if events == [] then 0
    else (if RunOf(s, events[0]) == Some(run) then 1 else 0) + StepCount(Next(s, events[0]), events[1..], run)
  }

  /** How many more steps a run can take: two for each attempt left, and one to settle the attempt in flight. */
  ghost function Budget(s: State, run: nat): int
    requires Closed(s)
  {
    if run >= s.next then 2 * MAX
    else (if Current(s, run) then 2 * (MAX - Shown(s, run)) else 0) + (if InFlight(s, run) then 1 else 0)
  }

  /** Only a timer that fires puts an attempt in flight. */
  lemma OnlyFiresLaunch(s: State, e: Event, a: nat)
    requires Valid(s) && a in Next(s, e).inflight && !e.Fires?
    ensures a in s.inflight && s.inflight[a] == Next(s, e).inflight[a]
  {
    match e
    case Drops(drop) =>
    case Resolves(b) =>
    case Rejects(b) =>
    case Cancels(paneId) =>
      CancelEachKeepsAttempts(s, CancelledIds(s, paneId));
    case Activates(_) =>
  }

  lemma AttemptsComeFromStarts(s: State, e: Event, run: nat)
    requires Valid(s) && InFlight(Next(s, e), run)
    ensures InFlight(s, run) || Starts(s, e, run)
  {
    var a :| a in Next(s, e).inflight && Next(s, e).inflight[a].run == run;
    if !e.Fires? {
      OnlyFiresLaunch(s, e, a);
    } else if e.timer in s.armed {
      FiredLaunches(s, e.timer);
      FireStarts(s, e.timer);
    }
  }

  lemma {:induction false} CancelEachKeepsAttempts(s: State, ids: seq<string>)
    requires Closed(s)
    ensures CancelEach(s, ids).inflight == s.inflight
    decreases |ids|
  {
    if ids != [] {
      CancelEachKeepsAttempts(CancelOne(s, ids[0]), ids[1..]);
    }
  }

  lemma SettlingEndsAttempt(s: State, e: Event, run: nat)
    requires Valid(s) && RunOf(s, e) == Some(run) && !e.Fires?
    ensures InFlight(s, run) && !InFlight(Next(s, e), run)
  {
    SettleKeeps(s, e.attempt);
    assert Next(s, e).inflight == Settle(s, e.attempt).inflight;
  }

  lemma BudgetStep(s: State, e: Event, run: nat)
    requires Valid(s)
    ensures Budget(Next(s, e), run) + (if RunOf(s, e) == Some(run) then 1 else 0) <= Budget(s, run)
  {
    var r := Next(s, e);
    NextKeeps(s, e);
    StepsCreateOnlyFreshRuns(s, e);
    assert RunOk(s, run) && RunOk(r, run);
    ShownInRange(s, run);
    ShownInRange(r, run);
    if Current(r, run) {
      CountStep(s, e, run);
    }
    if run < s.next && !Current(s, run) {
      StaleStaysStale(s, e, run);
    }
    if InFlight(r, run) {
      AttemptsComeFromStarts(s, e, run);
    }
    if RunOf(s, e) == Some(run) {
      if e.Fires? {
        FireBudget(s, e.timer);
      } else {
        SettlingEndsAttempt(s, e, run);
      }
    }
  }

  lemma ShownInRange(s: State, run: nat)
    requires Valid(s)
    ensures 0 <= Shown(s, run) <= MAX
  {
    if Current(s, run) {
      assert PaneOk(s, s.heap[run].drop.paneId);
    }
  }

  lemma FireBudget(s: State, t: nat)
    requires Valid(s) && t in s.armed
    ensures var run := s.armed[t].run;
            run < s.next && Current(s, run) && !InFlight(s, run)
            && Current(Fired(s, t), run) && Shown(Fired(s, t), run) == Shown(s, run) + 1
  {
    var run := s.armed[t].run;
    FireStarts(s, t);
    FiredLaunches(s, t);
    DisarmKeeps(s, t);
    assert RunOk(s, run);
  }

  lemma {:induction false} StepsWithinBudget(s: State, events: seq<Event>, run: nat)
    requires Valid(s)
    ensures StepCount(s, events, run) <= Budget(s, run)
    decreases |events|
  {
    if events == [] {
      ShownInRange(s, run);
    } else {
      BudgetStep(s, events[0], run);
      NextKeeps(s, events[0]);
      StepsWithinBudget(Next(s, events[0]), events[1..], run);
    }
  }

  /** Every run ends: in any run of the system it takes at most ten steps, five attempts and their outcomes. */
  lemma EveryRunIsBounded(events: seq<Event>, run: nat)
    ensures StepCount(INITIAL, events, run) <= 2 * MAX == 10
  {
    StepsWithinBudget(INITIAL, events, run);
  }

  // ---------- A full outage ----------

  /** The loop waits for its first attempt, after the first backoff. */
  ghost predicate AwaitsFirstAttempt(loop: Loop) {
    && loop.run.Some? && loop.record.Some? && !loop.record.value.cancelled
    && loop.row.Some? && loop.row.value.attempt == 0
    && exists t :: t in loop.armed && loop.armed[t].delay == BACKOFFS[0]
  }

  /** Nothing but transport drops. */
  ghost predicate Outage(events: seq<Event>) {
    forall e :: e in events ==> e.Drops? && e.drop.reason == "transport-dropped"
  }

  lemma DropStartsLoop(s: State, drop: Drop)
    requires Valid(s) && drop.reason == "transport-dropped"
    ensures AwaitsFirstAttempt(LoopOf(Dropped(s, drop), drop.paneId))
  {
    var c, r := ClearTimer(MarkCancelled(s, drop.paneId), drop.paneId), Dropped(s, drop);
    BeginRow(c, drop, drop.paneId);
    var loop := LoopOf(r, drop.paneId);
    assert c.next + 1 in loop.armed;
  }

  /**
   When many panes drop together, in any order and with repeats, every pane that dropped,
   and every pane that awaited its first attempt before, awaits its first attempt after.
   */
  lemma {:induction false} EveryDroppedPaneIsRetried(s: State, events: seq<Event>, p: string)
    requires Valid(s) && Outage(events)
    requires AwaitsFirstAttempt(LoopOf(s, p)) || exists e :: e in events && e.drop.paneId == p
    ensures AwaitsFirstAttempt(LoopOf(After(s, events), p))
    decreases |events|
  {
    if events != [] {
      var e, rest := events[0], events[1..];
      assert e in events && Outage(rest);
      DroppedKeeps(s, e.drop);
      if e.drop.paneId == p {
        DropStartsLoop(s, e.drop);
      } else {
        DropLeavesSibling(s, e.drop, p);
        assert AwaitsFirstAttempt(LoopOf(s, p)) || exists x :: x in rest && x.drop.paneId == p;
      }
      EveryDroppedPaneIsRetried(Dropped(s, e.drop), rest, p);
    }
  }

  // ---------- A connect that never rejects ----------

  /** No loop has got past its first attempt. */
  ghost predicate FirstAttemptsOnly(s: State) {
    && (forall t :: t in s.armed ==> s.armed[t].delay == BACKOFFS[0])
    && (forall a :: a in s.inflight ==> s.inflight[a].number == 1)
    && (forall effect :: effect in s.effects ==> !effect.FlashFailure?)
  }

  lemma {:induction false} CancelEachKeepsFirst(s: State, ids: seq<string>)
    requires Closed(s) && FirstAttemptsOnly(s)
    ensures FirstAttemptsOnly(CancelEach(s, ids))
    decreases |ids|
  {
    if ids != [] {
      CancelEachKeepsFirst(CancelOne(s, ids[0]), ids[1..]);
    }
  }

  lemma DropKeepsFirst(s: State, drop: Drop)
    requires Closed(s) && FirstAttemptsOnly(s)
    ensures FirstAttemptsOnly(Dropped(s, drop))
  {
    var c := ClearTimer(MarkCancelled(s, drop.paneId), drop.paneId);
    assert FirstAttemptsOnly(c);
  }

  lemma FireKeepsFirst(s: State, t: nat)
    requires Valid(s) && FirstAttemptsOnly(s)
    ensures FirstAttemptsOnly(Fired(s, t))
  {
    if t in s.armed {
      FiredLaunches(s, t);
      assert TimerOk(s, t);
    }
  }

  lemma ResolveKeepsFirst(s: State, a: nat)
    requires Closed(s) && FirstAttemptsOnly(s)
    ensures FirstAttemptsOnly(Resolved(s, a))
  {
    if a in s.inflight {
      var e := End(Settle(s, a), s.heap[s.inflight[a].run].drop.paneId);
      assert FirstAttemptsOnly(e);
    }
  }

  lemma NoRejectStep(s: State, e: Event)
    requires Valid(s) && FirstAttemptsOnly(s) && !e.Rejects?
    ensures FirstAttemptsOnly(Next(s, e))
  {
    match e
    case Drops(drop) => DropKeepsFirst(s, drop);
    case Fires(t) => FireKeepsFirst(s, t);
    case Resolves(a) => ResolveKeepsFirst(s, a);
    case Cancels(paneId) =>
      CancelEachKeepsFirst(s, CancelledIds(s, paneId));
    case Activates(_) =>
  }

  lemma {:induction false} NoRejectMeansFirstAttemptsOnly(s: State, events: seq<Event>)
    requires Valid(s) && FirstAttemptsOnly(s) && forall i :: 0 <= i < |events| ==> !events[i].Rejects?
    ensures FirstAttemptsOnly(After(s, events))
    decreases |events|
  {
    if events != [] {
      NoRejectStep(s, events[0]);
      NextKeeps(s, events[0]);
      NoRejectMeansFirstAttemptsOnly(Next(s, events[0]), events[1..]);
    }
  }

  lemma FirstAttemptRow(s: State, p: string)
    requires Valid(s) && FirstAttemptsOnly(s) && p in s.runs
    ensures Row(s.toasts, p).Some? && Row(s.toasts, p).value.attempt <= 1
  {
    assert PaneOk(s, p) && Live(s, p);
    if TimerArmed(s, s.runs[p]) {
      assert TimerOk(s, s.heap[s.runs[p]].timer.value);
    } else {
      var a :| a in s.inflight && s.inflight[a].run == s.runs[p];
      assert AttemptOk(s, a);
    }
  }

  /**
   A connect that reports its errors elsewhere and never rejects defeats the retries:
   no row ever shows a second attempt, and no loop ever gives up.
   */
  lemma SwallowedErrorsAllowOneAttempt(events: seq<Event>, p: string)
    requires forall i :: 0 <= i < |events| ==> !events[i].Rejects?
    ensures var s := After(INITIAL, events);
            && (p in s.runs ==> Row(s.toasts, p).Some? && Row(s.toasts, p).value.attempt <= 1)
            && (forall effect :: effect in s.effects ==> !effect.FlashFailure?)
  {
    AfterKeeps(INITIAL, events);
    NoRejectMeansFirstAttemptsOnly(INITIAL, events);
    if p in After(INITIAL, events).runs {
      FirstAttemptRow(After(INITIAL, events), p);
    }
  }
}
