/**
 What the reconnect loops guarantee over whole runs.
 */
module ReconnectRuns {
  import opened Options
  import opened ReconnectSteps
  import opened ReconnectSafety

  // ---------- Safety ----------

  /** Everything that can still continue a run: its armed timers and its unsettled attempts. */
  ghost function Pending(s: State, run: nat): set<nat> {
    (set t | t in s.armed && s.armed[t].run == run) + (set a | a in s.inflight && s.inflight[a].run == run)
  }

  lemma PendingTimer(s: State, run: nat, h: nat)
    requires Valid(s) && run in s.heap && h in Pending(s, run)
    ensures h in s.armed && s.armed[h].run == run ==> s.heap[run].timer == Some(h)
    ensures TimerArmed(s, run) ==> h == s.heap[run].timer.value
  {
    assert TimerOk(s, h) && AttemptOk(s, h);
  }

  lemma OnePending(s: State, p: string)
    requires Valid(s) && p in s.runs
    ensures |Pending(s, s.runs[p])| == 1
  {
    var run := s.runs[p];
    var h: nat;
    assert Live(s, p);
    if TimerArmed(s, run) {
      h := s.heap[run].timer.value;
    } else {
      var a :| a in s.inflight && s.inflight[a].run == run;
      h := a;
    }
    forall k | k in Pending(s, run) ensures k == h {
      PendingTimer(s, run, k);
    }
    assert Pending(s, run) == {h};
  }

  /** The rows on the screen and the run map name the same panes, each once. */
  lemma RowsNameTheRuns(events: seq<Event>)
    ensures var s := After(INITIAL, events);
            OneRowEach(s.toasts) && forall p :: p in RowIds(s.toasts) <==> p in s.runs
  {
    var s := After(INITIAL, events);
    AfterKeeps(INITIAL, events);
    forall p ensures p in RowIds(s.toasts) <==> p in s.runs {
      assert PaneOk(s, p);
      RowIsMember(s.toasts, p);
      if i :| 0 <= i < |s.toasts| && s.toasts[i].paneId == p {
        assert RowIds(s.toasts)[i] == p;
      }
    }
  }

  /**
   In every reachable state each pane of the run map waits for exactly one thing, an
   armed timer or an attempt of its current run; that run is not cancelled, and its
   row counts at most five attempts.
   */
  lemma EachRunWaitsForOneThing(events: seq<Event>, p: string)
    requires p in After(INITIAL, events).runs
    ensures var s := After(INITIAL, events);
            && s.runs[p] in s.heap && !s.heap[s.runs[p]].cancelled
            && |Pending(s, s.runs[p])| == 1
            && Row(s.toasts, p).Some? && Row(s.toasts, p).value.attempt <= MAX
  {
    var s := After(INITIAL, events);
    AfterKeeps(INITIAL, events);
    assert PaneOk(s, p) && Live(s, p);
    OnePending(s, p);
  }

  /** Every armed timer belongs to a current run, and its backoff index is in range. */
  lemma EveryTimerIsCurrent(events: seq<Event>, t: nat)
    requires t in After(INITIAL, events).armed
    ensures var s := After(INITIAL, events);
            && Current(s, s.armed[t].run)
            && var row := Row(s.toasts, s.heap[s.armed[t].run].drop.paneId);
               row.Some? && row.value.attempt < |BACKOFFS| && s.armed[t].delay == BACKOFFS[row.value.attempt]
  {
    AfterKeeps(INITIAL, events);
    assert TimerOk(After(INITIAL, events), t);
  }

  // ---------- A run that is no longer current ----------

  /** The run whose continuation an event is. */
  ghost function RunOf(s: State, e: Event): Option<nat> {
    match e
    case Fires(t) => if t in s.armed then Some(s.armed[t].run) else None
    case Resolves(a) => if a in s.inflight then Some(s.inflight[a].run) else None
    case Rejects(a) => if a in s.inflight then Some(s.inflight[a].run) else None
    case _ => None
  }

  /** A superseded or cancelled run changes nothing when it continues, beyond settling its own attempt. */
  lemma SupersededRunIsInert(s: State, e: Event, run: nat)
    requires Valid(s) && RunOf(s, e) == Some(run) && !Current(s, run)
    ensures e.Resolves? || e.Rejects?
    ensures Next(s, e) == Settle(s, e.attempt)
  {
    forall t | t in s.armed ensures Current(s, s.armed[t].run) { assert TimerOk(s, t); }
  }

  /** A step keeps the drop of every run it knew, and gives a pane at most a fresh run. */
  ghost predicate OnlyFreshRuns(s: State, r: State) {
    && s.next <= r.next
    && (forall run :: run in s.heap ==> run in r.heap && r.heap[run].drop == s.heap[run].drop)
    && (forall p :: p in r.runs ==> (p in s.runs && r.runs[p] == s.runs[p]) || s.next <= r.runs[p])
  }

  lemma ClearCreatesNoRuns(s: State, p: string)
    requires Closed(s)
    ensures OnlyFreshRuns(s, ClearTimer(s, p)) && ClearTimer(s, p).next == s.next
  {
  }

  lemma EndCreatesNoRuns(s: State, p: string)
    requires Closed(s)
    ensures OnlyFreshRuns(s, End(s, p)) && End(s, p).next == s.next
  {
    ClearCreatesNoRuns(s, p);
  }

  lemma {:induction false} CancelEachCreatesNoRuns(s: State, ids: seq<string>)
    requires Closed(s)
    ensures OnlyFreshRuns(s, CancelEach(s, ids)) && CancelEach(s, ids).next == s.next
    decreases |ids|
  {
    if ids != [] {
      CancelOneCreatesNoRuns(s, ids[0]);
      CancelEachCreatesNoRuns(CancelOne(s, ids[0]), ids[1..]);
      NoRunsTransitive(s, CancelOne(s, ids[0]), CancelEach(s, ids));
    }
  }

  lemma CancelOneCreatesNoRuns(s: State, p: string)
    requires Closed(s)
    ensures OnlyFreshRuns(s, CancelOne(s, p)) && CancelOne(s, p).next == s.next
  {
    var m := MarkCancelled(s, p);
    EndCreatesNoRuns(m, p);
    NoRunsTransitive(s, m, End(m, p));
  }

  lemma NoRunsTransitive(s: State, m: State, r: State)
    requires OnlyFreshRuns(s, m) && OnlyFreshRuns(m, r) && s.next == m.next
    ensures OnlyFreshRuns(s, r)
  {
  }

  lemma BeginCreatesFreshRun(s: State, drop: Drop)
    requires Closed(s) && forall run :: RunOk(s, run)
    ensures OnlyFreshRuns(s, Begin(s, drop))
  {
    forall run | run in s.heap ensures run < s.next { assert RunOk(s, run); }
  }

  lemma DropCreatesOnlyFreshRuns(s: State, drop: Drop)
    requires Valid(s)
    ensures OnlyFreshRuns(s, Dropped(s, drop))
  {
    var p := drop.paneId;
    var m := MarkCancelled(s, p);
    var c := ClearTimer(m, p);
    MarkKeeps(s, p);
    ClearKeeps(m, p);
    ClearCreatesNoRuns(m, p);
    NoRunsTransitive(s, m, c);
    BeginCreatesFreshRun(c, drop);
    NoRunsTransitive(s, c, Begin(c, drop));
  }

  lemma StepsCreateOnlyFreshRuns(s: State, e: Event)
    requires Valid(s)
    ensures OnlyFreshRuns(s, Next(s, e))
  {
    match e
    case Drops(drop) => DropCreatesOnlyFreshRuns(s, drop);
    case Fires(t) =>
    case Resolves(a) => ResolvingCreatesNoRuns(s, a);
    case Rejects(a) => RejectingCreatesNoRuns(s, a);
    case Cancels(paneId) =>
      CancelEachCreatesNoRuns(s, CancelledIds(s, paneId));
    case Activates(_) =>
  }

  lemma ResolvingCreatesNoRuns(s: State, a: nat)
    requires Closed(s)
    ensures OnlyFreshRuns(s, Resolved(s, a))
  {
    if a in s.inflight {
      EndCreatesNoRuns(Settle(s, a), s.heap[s.inflight[a].run].drop.paneId);
    }
  }

  lemma RejectingCreatesNoRuns(s: State, a: nat)
    requires Closed(s)
    ensures OnlyFreshRuns(s, Rejected(s, a))
  {
    if a in s.inflight {
      var s1, run, r := Settle(s, a), s.inflight[a].run, Rejected(s, a);
      if Current(s, run) && !s.heap[run].cancelled {
        if s.inflight[a].number >= MAX {
          var e := End(s1, s.heap[run].drop.paneId);
          EndCreatesNoRuns(s1, s.heap[run].drop.paneId);
          assert r == e.(effects := r.effects);
        }
      }
    }
  }

  lemma StaleStaysStale(s: State, e: Event, run: nat)
    requires Valid(s) && run < s.next && !Current(s, run)
    ensures !Current(Next(s, e), run) && run < Next(s, e).next
  {
    StepsCreateOnlyFreshRuns(s, e);
  }

  /** Once superseded or cancelled, a run is never the current one again. */
  lemma {:induction false} NeverCurrentAgain(s: State, events: seq<Event>, run: nat)
    requires Valid(s) && run < s.next && !Current(s, run)
    ensures !Current(After(s, events), run)
    decreases |events|
  {
    if events != [] {
      NextKeeps(s, events[0]);
      StaleStaysStale(s, events[0], run);
      NeverCurrentAgain(Next(s, events[0]), events[1..], run);
    }
  }

  // ---------- Siblings ----------

  /** Everything about one pane's loop. */
  datatype Loop = Loop(run: Option<nat>, record: Option<Run>, row: Option<Toast>,
                       armed: map<nat, Timer>, inflight: map<nat, Attempt>)

  ghost function ArmedFor(s: State, run: nat): map<nat, Timer> {
    map t | t in s.armed && s.armed[t].run == run :: s.armed[t]
  }

  ghost function AttemptsFor(s: State, run: nat): map<nat, Attempt> {
    map a | a in s.inflight && s.inflight[a].run == run :: s.inflight[a]
  }

  ghost function LoopOf(s: State, p: string): Loop
    requires Closed(s)
  {
    var row := Row(s.toasts, p);
    if p !in s.runs then Loop(None, None, row, map[], map[])
    else Loop(Some(s.runs[p]), Some(s.heap[s.runs[p]]), row, ArmedFor(s, s.runs[p]), AttemptsFor(s, s.runs[p]))
  }

  /** The only pane an event is about; cancelling everything is about no single pane. */
  ghost function Subject(s: State, e: Event): Option<string>
    requires Closed(s)
  {
    match e
    case Drops(drop) => Some(drop.paneId)
    case Cancels(paneId) => if paneId == Some("") then None else paneId
    case _ => if RunOf(s, e).Some? then Some(s.heap[RunOf(s, e).value].drop.paneId) else None
  }

  ghost predicate SameTimer(s: State, r: State, run: nat, t: nat) {
    (t in s.armed && s.armed[t].run == run) || (t in r.armed && r.armed[t].run == run) ==>
      t in s.armed && t in r.armed && s.armed[t] == r.armed[t]
  }

  ghost predicate SameAttempt(s: State, r: State, run: nat, a: nat) {
    (a in s.inflight && s.inflight[a].run == run) || (a in r.inflight && r.inflight[a].run == run) ==>
      a in s.inflight && a in r.inflight && s.inflight[a] == r.inflight[a]
  }

  lemma SameLoop(s: State, r: State, q: string)
    requires Closed(s) && Closed(r) && Row(s.toasts, q) == Row(r.toasts, q)
    requires q in s.runs <==> q in r.runs
    requires q in s.runs ==> s.runs[q] == r.runs[q] && s.heap[s.runs[q]] == r.heap[r.runs[q]]
    requires forall t :: q in s.runs ==> SameTimer(s, r, s.runs[q], t)
    requires forall a :: q in s.runs ==> SameAttempt(s, r, s.runs[q], a)
    ensures LoopOf(s, q) == LoopOf(r, q)
  {
    if q in s.runs {
      var run := s.runs[q];
      assert ArmedFor(s, run) == ArmedFor(r, run) by {
        forall t ensures t in ArmedFor(s, run) <==> t in ArmedFor(r, run)
                 ensures t in ArmedFor(s, run) ==> ArmedFor(s, run)[t] == ArmedFor(r, run)[t] {
          assert SameTimer(s, r, run, t);
        }
      }
      assert AttemptsFor(s, run) == AttemptsFor(r, run) by {
        forall a ensures a in AttemptsFor(s, run) <==> a in AttemptsFor(r, run)
                 ensures a in AttemptsFor(s, run) ==> AttemptsFor(s, run)[a] == AttemptsFor(r, run)[a] {
          assert SameAttempt(s, r, run, a);
        }
      }
    }
  }

  lemma MarkLeavesSibling(s: State, p: string, q: string)
    requires Valid(s) && p != q
    ensures LoopOf(MarkCancelled(s, p), q) == LoopOf(s, q)
  {
    assert PaneOk(s, p) && PaneOk(s, q);
    SameLoop(MarkCancelled(s, p), s, q);
  }

  lemma ClearLeavesSibling(s: State, p: string, q: string)
    requires ValidBut(s, {p}) && p != q
    ensures LoopOf(ClearTimer(s, p), q) == LoopOf(s, q)
  {
    assert PaneOk(s, p) && PaneOk(s, q);
    if p in s.runs { assert RunOk(s, s.runs[p]); }
    SameLoop(ClearTimer(s, p), s, q);
  }

  lemma EndLeavesSibling(s: State, p: string, q: string)
    requires ValidBut(s, {p}) && p != q
    ensures LoopOf(End(s, p), q) == LoopOf(s, q)
  {
    var c := ClearTimer(s, p);
    ClearLeavesSibling(s, p, q);
    RowWithout(c.toasts, p, q);
    SameLoop(Remove(c, p), c, q);
  }

  lemma BeginLeavesSibling(s: State, drop: Drop, q: string)
    requires ValidBut(s, {drop.paneId}) && drop.paneId != q
    ensures LoopOf(Begin(s, drop), q) == LoopOf(s, q)
  {
    var r := Begin(s, drop);
    BeginRow(s, drop, q);
    assert PaneOk(s, q);
    if q in s.runs {
      assert RunOk(s, s.runs[q]);
      forall t ensures SameTimer(r, s, s.runs[q], t) { assert TimerOk(s, t); }
    }
    SameLoop(r, s, q);
  }

  lemma DropLeavesSibling(s: State, drop: Drop, q: string)
    requires Valid(s) && drop.paneId != q
    ensures LoopOf(Dropped(s, drop), q) == LoopOf(s, q)
  {
    var p := drop.paneId;
    MarkKeeps(s, p);
    ClearKeeps(MarkCancelled(s, p), p);
    MarkLeavesSibling(s, p, q);
    ClearLeavesSibling(MarkCancelled(s, p), p, q);
    BeginLeavesSibling(ClearTimer(MarkCancelled(s, p), p), drop, q);
  }

  lemma LaunchLeavesSibling(s: State, run: nat, attempt: nat, q: string)
    requires Closed(s) && run in s.heap && (forall a :: AttemptOk(s, a)) && PaneOk(s, q)
    requires q != s.heap[run].drop.paneId
    ensures LoopOf(Launch(s, run, attempt), q) == LoopOf(s, q)
  {
    var r := Launch(s, run, attempt);
    RowWithAttempt(s.toasts, s.heap[run].drop.paneId, attempt, q);
    if q in s.runs {
      forall a ensures SameAttempt(r, s, s.runs[q], a) { assert AttemptOk(s, a); }
    }
    SameLoop(r, s, q);
  }

  lemma FireLeavesSibling(s: State, t: nat, q: string)
    requires Valid(s) && t in s.armed && q != s.heap[s.armed[t].run].drop.paneId
    ensures LoopOf(Fired(s, t), q) == LoopOf(s, q)
  {
    var s1, run := s.(armed := s.armed - {t}), s.armed[t].run;
    FiredLaunches(s, t);
    assert PaneOk(s, q);
    SameLoop(s1, s, q);
    forall a ensures AttemptOk(s1, a) { assert AttemptOk(s, a); }
    LaunchLeavesSibling(s1, run, Row(s.toasts, s.heap[run].drop.paneId).value.attempt + 1, q);
  }

  lemma SettleLeavesSibling(s: State, a: nat, q: string)
    requires Valid(s) && a in s.inflight && q != s.heap[s.inflight[a].run].drop.paneId
    ensures LoopOf(Settle(s, a), q) == LoopOf(s, q)
  {
    assert PaneOk(s, q);
    SameLoop(Settle(s, a), s, q);
  }

  lemma RearmLeavesSibling(s: State, run: nat, delay: nat, q: string)
    requires Closed(s) && run in s.heap && (forall t :: TimerOk(s, t)) && PaneOk(s, q)
    requires q != s.heap[run].drop.paneId
    ensures LoopOf(Rearm(s, run, delay), q) == LoopOf(s, q)
  {
    var r := Rearm(s, run, delay);
    if q in s.runs {
      forall t ensures SameTimer(r, s, s.runs[q], t) { assert TimerOk(s, t); }
    }
    SameLoop(r, s, q);
  }

  lemma RejectLeavesSibling(s: State, a: nat, q: string)
    requires Valid(s) && a in s.inflight && q != s.heap[s.inflight[a].run].drop.paneId
    ensures LoopOf(Rejected(s, a), q) == LoopOf(s, q)
  {
    var run := s.inflight[a].run;
    var p, s1 := s.heap[run].drop.paneId, Settle(s, a);
    SettleKeeps(s, a);
    SettleLeavesSibling(s, a, q);
    EndLeavesSibling(s1, p, q);
    assert PaneOk(s, p) && Live(s, p) && PaneOk(s1, q);
    if Current(s, run) && s.inflight[a].number < MAX {
      RearmLeavesSibling(s1, run, BACKOFFS[s.inflight[a].number], q);
    } else if Current(s, run) {
      var e := End(s1, p);
      assert LoopOf(Rejected(s, a), q) == LoopOf(e, q);
    }
  }

  lemma CancelLeavesSibling(s: State, p: string, q: string)
    requires Valid(s) && p != q
    ensures LoopOf(CancelOne(s, p), q) == LoopOf(s, q)
  {
    var e := End(MarkCancelled(s, p), p);
    MarkKeeps(s, p);
    MarkLeavesSibling(s, p, q);
    EndLeavesSibling(MarkCancelled(s, p), p, q);
    assert LoopOf(CancelOne(s, p), q) == LoopOf(e, q);
  }

  /** No step about one pane touches another pane's run, row, timer or attempt. */
  lemma StepLeavesSibling(s: State, e: Event, q: string)
    requires Valid(s) && Subject(s, e).Some? && Subject(s, e).value != q
    ensures LoopOf(Next(s, e), q) == LoopOf(s, q)
  {
    var p := Subject(s, e).value;
    match e
    case Drops(drop) => DropLeavesSibling(s, drop, q);
    case Fires(t) => FireLeavesSibling(s, t, q);
    case Resolves(a) =>
      var s1 := Settle(s, a);
      SettleKeeps(s, a);
      SettleLeavesSibling(s, a, q);
      EndLeavesSibling(s1, p, q);
      assert LoopOf(Resolved(s, a), q) == LoopOf(if Current(s, s.inflight[a].run) then End(s1, p) else s1, q);
    case Rejects(a) => RejectLeavesSibling(s, a, q);
    case Cancels(_) =>
      CancelLeavesSibling(s, p, q);
      assert CancelEach(s, [p]) == CancelOne(s, p);
  }
}
