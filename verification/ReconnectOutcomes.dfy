/**
 What each step means for the loop of the pane it is about: how an attempt that settles
 ends or continues it, what a drop starts and what a cancel stops.
 */
module ReconnectOutcomes {
  import opened Options
  import opened ReconnectSteps
  import opened ReconnectRuns
  import opened ReconnectSafety
  import opened Sequences

  const NO_LOOP: Loop := Loop(None, None, None, map[], map[])

  /** The loop waits for one timer of that delay and for nothing else. */
  ghost predicate WaitsFor(loop: Loop, delay: nat) {
    && loop.inflight == map[]
    && exists t :: loop.armed.Keys == {t} && loop.armed[t].delay == delay
  }

  /** No timer and no attempt belongs to the run whose handle comes next. */
  ghost predicate NextIsUnused(s: State) {
    && (forall t :: t in s.armed ==> s.armed[t].run < s.next)
    && (forall a :: a in s.inflight ==> s.inflight[a].run < s.next)
  }

  lemma BegunLoop(s: State, drop: Drop)
    requires Closed(s) && NextIsUnused(s)
    ensures var loop := LoopOf(Begin(s, drop), drop.paneId);
            && loop.record.Some? && loop.record.value.drop == drop
            && loop.row == Some(Toast(drop.paneId, drop.host, drop.workspaceId, 0, 5))
            && WaitsFor(loop, 1000)
  {
    var r := Begin(s, drop);
    BeginRow(s, drop, drop.paneId);
    assert ArmedFor(r, s.next).Keys == {s.next + 1};
    assert AttemptsFor(r, s.next) == map[];
  }

  lemma HandlesBelowNext(s: State)
    requires Valid(s)
    ensures NextIsUnused(s)
  {
    assert forall run :: run in s.heap ==> RunOk(s, run);
  }

  /** The run that the pane had, if any, is marked cancelled, and the pane has another one or none. */
  ghost predicate Superseded(s: State, r: State, p: string) {
    p in s.runs ==>
      && s.runs[p] in r.heap && r.heap[s.runs[p]].cancelled
      && (p in r.runs ==> r.runs[p] != s.runs[p])
  }

  /**
   A drop gives its pane a loop for just this drop, at zero attempts, that waits one
   second, and marks the one in progress cancelled; nothing is asked for yet.
   */
  lemma DropRestartsLoop(s: State, drop: Drop)
    requires Valid(s) && drop.reason == "transport-dropped"
    ensures var r := Next(s, Drops(drop));
            var loop := LoopOf(r, drop.paneId);
            && loop.record.Some? && loop.record.value.drop == drop
            && loop.row == Some(Toast(drop.paneId, drop.host, drop.workspaceId, 0, 5))
            && WaitsFor(loop, 1000)
            && Superseded(s, r, drop.paneId)
            && r.effects == s.effects && r.inflight == s.inflight
  {
    HandlesBelowNext(s);
    BegunLoop(ClearTimer(MarkCancelled(s, drop.paneId), drop.paneId), drop);
    assert PaneOk(s, drop.paneId);
    if drop.paneId in s.runs {
      assert RunOk(s, s.runs[drop.paneId]);
    }
  }

  /** A drop for another reason, and the firing or settling of what is no longer pending, change nothing. */
  lemma NothingToContinue(s: State, e: Event)
    requires Closed(s)
    requires match e
             case Drops(drop) => drop.reason != "transport-dropped"
             case Fires(t) => t !in s.armed
             case Resolves(a) => a !in s.inflight
             case Rejects(a) => a !in s.inflight
             case _ => false
    ensures Next(s, e) == s
  {
  }

  lemma {:induction false} CancelEachStays(s: State, ids: seq<string>)
    requires Closed(s)
    ensures CancelEach(s, ids).active == s.active
    decreases |ids|
  {
    if ids != [] {
      CancelEachStays(CancelOne(s, ids[0]), ids[1..]);
    }
  }

  /** The user alone changes workspace, and a change of workspace leaves every loop as it is. */
  lemma OnlyTheUserMoves(s: State, e: Event, p: string)
    requires Closed(s)
    ensures match e
            case Activates(workspace) =>
              var r := Next(s, e);
              r.active == workspace && LoopOf(r, p) == LoopOf(s, p) && r.toasts == s.toasts && r.effects == s.effects
            case _ => Next(s, e).active == s.active
  {
    if e.Cancels? {
      CancelEachStays(s, CancelledIds(s, e.paneId));
    } else if e.Activates? {
      assert ArmedFor(Next(s, e), 0) == ArmedFor(s, 0);
    }
  }

  /** The same run, with a row that differs by one attempt more. */
  ghost predicate CountsOneMore(before: Loop, after: Loop) {
    && after.run == before.run && after.record == before.record
    && before.row.Some? && after.row == Some(before.row.value.(attempt := before.row.value.attempt + 1))
  }

  lemma FiringCounts(s: State, t: nat)
    requires Valid(s) && t in s.armed
    ensures var p := s.heap[s.armed[t].run].drop.paneId;
            CountsOneMore(LoopOf(s, p), LoopOf(Fired(s, t), p))
  {
    var p := s.heap[s.armed[t].run].drop.paneId;
    FiredLaunches(s, t);
    RowWithAttempt(s.toasts, p, Row(s.toasts, p).value.attempt + 1, p);
  }

  /**
   A timer that fires asks for a connect with what the drop recorded, but in the workspace
   that is active now; its row counts one attempt more, and its loop waits for that attempt
   alone.
   */
  lemma FiringConnects(s: State, t: nat)
    requires Valid(s) && t in s.armed
    ensures var drop := s.heap[s.armed[t].run].drop;
            var r := Next(s, Fires(t));
            && r.effects == s.effects + [Connecting(drop.paneId, s.active, drop.persistent, drop.tmuxSession)]
            && LoopOf(r, drop.paneId).armed == map[] && |LoopOf(r, drop.paneId).inflight| == 1
            && r.armed == s.armed - {t}
            && CountsOneMore(LoopOf(s, drop.paneId), LoopOf(r, drop.paneId))
  {
    var run, r := s.armed[t].run, Fired(s, t);
    var p := s.heap[run].drop.paneId;
    FiredLaunches(s, t);
    assert s.runs[p] == run;
    forall u | u in s.armed && s.armed[u].run == run ensures u == t {
      assert TimerOk(s, u) && TimerOk(s, t);
    }
    assert ArmedFor(r, run) == map[];
    forall a | a in s.inflight ensures s.inflight[a].run != run && a < s.next {
      assert AttemptOk(s, a) && TimerOk(s, t);
    }
    assert AttemptsFor(r, run) == map[s.next := r.inflight[s.next]];
    FiringCounts(s, t);
  }

  /** The attempt is made in the workspace of the drop exactly when that one is active as the timer fires. */
  lemma AttemptReachesItsWorkspaceIff(s: State, t: nat)
    requires Valid(s) && t in s.armed
    ensures var drop := s.heap[s.armed[t].run].drop;
            var wanted := Connecting(drop.paneId, Some(drop.workspaceId), drop.persistent, drop.tmuxSession);
            wanted in Next(s, Fires(t)).effects[|s.effects|..] <==> s.active == Some(drop.workspaceId)
  {
    FiringConnects(s, t);
    var drop := s.heap[s.armed[t].run].drop;
    assert Next(s, Fires(t)).effects[|s.effects|..]
        == [Connecting(drop.paneId, s.active, drop.persistent, drop.tmuxSession)];
  }

  /** A switch of workspace during the backoff sends the connect of the pane to the other workspace. */
  lemma SwitchMisdirectsAttempt(drop: Drop, other: Option<string>)
    requires drop.reason == "transport-dropped"
    ensures After(INITIAL, [Drops(drop), Activates(other), Fires(1)]).effects
            == [Connecting(drop.paneId, other, drop.persistent, drop.tmuxSession)]
  {
    var begun := Next(INITIAL, Drops(drop));
    DroppedKeeps(INITIAL, drop);
    var switched := Next(begun, Activates(other));
    NextKeeps(begun, Activates(other));
    FiringConnects(switched, 1);
    AfterThree(INITIAL, Drops(drop), Activates(other), Fires(1));
  }

  lemma EndedLoop(s: State, p: string)
    requires Closed(s)
    ensures LoopOf(End(s, p), p) == NO_LOOP
  {
    RowWithout(ClearTimer(s, p).toasts, p, p);
  }

  /** A connect that resolves ends its loop and reports success. */
  lemma ResolveEndsLoop(s: State, a: nat)
    requires Valid(s) && a in s.inflight && Current(s, s.inflight[a].run)
    ensures var drop, r := s.heap[s.inflight[a].run].drop, Next(s, Resolves(a));
            && LoopOf(r, drop.paneId) == NO_LOOP && r.inflight == s.inflight - {a}
            && r.effects == s.effects + [FlashSuccess(drop.host)]
  {
    var p := s.heap[s.inflight[a].run].drop.paneId;
    EndedLoop(Settle(s, a), p);
    assert LoopOf(Next(s, Resolves(a)), p) == LoopOf(End(Settle(s, a), p), p);
  }

  /**
   A connect that rejects leaves row and run as they are and waits for the backoff after
   the attempts on the row, until the row shows five; then the loop ends in a failure.
   */
  lemma RejectRetriesUntilFive(s: State, a: nat)
    requires Valid(s) && a in s.inflight && Current(s, s.inflight[a].run)
    ensures var drop, r := s.heap[s.inflight[a].run].drop, Next(s, Rejects(a));
            var before, after := LoopOf(s, drop.paneId), LoopOf(r, drop.paneId);
            before.row.Some? && before.row.value.attempt <= 5 && r.inflight == s.inflight - {a}
            && if before.row.value.attempt < 5 then
                 && after.run == before.run && after.row == before.row
                 && WaitsFor(after, BACKOFFS[before.row.value.attempt])
                 && r.effects == s.effects
               else
                 && after == NO_LOOP
                 && r.effects == s.effects + [FlashFailure(drop.host), ServerCancel(drop.paneId)]
  {
    var run := s.inflight[a].run;
    var p := s.heap[run].drop.paneId;
    assert PaneOk(s, p) && Live(s, p) && AttemptOk(s, a);
    if s.inflight[a].number < MAX {
      RearmedLoop(s, a);
    } else {
      EndedLoop(Settle(s, a), p);
      assert LoopOf(Next(s, Rejects(a)), p) == LoopOf(End(Settle(s, a), p), p);
    }
  }

  lemma RearmedLoop(s: State, a: nat)
    requires Valid(s) && a in s.inflight && Current(s, s.inflight[a].run) && s.inflight[a].number < MAX
    ensures var run, r := s.inflight[a].run, Rejected(s, a);
            var after := LoopOf(r, s.heap[run].drop.paneId);
            after.run == Some(run) && WaitsFor(after, BACKOFFS[s.inflight[a].number])
  {
    var run, r := s.inflight[a].run, Rejected(s, a);
    var p := s.heap[run].drop.paneId;
    assert PaneOk(s, p) && Live(s, p) && AttemptOk(s, a);
    SettleKeeps(s, a);
    forall t | t in s.armed ensures s.armed[t].run != run {
      assert TimerOk(s, t);
    }
    assert ArmedFor(r, run).Keys == {s.next};
    assert AttemptsFor(r, run) == map[];
  }

  /**
   Cancelling a pane marks its run cancelled, ends its loop and tells the server, whether or
   not it had one.
   */
  lemma CancelEndsLoop(s: State, p: string)
    requires Valid(s) && p != ""
    ensures var r := Next(s, Cancels(Some(p)));
            && LoopOf(r, p) == NO_LOOP && Superseded(s, r, p)
            && r.effects == s.effects + [ServerCancel(p)] && r.inflight == s.inflight
  {
    assert CancelEach(s, [p]) == CancelEach(CancelOne(s, p), [][..]) == CancelOne(s, p);
    EndedLoop(MarkCancelled(s, p), p);
  }

  lemma {:induction false} CancelEachEnds(s: State, ids: seq<string>, p: string)
    requires Closed(s) && (p in ids || p !in s.runs)
    ensures p !in CancelEach(s, ids).runs
    decreases |ids|
  {
    if ids != [] {
      assert p == ids[0] || p in ids[1..] || p !in s.runs;
      CancelEachEnds(CancelOne(s, ids[0]), ids[1..], p);
    }
  }

  /** The messages that tell the server to cancel these panes, in order. */
  ghost function ServerCancels(ids: seq<string>): (r: seq<Effect>)
    ensures |r| == |ids| && forall i :: 0 <= i < |ids| ==> r[i] == ServerCancel(ids[i])
  {
    seq(|ids|, i requires 0 <= i < |ids| => ServerCancel(ids[i]))
  }

  lemma {:induction false} CancelEachTells(s: State, ids: seq<string>)
    requires Closed(s)
    ensures CancelEach(s, ids).effects == s.effects + ServerCancels(ids)
    ensures CancelEach(s, ids).inflight == s.inflight
    decreases |ids|
  {
    if ids != [] {
      var first, rest := [ServerCancel(ids[0])], ServerCancels(ids[1..]);
      CancelOneTells(s, ids[0]);
      CancelEachTells(CancelOne(s, ids[0]), ids[1..]);
      Regroup(s.effects, first, rest);
      assert ServerCancels(ids) == first + rest;
    }
  }

  lemma CancelOneTells(s: State, p: string)
    requires Closed(s)
    ensures CancelOne(s, p).effects == s.effects + [ServerCancel(p)] && CancelOne(s, p).inflight == s.inflight
  {
  }

  lemma {:induction false} CancelEachMarks(s: State, ids: seq<string>, run: nat)
    requires Closed(s) && run in s.heap
    requires s.heap[run].cancelled || exists p :: p in ids && p in s.runs && s.runs[p] == run
    ensures run in CancelEach(s, ids).heap && CancelEach(s, ids).heap[run].cancelled
    decreases |ids|
  {
    if ids != [] {
      CancelOneMarks(s, ids[0], run);
      CancelEachMarks(CancelOne(s, ids[0]), ids[1..], run);
    }
  }

  lemma CancelOneMarks(s: State, p: string, run: nat)
    requires Closed(s) && run in s.heap
    ensures var r := CancelOne(s, p);
            && run in r.heap
            && (s.heap[run].cancelled || (p in s.runs && s.runs[p] == run) ==> r.heap[run].cancelled)
            && forall q :: q != p && q in s.runs ==> q in r.runs && r.runs[q] == s.runs[q]
  {
  }

  /**
   Cancelling without naming a pane leaves no row, no run and no timer at all, marks every
   run cancelled and tells the server about each row, in order.
   */
  lemma CancelAllStopsEverything(s: State, paneId: Option<string>)
    requires Valid(s) && (paneId.None? || paneId.value == "")
    ensures var r := Next(s, Cancels(paneId));
            && r.toasts == [] && r.runs == map[] && r.armed == map[] && r.inflight == s.inflight
            && (forall p :: p in s.runs ==> Superseded(s, r, p))
            && |r.effects| == |s.effects| + |s.toasts| && s.effects <= r.effects
            && forall i :: 0 <= i < |s.toasts| ==> r.effects[|s.effects| + i] == ServerCancel(s.toasts[i].paneId)
  {
    NothingLeft(s, paneId);
    CancelEachTells(s, RowIds(s.toasts));
    forall p | p in s.runs ensures Superseded(s, Next(s, Cancels(paneId)), p) {
      assert PaneOk(s, p);
      RowIsMember(s.toasts, p);
      var i :| 0 <= i < |s.toasts| && s.toasts[i].paneId == p;
      assert RowIds(s.toasts)[i] == p;
      CancelEachMarks(s, RowIds(s.toasts), s.runs[p]);
    }
  }

  lemma NothingLeft(s: State, paneId: Option<string>)
    requires Valid(s) && (paneId.None? || paneId.value == "")
    ensures var r := Next(s, Cancels(paneId));
            r.toasts == [] && r.runs == map[] && r.armed == map[]
  {
    var r := Next(s, Cancels(paneId));
    NextKeeps(s, Cancels(paneId));
    forall p | p in r.runs ensures false {
      RowIsMember(s.toasts, p);
      assert PaneOk(s, p);
      if p in s.runs {
        var i :| 0 <= i < |s.toasts| && s.toasts[i].paneId == p;
        assert RowIds(s.toasts)[i] == p;
      }
      CancelEachEnds(s, RowIds(s.toasts), p);
    }
    NothingWithoutRuns(r);
  }

  lemma RowHasRun(s: State, p: string)
    requires Valid(s) && Row(s.toasts, p).Some?
    ensures p in s.runs
  {
    assert PaneOk(s, p);
  }

  lemma TimerHasRun(s: State, t: nat)
    requires Valid(s) && t in s.armed
    ensures s.heap[s.armed[t].run].drop.paneId in s.runs
  {
    assert TimerOk(s, t);
  }

  lemma NothingWithoutRuns(s: State)
    requires Valid(s) && forall p :: p !in s.runs
    ensures s.toasts == [] && s.runs == map[] && s.armed == map[]
  {
    if s.toasts != [] {
      RowHasRun(s, s.toasts[0].paneId);
    }
    forall t | t in s.armed ensures false {
      TimerHasRun(s, t);
    }
  }

  // ---------- The order of the rows ----------

  function OfOtherPane(p: string): Toast -> bool {
    (t: Toast) => t.paneId != p
  }

  /** What remains without a pane are the rows of all others, in order. */
  lemma {:induction false} WithoutFilters(toasts: seq<Toast>, p: string)
    ensures Filtered(toasts, OfOtherPane(p), Without(toasts, p))
  {
    if toasts == [] {
      FilteredNone(OfOtherPane(p));
    } else {
      WithoutFilters(toasts[1..], p);
      FilteredCons(toasts, OfOtherPane(p), Without(toasts[1..], p));
    }
  }

  lemma {:induction false} WithoutTwice(toasts: seq<Toast>, p: string)
    ensures Without(Without(toasts, p), p) == Without(toasts, p)
  {
    if toasts != [] {
      WithoutTwice(toasts[1..], p);
    }
  }

  lemma {:induction false} WithoutAppended(toasts: seq<Toast>, toast: Toast)
    ensures Without(toasts + [toast], toast.paneId) == Without(toasts, toast.paneId)
  {
    if toasts == [] {
      assert [] + [toast] == [toast];
    } else {
      assert (toasts + [toast])[1..] == toasts[1..] + [toast];
      WithoutAppended(toasts[1..], toast);
    }
  }

  lemma {:induction false} WithoutAttempt(toasts: seq<Toast>, p: string, attempt: nat)
    ensures Without(WithAttempt(toasts, p, attempt), p) == Without(toasts, p)
  {
    if toasts != [] {
      WithoutAttempt(toasts[1..], p, attempt);
    }
  }

  /**
   A step about one pane leaves the rows of all others as they are and in their order. The
   row of a fresh loop comes last.
   */
  lemma RowsStayInOrder(s: State, e: Event, p: string)
    requires Valid(s) && Subject(s, e) == Some(p)
    ensures exists others ::
              Filtered(s.toasts, OfOtherPane(p), others) && Filtered(Next(s, e).toasts, OfOtherPane(p), others)
    ensures e.Drops? && e.drop.reason == "transport-dropped" ==>
              var rows := Next(s, e).toasts;
              rows != [] && rows[|rows| - 1].paneId == p
  {
    RowsOfOthers(s, e, p);
    WithoutFilters(s.toasts, p);
    WithoutFilters(Next(s, e).toasts, p);
  }

  lemma RowsOfOthers(s: State, e: Event, p: string)
    requires Valid(s) && Subject(s, e) == Some(p)
    ensures Without(Next(s, e).toasts, p) == Without(s.toasts, p)
  {
    WithoutTwice(s.toasts, p);
    match e
    case Drops(drop) => DropRows(s, drop);
    case Fires(t) => FireRows(s, t);
    case Cancels(_) => CancelOneRows(s, p);
    case Resolves(a) => ResolveRows(s, a);
    case Rejects(a) => RejectRows(s, a);
  }

  lemma DropRows(s: State, drop: Drop)
    requires Closed(s)
    ensures Without(Dropped(s, drop).toasts, drop.paneId) == Without(s.toasts, drop.paneId)
  {
    WithoutTwice(s.toasts, drop.paneId);
    WithoutAppended(Without(s.toasts, drop.paneId), Toast(drop.paneId, drop.host, drop.workspaceId, 0, MAX));
  }

  lemma FireRows(s: State, t: nat)
    requires Valid(s) && t in s.armed
    ensures var p := s.heap[s.armed[t].run].drop.paneId; Without(Fired(s, t).toasts, p) == Without(s.toasts, p)
  {
    var p := s.heap[s.armed[t].run].drop.paneId;
    FiredLaunches(s, t);
    WithoutAttempt(s.toasts, p, Row(s.toasts, p).value.attempt + 1);
  }

  lemma CancelOneRows(s: State, p: string)
    requires Closed(s)
    ensures Without(CancelEach(s, [p]).toasts, p) == Without(s.toasts, p)
  {
    WithoutTwice(s.toasts, p);
    assert CancelEach(s, [p]) == CancelEach(CancelOne(s, p), [][..]) == CancelOne(s, p);
  }

  lemma ResolveRows(s: State, a: nat)
    requires Closed(s) && a in s.inflight
    ensures var p := s.heap[s.inflight[a].run].drop.paneId; Without(Resolved(s, a).toasts, p) == Without(s.toasts, p)
  {
    WithoutTwice(s.toasts, s.heap[s.inflight[a].run].drop.paneId);
  }

  lemma RejectRows(s: State, a: nat)
    requires Closed(s) && a in s.inflight
    ensures var p := s.heap[s.inflight[a].run].drop.paneId; Without(Rejected(s, a).toasts, p) == Without(s.toasts, p)
  {
    WithoutTwice(s.toasts, s.heap[s.inflight[a].run].drop.paneId);
  }

  // ---------- A connect that reports its errors itself ----------

  /** How a connect settles in the application: it shows an error on the pane and returns, connected or not. */
  function Settles(attempt: nat, connected: bool): Event {
    Resolves(attempt)
  }

  /** The state after one drop and its timer: one run, with one attempt in flight. */
  ghost predicate FirstAttemptOf(s: State, drop: Drop) {
    && Valid(s) && s.runs == map[drop.paneId := 0] && 0 in s.heap && s.heap[0].drop == drop
    && 2 in s.inflight && s.inflight[2].run == 0
    && s.effects == [Connecting(drop.paneId, None, drop.persistent, drop.tmuxSession)]
  }

  lemma DropThenFire(drop: Drop)
    requires drop.reason == "transport-dropped"
    ensures FirstAttemptOf(Next(Next(INITIAL, Drops(drop)), Fires(1)), drop)
  {
    var begun := Next(INITIAL, Drops(drop));
    NextKeeps(INITIAL, Drops(drop));
    FiringConnects(begun, 1);
    FiredLaunches(begun, 1);
    NextKeeps(begun, Fires(1));
  }

  /** So one attempt ends every loop, and reports that the pane is connected again even when it is not. */
  lemma SuccessReportedEitherWay(drop: Drop, connected: bool)
    requires drop.reason == "transport-dropped"
    ensures var s := After(INITIAL, [Drops(drop), Fires(1), Settles(2, connected)]);
            && s.toasts == [] && s.runs == map[] && s.armed == map[]
            && s.effects == [Connecting(drop.paneId, None, drop.persistent, drop.tmuxSession), FlashSuccess(drop.host)]
  {
    AfterThree(INITIAL, Drops(drop), Fires(1), Settles(2, connected));
    DropThenFire(drop);
    ResolvedOnce(Next(Next(INITIAL, Drops(drop)), Fires(1)), drop);
  }

  lemma ResolvedOnce(s: State, drop: Drop)
    requires FirstAttemptOf(s, drop)
    ensures var r := Next(s, Resolves(2));
            && r.toasts == [] && r.runs == map[] && r.armed == map[]
            && r.effects == [Connecting(drop.paneId, None, drop.persistent, drop.tmuxSession), FlashSuccess(drop.host)]
  {
    var r := Next(s, Resolves(2));
    ResolveEndsLoop(s, 2);
    NextKeeps(s, Resolves(2));
    assert drop.paneId !in r.runs && r.runs.Keys <= s.runs.Keys == {drop.paneId};
    NothingWithoutRuns(r);
  }

  lemma AfterThree(s: State, a: Event, b: Event, c: Event)
    requires Closed(s)
    ensures After(s, [a, b, c]) == Next(Next(Next(s, a), b), c)
  {
    assert [a, b, c][1..] == [b, c] && [b, c][1..] == [c] && [c][1..] == [];
    assert After(Next(s, a), [b, c]) == After(Next(Next(s, a), b), [c]);
    assert After(Next(Next(s, a), b), [c]) == After(Next(Next(Next(s, a), b), c), []);
  }
}
