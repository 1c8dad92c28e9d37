/**
 What every interleaving of drops, timers, settling connects and cancels keeps.
 */
module ReconnectSafety {
  import opened Options
  import opened ReconnectSteps

  /** A pane has a row exactly when it has a run, and the row shows what the drop said. */
  ghost predicate PaneOk(s: State, p: string)
    requires Closed(s)
  {
    && (Row(s.toasts, p).Some? <==> p in s.runs)
    && (p in s.runs ==>
          var row, drop := Row(s.toasts, p).value, s.heap[s.runs[p]].drop;
          && drop.paneId == p
          && row == Toast(p, drop.host, drop.workspaceId, row.attempt, MAX) && row.attempt <= MAX)
  }

  ghost predicate TimerArmed(s: State, run: nat)
    requires run in s.heap
  {
    s.heap[run].timer.Some? && s.heap[run].timer.value in s.armed && s.armed[s.heap[run].timer.value].run == run
  }

  ghost predicate InFlight(s: State, run: nat) {
    exists a :: a in s.inflight && s.inflight[a].run == run
  }

  /** A current run is not cancelled and waits for a timer or for an attempt. */
  ghost predicate Live(s: State, p: string)
    requires Closed(s)
  {
    p in s.runs ==> !s.heap[s.runs[p]].cancelled && (TimerArmed(s, s.runs[p]) || InFlight(s, s.runs[p]))
  }

  /** Only a current run has an armed timer; it holds the backoff that follows the row's attempts. */
  ghost predicate TimerOk(s: State, t: nat)
    requires Closed(s)
  {
    t in s.armed ==>
      var run := s.armed[t].run;
      && t < s.next && Current(s, run) && s.heap[run].timer == Some(t)
      && var row := Row(s.toasts, s.heap[run].drop.paneId);
         row.Some? && row.value.attempt < MAX && s.armed[t].delay == BACKOFFS[row.value.attempt]
  }

  /** An unsettled attempt excludes an armed timer; if its run is current its number is the row's. */
  ghost predicate AttemptOk(s: State, a: nat)
    requires Closed(s)
  {
    a in s.inflight ==>
      var run := s.inflight[a].run;
      && a < s.next && !TimerArmed(s, run)
      && (Current(s, run) ==>
            var row := Row(s.toasts, s.heap[run].drop.paneId);
            row.Some? && 1 <= s.inflight[a].number == row.value.attempt)
  }

  ghost predicate RunOk(s: State, run: nat) {
    run in s.heap ==>
      && run < s.next
      && (s.heap[run].timer.Some? ==>
            var t := s.heap[run].timer.value;
            t < s.next && (t in s.armed ==> s.armed[t].run == run))
  }

  ghost predicate OneAttemptEach(s: State) {
    forall a, b :: a in s.inflight && b in s.inflight && s.inflight[a].run == s.inflight[b].run ==> a == b
  }

  /** The invariant, except that the panes of `but` may hold a cancelled or idle run. */
  ghost predicate ValidBut(s: State, but: set<string>) {
    && Closed(s) && OneRowEach(s.toasts) && OneAttemptEach(s)
    && (forall p :: PaneOk(s, p))
    && (forall p :: p !in but ==> Live(s, p))
    && (forall t :: TimerOk(s, t))
    && (forall a :: AttemptOk(s, a))
    && (forall run :: RunOk(s, run))
  }

  ghost predicate Valid(s: State) {
    ValidBut(s, {})
  }

  // ---------- What the steps are made of ----------

  ghost predicate NoTimerOf(s: State, p: string)
    requires Closed(s)
  {
    forall t :: t in s.armed ==> s.heap[s.armed[t].run].drop.paneId != p
  }

  lemma MarkKeeps(s: State, p: string)
    requires Valid(s)
    ensures ValidBut(MarkCancelled(s, p), {p})
  {
    var r := MarkCancelled(s, p);
    forall q ensures PaneOk(r, q) { assert PaneOk(s, q); }
    forall q | q != p ensures Live(r, q) { assert PaneOk(s, q) && PaneOk(s, p) && Live(s, q); }
    forall t ensures TimerOk(r, t) { assert TimerOk(s, t); }
    forall a ensures AttemptOk(r, a) { assert AttemptOk(s, a); }
    forall run ensures RunOk(r, run) { assert RunOk(s, run); }
  }

  lemma ClearKeepsLive(s: State, p: string, q: string)
    requires ValidBut(s, {p}) && q != p
    ensures Live(ClearTimer(s, p), q)
  {
    var r := ClearTimer(s, p);
    assert PaneOk(s, p) && PaneOk(s, q) && Live(s, q);
    if q in s.runs && p in s.runs {
      assert RunOk(s, s.runs[p]);
      if TimerArmed(s, s.runs[q]) {
        assert TimerArmed(r, s.runs[q]);
      } else {
        var a :| a in s.inflight && s.inflight[a].run == s.runs[q];
        assert a in r.inflight;
      }
    }
  }

  lemma ClearKeeps(s: State, p: string)
    requires ValidBut(s, {p})
    ensures ValidBut(ClearTimer(s, p), {p}) && NoTimerOf(ClearTimer(s, p), p)
  {
    var r := ClearTimer(s, p);
    assert PaneOk(s, p);
    forall q ensures PaneOk(r, q) { assert PaneOk(s, q); }
    forall q | q != p ensures Live(r, q) { ClearKeepsLive(s, p, q); }
    forall t ensures TimerOk(r, t) { assert TimerOk(s, t); }
    forall t | t in r.armed ensures r.heap[r.armed[t].run].drop.paneId != p { assert TimerOk(s, t); }
    forall a ensures AttemptOk(r, a) { assert AttemptOk(s, a); }
    forall run ensures RunOk(r, run) { assert RunOk(s, run); }
  }

  lemma RemoveKeepsPane(s: State, p: string, q: string)
    requires ValidBut(s, {p})
    ensures PaneOk(Remove(s, p), q) && Live(Remove(s, p), q)
  {
    RowWithout(s.toasts, p, q);
    assert PaneOk(s, q);
    if q != p {
      assert Live(s, q);
      if q in s.runs && !TimerArmed(s, s.runs[q]) {
        var a :| a in s.inflight && s.inflight[a].run == s.runs[q];
        assert a in Remove(s, p).inflight;
      }
    }
  }

  lemma RemoveKeeps(s: State, p: string)
    requires ValidBut(s, {p}) && NoTimerOf(s, p)
    ensures Valid(Remove(s, p))
  {
    var r := Remove(s, p);
    RowsWithout(s.toasts, p);
    forall q ensures PaneOk(r, q) && Live(r, q) { RemoveKeepsPane(s, p, q); }
    forall t ensures TimerOk(r, t) {
      assert TimerOk(s, t);
      if t in s.armed { RowWithout(s.toasts, p, s.heap[s.armed[t].run].drop.paneId); }
    }
    forall a ensures AttemptOk(r, a) {
      assert AttemptOk(s, a);
      if a in s.inflight { RowWithout(s.toasts, p, s.heap[s.inflight[a].run].drop.paneId); }
    }
    forall run ensures RunOk(r, run) { assert RunOk(s, run); }
  }

  lemma EndKeeps(s: State, p: string)
    requires ValidBut(s, {p})
    ensures Valid(End(s, p))
  {
    ClearKeeps(s, p);
    RemoveKeeps(ClearTimer(s, p), p);
  }

  function DropToast(drop: Drop): Toast {
    Toast(drop.paneId, drop.host, drop.workspaceId, 0, MAX)
  }

  lemma BeginRow(s: State, drop: Drop, q: string)
    requires Closed(s)
    ensures Row(Begin(s, drop).toasts, q) == if q == drop.paneId then Some(DropToast(drop)) else Row(s.toasts, q)
  {
    RowWithout(s.toasts, drop.paneId, drop.paneId);
    RowWithout(s.toasts, drop.paneId, q);
    RowAppended(Without(s.toasts, drop.paneId), DropToast(drop), q);
  }

  lemma BeginKeepsPane(s: State, drop: Drop, q: string)
    requires ValidBut(s, {drop.paneId}) && NoTimerOf(s, drop.paneId)
    ensures PaneOk(Begin(s, drop), q) && Live(Begin(s, drop), q)
  {
    var r := Begin(s, drop);
    BeginRow(s, drop, q);
    assert PaneOk(s, q);
    if q == drop.paneId {
      assert TimerArmed(r, r.runs[q]);
    } else if q in s.runs {
      assert Live(s, q) && RunOk(s, s.runs[q]);
      if TimerArmed(s, s.runs[q]) {
        assert TimerArmed(r, s.runs[q]);
      } else {
        var a :| a in s.inflight && s.inflight[a].run == s.runs[q];
        assert a in r.inflight;
      }
    }
  }

  lemma BeginKeeps(s: State, drop: Drop)
    requires ValidBut(s, {drop.paneId}) && NoTimerOf(s, drop.paneId)
    ensures Valid(Begin(s, drop))
  {
    var p, r := drop.paneId, Begin(s, drop);
    RowsWithout(s.toasts, p);
    RowWithout(s.toasts, p, p);
    RowsAppended(Without(s.toasts, p), DropToast(drop));
    forall q ensures PaneOk(r, q) && Live(r, q) { BeginKeepsPane(s, drop, q); }
    forall t ensures TimerOk(r, t) {
      assert TimerOk(s, t);
      if t in s.armed {
        assert RunOk(s, s.armed[t].run);
        BeginRow(s, drop, s.heap[s.armed[t].run].drop.paneId);
      } else {
        BeginRow(s, drop, p);
      }
    }
    forall a ensures AttemptOk(r, a) {
      assert AttemptOk(s, a);
      if a in s.inflight {
        assert RunOk(s, s.inflight[a].run);
        BeginRow(s, drop, s.heap[s.inflight[a].run].drop.paneId);
      }
    }
    forall run ensures RunOk(r, run) { assert RunOk(s, run); }
  }

  /** The invariant does not depend on what was asked for or on the active workspace. */
  lemma EffectsDoNotMatter(s: State, r: State)
    requires Valid(s) && r == s.(effects := r.effects, active := r.active)
    ensures Valid(r)
  {
    forall q ensures PaneOk(r, q) && Live(r, q) { assert PaneOk(s, q) && Live(s, q); }
    forall t ensures TimerOk(r, t) { assert TimerOk(s, t); }
    forall a ensures AttemptOk(r, a) { assert AttemptOk(s, a); }
    forall run ensures RunOk(r, run) { assert RunOk(s, run); }
  }

  // ---------- The steps ----------

  lemma CancelOneKeeps(s: State, p: string)
    requires Valid(s)
    ensures Valid(CancelOne(s, p))
  {
    MarkKeeps(s, p);
    EndKeeps(MarkCancelled(s, p), p);
    EffectsDoNotMatter(End(MarkCancelled(s, p), p), CancelOne(s, p));
  }

  lemma DroppedKeeps(s: State, drop: Drop)
    requires Valid(s)
    ensures Valid(Dropped(s, drop))
  {
    if drop.reason == "transport-dropped" {
      var p := drop.paneId;
      MarkKeeps(s, p);
      ClearKeeps(MarkCancelled(s, p), p);
      BeginKeeps(ClearTimer(MarkCancelled(s, p), p), drop);
    }
  }

  /** A run without a timer and without an attempt: the moment between two awaits. */
  ghost predicate Idle(s: State, run: nat)
    requires Closed(s)
  {
    Current(s, run) && !TimerArmed(s, run) && !InFlight(s, run)
  }

  lemma DisarmKeeps(s: State, t: nat)
    requires Valid(s) && t in s.armed
    ensures var r, run := s.(armed := s.armed - {t}), s.armed[t].run;
            ValidBut(r, {s.heap[run].drop.paneId}) && Idle(r, run)
  {
    var r, run := s.(armed := s.armed - {t}), s.armed[t].run;
    assert TimerOk(s, t);
    forall q ensures PaneOk(r, q) { assert PaneOk(s, q); }
    forall q | q != s.heap[run].drop.paneId ensures Live(r, q) {
      assert Live(s, q) && PaneOk(s, q);
      if q in s.runs && !TimerArmed(s, s.runs[q]) {
        var a :| a in s.inflight && s.inflight[a].run == s.runs[q];
        assert a in r.inflight;
      }
    }
    forall u ensures TimerOk(r, u) { assert TimerOk(s, u); }
    forall a ensures AttemptOk(r, a) { assert AttemptOk(s, a); }
    forall a | a in s.inflight ensures s.inflight[a].run != run { assert AttemptOk(s, a) && TimerArmed(s, run); }
    forall run' ensures RunOk(r, run') { assert RunOk(s, run'); }
  }

  lemma LaunchKeepsPane(s: State, run: nat, q: string)
    requires Closed(s) && Idle(s, run) && ValidBut(s, {s.heap[run].drop.paneId}) && !s.heap[run].cancelled
    requires Row(s.toasts, s.heap[run].drop.paneId).Some?
    requires Row(s.toasts, s.heap[run].drop.paneId).value.attempt < MAX
    ensures var r := Launch(s, run, Row(s.toasts, s.heap[run].drop.paneId).value.attempt + 1);
            PaneOk(r, q) && Live(r, q)
  {
    var p := s.heap[run].drop.paneId;
    assert PaneOk(s, p) && PaneOk(s, q);
    var attempt := Row(s.toasts, p).value.attempt + 1;
    var r := Launch(s, run, attempt);
    RowWithAttempt(s.toasts, p, attempt, q);
    if q == p {
      assert r.inflight[s.next].run == run;
    } else if q in s.runs {
      assert Live(s, q);
      if !TimerArmed(s, s.runs[q]) {
        var a :| a in s.inflight && s.inflight[a].run == s.runs[q];
        assert AttemptOk(s, a);
        assert a in r.inflight && r.inflight[a].run == s.runs[q];
      }
    }
  }

  lemma LaunchKeeps(s: State, run: nat)
    requires Closed(s) && Idle(s, run) && ValidBut(s, {s.heap[run].drop.paneId}) && !s.heap[run].cancelled
    requires Row(s.toasts, s.heap[run].drop.paneId).Some?
    requires Row(s.toasts, s.heap[run].drop.paneId).value.attempt < MAX
    ensures Valid(Launch(s, run, Row(s.toasts, s.heap[run].drop.paneId).value.attempt + 1))
  {
    var p := s.heap[run].drop.paneId;
    var attempt := Row(s.toasts, p).value.attempt + 1;
    var r := Launch(s, run, attempt);
    RowWithAttempt(s.toasts, p, attempt, p);
    forall q ensures PaneOk(r, q) && Live(r, q) { LaunchKeepsPane(s, run, q); }
    forall t ensures TimerOk(r, t) {
      assert TimerOk(s, t) && PaneOk(s, p);
      if t in s.armed { RowWithAttempt(s.toasts, p, attempt, s.heap[s.armed[t].run].drop.paneId); }
    }
    forall a ensures AttemptOk(r, a) {
      assert AttemptOk(s, a);
      if a in s.inflight { RowWithAttempt(s.toasts, p, attempt, s.heap[s.inflight[a].run].drop.paneId); }
    }
    forall run' ensures RunOk(r, run') { assert RunOk(s, run'); }
    forall a | a in s.inflight ensures s.inflight[a].run != run && a < s.next { assert AttemptOk(s, a); }
  }

  /** An armed timer always finds its run current, so its firing always starts an attempt. */
  lemma FiredLaunches(s: State, t: nat)
    requires Valid(s) && t in s.armed
    ensures var run := s.armed[t].run;
            && Current(s, run) && !s.heap[run].cancelled
            && var row := Row(s.toasts, s.heap[run].drop.paneId);
               && row.Some? && row.value.attempt < MAX
               && Fired(s, t) == Launch(s.(armed := s.armed - {t}), run, row.value.attempt + 1)
  {
    var p := s.heap[s.armed[t].run].drop.paneId;
    assert TimerOk(s, t) && PaneOk(s, p) && Live(s, p);
  }

  lemma FiredKeeps(s: State, t: nat)
    requires Valid(s)
    ensures Valid(Fired(s, t))
  {
    if t in s.armed {
      FiredLaunches(s, t);
      DisarmKeeps(s, t);
      LaunchKeeps(s.(armed := s.armed - {t}), s.armed[t].run);
    }
  }

  /** Taking a settled attempt off the list leaves everything else in order. */
  lemma SettleKeeps(s: State, a: nat)
    requires Valid(s) && a in s.inflight
    ensures var s1, run := Settle(s, a), s.inflight[a].run;
            && ValidBut(s1, {s.heap[run].drop.paneId})
            && (!Current(s, run) ==> Valid(s1))
            && !TimerArmed(s1, run) && !InFlight(s1, run)
  {
    var s1, run := Settle(s, a), s.inflight[a].run;
    var p := s.heap[run].drop.paneId;
    assert AttemptOk(s, a);
    forall q ensures PaneOk(s1, q) { assert PaneOk(s, q); }
    forall q | q != p || !Current(s, run) ensures Live(s1, q) {
      assert PaneOk(s, q) && Live(s, q);
      if q in s.runs && !TimerArmed(s, s.runs[q]) {
        var b :| b in s.inflight && s.inflight[b].run == s.runs[q];
        assert b in s1.inflight;
      }
    }
    forall t ensures TimerOk(s1, t) { assert TimerOk(s, t); }
    forall b ensures AttemptOk(s1, b) { assert AttemptOk(s, b); }
    forall r ensures RunOk(s1, r) { assert RunOk(s, r); }
  }

  lemma ResolvedKeeps(s: State, a: nat)
    requires Valid(s)
    ensures Valid(Resolved(s, a))
  {
    if a in s.inflight {
      var s1, p := Settle(s, a), s.heap[s.inflight[a].run].drop.paneId;
      SettleKeeps(s, a);
      EndKeeps(s1, p);
      if Current(s, s.inflight[a].run) {
        EffectsDoNotMatter(End(s1, p), Resolved(s, a));
      }
    }
  }

  lemma RearmKeepsPane(s: State, run: nat, delay: nat, q: string)
    requires Closed(s) && Idle(s, run) && ValidBut(s, {s.heap[run].drop.paneId}) && !s.heap[run].cancelled
    ensures PaneOk(Rearm(s, run, delay), q) && Live(Rearm(s, run, delay), q)
  {
    var p, r := s.heap[run].drop.paneId, Rearm(s, run, delay);
    assert PaneOk(s, p) && PaneOk(s, q);
    if q == p {
      assert TimerArmed(r, run);
    } else if q in s.runs {
      assert Live(s, q) && RunOk(s, s.runs[q]);
      if TimerArmed(s, s.runs[q]) {
        assert TimerArmed(r, s.runs[q]);
      } else {
        var b :| b in s.inflight && s.inflight[b].run == s.runs[q];
        assert b in r.inflight;
      }
    }
  }

  lemma RearmKeeps(s: State, run: nat, attempt: nat)
    requires Closed(s) && Idle(s, run) && ValidBut(s, {s.heap[run].drop.paneId}) && !s.heap[run].cancelled
    requires attempt < MAX && Row(s.toasts, s.heap[run].drop.paneId).Some?
    requires Row(s.toasts, s.heap[run].drop.paneId).value.attempt == attempt
    ensures Valid(Rearm(s, run, BACKOFFS[attempt]))
  {
    var r := Rearm(s, run, BACKOFFS[attempt]);
    forall q ensures PaneOk(r, q) && Live(r, q) { RearmKeepsPane(s, run, BACKOFFS[attempt], q); }
    forall t ensures TimerOk(r, t) { assert TimerOk(s, t); }
    forall b ensures AttemptOk(r, b) {
      assert AttemptOk(s, b);
      if b in s.inflight { assert s.inflight[b].run != run && RunOk(s, s.inflight[b].run); }
    }
    forall run' ensures RunOk(r, run') { assert RunOk(s, run'); }
  }

  lemma RejectedKeeps(s: State, a: nat)
    requires Valid(s)
    ensures Valid(Rejected(s, a))
  {
    if a in s.inflight {
      var s1, run := Settle(s, a), s.inflight[a].run;
      var p := s.heap[run].drop.paneId;
      SettleKeeps(s, a);
      assert PaneOk(s, p) && Live(s, p) && AttemptOk(s, a);
      if Current(s, run) && s.inflight[a].number < MAX {
        RearmKeeps(s1, run, s.inflight[a].number);
      } else if Current(s, run) {
        EndKeeps(s1, p);
        EffectsDoNotMatter(End(s1, p), Rejected(s, a));
      }
    }
  }

  lemma {:induction false} CancelEachKeeps(s: State, ids: seq<string>)
    requires Valid(s)
    ensures Valid(CancelEach(s, ids))
    decreases |ids|
  {
    if ids != [] {
      CancelOneKeeps(s, ids[0]);
      CancelEachKeeps(CancelOne(s, ids[0]), ids[1..]);
    }
  }

  lemma NextKeeps(s: State, e: Event)
    requires Valid(s)
    ensures Valid(Next(s, e))
  {
    match e
    case Drops(drop) => DroppedKeeps(s, drop);
    case Fires(t) => FiredKeeps(s, t);
    case Resolves(a) => ResolvedKeeps(s, a);
    case Rejects(a) => RejectedKeeps(s, a);
    case Cancels(paneId) => CancelEachKeeps(s, CancelledIds(s, paneId));
    case Activates(_) => EffectsDoNotMatter(s, Next(s, e));
  }

  lemma {:induction false} AfterKeeps(s: State, events: seq<Event>)
    requires Valid(s)
    ensures Valid(After(s, events))
    decreases |events|
  {
    if events != [] {
      NextKeeps(s, events[0]);
      AfterKeeps(Next(s, events[0]), events[1..]);
    }
  }
}
