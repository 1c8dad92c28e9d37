/**
 The reconnect driver as the application runs it: mutable maps and a list of rows,
 updated by event handlers. Each handler takes the state to exactly the state that
 the state machine of `ReconnectSteps` prescribes, and keeps its invariant.
 */
module ReconnectDriver {
  import opened Options
  import opened ReconnectSteps
  import opened ReconnectSafety

  class Driver {
    var heap: map<nat, Run>
    var runs: map<string, nat>
    var toasts: seq<Toast>
    var armed: map<nat, Timer>
    var inflight: map<nat, Attempt>
    var next: nat
    var effects: seq<Effect>
    var active: Option<string>

    ghost function View(): State
      reads this
    {
      State(heap, runs, toasts, armed, inflight, next, effects, active)
    }

    constructor ()
      ensures View() == INITIAL && Valid(View())
    {
      heap, runs, toasts, armed, inflight, next, effects, active := map[], map[], [], map[], map[], 0, [], None;
    }

    method ClearReconnectTimer(paneId: string)
      requires Closed(View())
      modifies this
      ensures Closed(View()) && View() == ClearTimer(old(View()), paneId)
    {
      if paneId in runs {
        var run := runs[paneId];
        if heap[run].timer.Some? {
          armed := armed - {heap[run].timer.value};
          heap := heap[run := heap[run].(timer := None)];
        }
      }
    }

    method EndReconnect(paneId: string)
      requires Closed(View())
      modifies this
      ensures Closed(View()) && View() == End(old(View()), paneId)
    {
      ClearReconnectTimer(paneId);
      runs := runs - {paneId};
      toasts := Without(toasts, paneId);
    }

    method MarkRunCancelled(paneId: string)
      requires Closed(View())
      modifies this
      ensures Closed(View()) && View() == MarkCancelled(old(View()), paneId)
    {
      if paneId in runs {
        heap := heap[runs[paneId] := heap[runs[paneId]].(cancelled := true)];
      }
    }

    method CancelPane(paneId: string)
      requires Closed(View())
      modifies this
      ensures Closed(View()) && View() == CancelOne(old(View()), paneId)
    {
      MarkRunCancelled(paneId);
      EndReconnect(paneId);
      effects := effects + [ServerCancel(paneId)];
    }

    /** Cancels one pane, or every pane in flight when called without one. */
    method CancelReconnect(paneId: Option<string>)
      requires Valid(View())
      modifies this
      ensures View() == Next(old(View()), Cancels(paneId)) && Valid(View())
    {
      ghost var before := View();
      NextKeeps(before, Cancels(paneId));
      var ids := if paneId.Some? && paneId.value != "" then [paneId.value] else RowIds(toasts);
      for i := 0 to |ids|
        invariant Closed(View())
        invariant CancelEach(View(), ids[i..]) == CancelEach(before, ids)
      {
        assert ids[i..][1..] == ids[i + 1..];
        CancelPane(ids[i]);
      }
    }

    /** A fresh run with its row and the timer of its first attempt. */
    method BeginRun(drop: Drop)
      requires Closed(View())
      modifies this
      ensures Closed(View()) && View() == Begin(old(View()), drop)
    {
      var paneId, run := drop.paneId, next;
      heap := heap[run := Run(drop, None, false)];
      runs := runs[paneId := run];
      toasts := Without(toasts, paneId) + [Toast(paneId, drop.host, drop.workspaceId, 0, MAX)];
      var timer := next + 1;
      next := next + 2;
      armed := armed[timer := Timer(run, BACKOFFS[0])];
      heap := heap[run := heap[run].(timer := Some(timer))];
      assert heap == old(heap)[run := Run(drop, Some(timer), false)];
    }

    /** A transport drop: every pane gets its own loop, and a repeat restarts that loop only. */
    method StartReconnect(drop: Drop)
      requires Valid(View())
      modifies this
      ensures View() == Next(old(View()), Drops(drop)) && Valid(View())
    {
      DroppedKeeps(View(), drop);
      if drop.reason != "transport-dropped" {
        return;
      }
      if drop.paneId in runs {
        MarkRunCancelled(drop.paneId);
        ClearReconnectTimer(drop.paneId);
      }
      BeginRun(drop);
    }

    /** The timer callback, up to the point where it waits for the connect to settle. */
    method AttemptOnce(timer: nat)
      requires Valid(View())
      modifies this
      ensures View() == Next(old(View()), Fires(timer)) && Valid(View())
    {
      FiredKeeps(View(), timer);
      if timer !in armed {
        return;
      }
      var run := armed[timer].run;
      armed := armed - {timer};
      var drop := heap[run].drop;
      if heap[run].cancelled || !(drop.paneId in runs && runs[drop.paneId] == run) {
        return;
      }
      var cur := Row(toasts, drop.paneId);
      if cur.None? {
        return;
      }
      var nextAttempt := cur.value.attempt + 1;
      LaunchAttempt(run, nextAttempt);
    }

    method LaunchAttempt(run: nat, attempt: nat)
      requires Closed(View()) && run in heap
      modifies this
      ensures Closed(View()) && View() == Launch(old(View()), run, attempt)
    {
      var drop := heap[run].drop;
      toasts := WithAttempt(toasts, drop.paneId, attempt);
      inflight := inflight[next := Attempt(run, attempt)];
      next := next + 1;
      effects := effects + [Connecting(drop.paneId, active, drop.persistent, drop.tmuxSession)];
    }

    method ConnectResolved(attempt: nat)
      requires Valid(View())
      modifies this
      ensures View() == Next(old(View()), Resolves(attempt)) && Valid(View())
    {
      ResolvedKeeps(View(), attempt);
      if attempt !in inflight {
        return;
      }
      var run := inflight[attempt].run;
      inflight := inflight - {attempt};
      var drop := heap[run].drop;
      if !(drop.paneId in runs && runs[drop.paneId] == run) {
        return;
      }
      EndReconnect(drop.paneId);
      effects := effects + [FlashSuccess(drop.host)];
    }

    /** Schedules the next attempt, unless the loop was superseded or is out of attempts. */
    method ConnectRejected(attempt: nat)
      requires Valid(View())
      modifies this
      ensures View() == Next(old(View()), Rejects(attempt)) && Valid(View())
    {
      RejectedKeeps(View(), attempt);
      if attempt !in inflight {
        return;
      }
      var run, nextAttempt := inflight[attempt].run, inflight[attempt].number;
      inflight := inflight - {attempt};
      var drop := heap[run].drop;
      if heap[run].cancelled || !(drop.paneId in runs && runs[drop.paneId] == run) {
        return;
      }
      if nextAttempt >= MAX {
        EndReconnect(drop.paneId);
        effects := effects + [FlashFailure(drop.host), ServerCancel(drop.paneId)];
        assert effects == (old(effects) + [FlashFailure(drop.host)]) + [ServerCancel(drop.paneId)];
        return;
      }
      RearmRun(run, BACKOFFS[nextAttempt]);
    }

    method RearmRun(run: nat, delay: nat)
      requires Closed(View()) && run in heap
      modifies this
      ensures Closed(View()) && View() == Rearm(old(View()), run, delay)
    {
      var timer := next;
      next := next + 1;
      armed := armed[timer := Timer(run, delay)];
      heap := heap[run := heap[run].(timer := Some(timer))];
    }
  }
}
