/**
 The per-pane reconnect loop as a state machine. Code between two awaits is one
 step; a timer firing, an attempt settling, a new drop and a cancel may come in any
 order. Run objects live in a heap, because a loop goes on holding its own run after
 the map of current runs has moved on.
 */
module ReconnectSteps {
  import opened Options

  const BACKOFFS: seq<nat> := [1000, 3000, 8000, 15000, 30000]
  const MAX: nat := |BACKOFFS|

  datatype Drop = Drop(paneId: string, host: string, workspaceId: string, persistent: bool,
                       tmuxSession: Option<string>, reason: string)

  datatype Run = Run(drop: Drop, timer: Option<nat>, cancelled: bool)

  datatype Toast = Toast(paneId: string, host: string, workspaceId: string, attempt: nat, max: nat)

  /** A timer waiting to fire: the run whose loop it continues and its delay before jitter. */
  datatype Timer = Timer(run: nat, delay: nat)

  /** A connect that has not settled yet: the run that started it and its number. */
  datatype Attempt = Attempt(run: nat, number: nat)

  datatype Effect =
    | Connecting(paneId: string, workspace: Option<string>, persistent: bool, tmuxSession: Option<string>)
    | FlashSuccess(host: string)
    | FlashFailure(host: string)
    | ServerCancel(paneId: string)

  /**
   `heap` holds every run object ever made and `runs` the current run of each pane;
   `armed` are timers that have not fired, `inflight` attempts that have not settled,
   `next` is the next unused handle, `effects` is what the loops asked for, in order, and
   `active` is the workspace the user is in.
   */
  datatype State = State(heap: map<nat, Run>, runs: map<string, nat>, toasts: seq<Toast>,
                         armed: map<nat, Timer>, inflight: map<nat, Attempt>, next: nat, effects: seq<Effect>,
                         active: Option<string>)

  const INITIAL: State := State(map[], map[], [], map[], map[], 0, [], None)

  // ---------- The list of rows ----------

  function Row(toasts: seq<Toast>, paneId: string): Option<Toast> {
    if toasts == [] then None
    else if toasts[0].paneId == paneId then Some(toasts[0])
    else Row(toasts[1..], paneId)
  }

  function Without(toasts: seq<Toast>, paneId: string): seq<Toast> {
    if toasts == [] then []
    else if toasts[0].paneId == paneId then Without(toasts[1..], paneId)
    else [toasts[0]] + Without(toasts[1..], paneId)
  }

  function WithAttempt(toasts: seq<Toast>, paneId: string, attempt: nat): seq<Toast> {
    if toasts == [] then []
    else [if toasts[0].paneId == paneId then toasts[0].(attempt := attempt) else toasts[0]]
         + WithAttempt(toasts[1..], paneId, attempt)
  }

  ghost predicate OneRowEach(toasts: seq<Toast>) {
    forall i, j :: 0 <= i < j < |toasts| ==> toasts[i].paneId != toasts[j].paneId
  }

  lemma {:induction false} RowIsMember(toasts: seq<Toast>, paneId: string)
    ensures Row(toasts, paneId).Some? <==> exists i :: 0 <= i < |toasts| && toasts[i].paneId == paneId
    ensures Row(toasts, paneId).Some? ==>
              Row(toasts, paneId).value in toasts && Row(toasts, paneId).value.paneId == paneId
  {
    if toasts != [] {
      RowIsMember(toasts[1..], paneId);
      if toasts[0].paneId != paneId && exists i :: 0 <= i < |toasts| && toasts[i].paneId == paneId {
        var i :| 0 <= i < |toasts| && toasts[i].paneId == paneId;
        assert toasts[1..][i - 1].paneId == paneId;
      }
    }
  }

  lemma {:induction false} RowWithout(toasts: seq<Toast>, paneId: string, other: string)
    ensures Row(Without(toasts, paneId), other) == if other == paneId then None else Row(toasts, other)
  {
    if toasts != [] {
      RowWithout(toasts[1..], paneId, other);
    }
  }

  lemma {:induction false} RowsWithout(toasts: seq<Toast>, paneId: string)
    requires OneRowEach(toasts)
    ensures OneRowEach(Without(toasts, paneId))
    ensures forall t :: t in Without(toasts, paneId) ==> t in toasts
  {
    if toasts != [] {
      RowsWithout(toasts[1..], paneId);
      forall t | t in Without(toasts[1..], paneId) ensures t.paneId != toasts[0].paneId {
        var i :| 0 <= i < |toasts[1..]| && toasts[1..][i] == t;
        assert toasts[i + 1] == t;
      }
    }
  }

  lemma {:induction false} RowAppended(toasts: seq<Toast>, toast: Toast, other: string)
    requires Row(toasts, toast.paneId).None?
    ensures Row(toasts + [toast], other) == if other == toast.paneId then Some(toast) else Row(toasts, other)
  {
    if toasts != [] {
      assert (toasts + [toast])[1..] == toasts[1..] + [toast];
      RowAppended(toasts[1..], toast, other);
    }
  }

  lemma RowsAppended(toasts: seq<Toast>, toast: Toast)
    requires Row(toasts, toast.paneId).None? && OneRowEach(toasts)
    ensures OneRowEach(toasts + [toast])
  {
    RowIsMember(toasts, toast.paneId);
  }

  lemma {:induction false} RowWithAttempt(toasts: seq<Toast>, paneId: string, attempt: nat, other: string)
    ensures Row(WithAttempt(toasts, paneId, attempt), other) ==
            if other == paneId && Row(toasts, paneId).Some? then Some(Row(toasts, paneId).value.(attempt := attempt))
            else Row(toasts, other)
    ensures |WithAttempt(toasts, paneId, attempt)| == |toasts|
    ensures forall i :: 0 <= i < |toasts| ==> WithAttempt(toasts, paneId, attempt)[i].paneId == toasts[i].paneId
  {
    if toasts != [] {
      RowWithAttempt(toasts[1..], paneId, attempt, other);
    }
  }

  // ---------- The steps ----------

  ghost predicate Current(s: State, run: nat) {
    run in s.heap && s.heap[run].drop.paneId in s.runs && s.runs[s.heap[run].drop.paneId] == run
  }

  /** The handles recorded in the maps belong to runs of the heap. */
  ghost predicate Closed(s: State) {
    && (forall p :: p in s.runs ==> s.runs[p] in s.heap)
    && (forall t :: t in s.armed ==> s.armed[t].run in s.heap)
    && (forall a :: a in s.inflight ==> s.inflight[a].run in s.heap)
  }

  function ClearTimer(s: State, paneId: string): (r: State)
    requires Closed(s)
    ensures Closed(r)
  {
    if paneId in s.runs && s.heap[s.runs[paneId]].timer.Some? then
      var run := s.runs[paneId];
      s.(armed := s.armed - {s.heap[run].timer.value}, heap := s.heap[run := s.heap[run].(timer := None)])
    else s
  }

  function Remove(s: State, paneId: string): (r: State)
    requires Closed(s)
    ensures Closed(r)
  {
    s.(runs := s.runs - {paneId}, toasts := Without(s.toasts, paneId))
  }

  function End(s: State, paneId: string): (r: State)
    requires Closed(s)
    ensures Closed(r)
  {
    Remove(ClearTimer(s, paneId), paneId)
  }

  function MarkCancelled(s: State, paneId: string): (r: State)
    requires Closed(s)
    ensures Closed(r)
  {
    if paneId in s.runs then s.(heap := s.heap[s.runs[paneId] := s.heap[s.runs[paneId]].(cancelled := true)]) else s
  }

  function Begin(s: State, drop: Drop): (r: State)
    requires Closed(s)
    ensures Closed(r)
  {
    var p, run, timer := drop.paneId, s.next, s.next + 1;
    s.(heap := s.heap[run := Run(drop, Some(timer), false)],
       runs := s.runs[p := run],
       toasts := Without(s.toasts, p) + [Toast(p, drop.host, drop.workspaceId, 0, MAX)],
       armed := s.armed[timer := Timer(run, BACKOFFS[0])],
       next := s.next + 2)
  }

  /** A transport drop starts a fresh loop for its pane and supersedes the one in progress. */
  function Dropped(s: State, drop: Drop): (r: State)
    requires Closed(s)
    ensures Closed(r)
  {
    if drop.reason != "transport-dropped" then s
    else Begin(ClearTimer(MarkCancelled(s, drop.paneId), drop.paneId), drop)
  }

  /** The run starts its next attempt, a connect in the active workspace, and its row counts it. */
  function Launch(s: State, run: nat, attempt: nat): (r: State)
    requires Closed(s) && run in s.heap
    ensures Closed(r)
  {
    var drop := s.heap[run].drop;
    s.(toasts := WithAttempt(s.toasts, drop.paneId, attempt),
       inflight := s.inflight[s.next := Attempt(run, attempt)],
       next := s.next + 1,
       effects := s.effects + [Connecting(drop.paneId, s.active, drop.persistent, drop.tmuxSession)])
  }

  /** A timer fires and its loop makes the next attempt, unless the loop is no longer current. */
  function Fired(s: State, timer: nat): (r: State)
    requires Closed(s)
    ensures Closed(r)
  {
    if timer !in s.armed then s
    else
      var run := s.armed[timer].run;
      var s1 := s.(armed := s.armed - {timer});
      var p := s.heap[run].drop.paneId;
      if s.heap[run].cancelled || !(p in s.runs && s.runs[p] == run) then s1
      else
        var row := Row(s1.toasts, p);
        if row.None? then s1 else Launch(s1, run, row.value.attempt + 1)
  }

  function Settle(s: State, attempt: nat): (r: State)
    requires Closed(s)
    ensures Closed(r)
  {
    s.(inflight := s.inflight - {attempt})
  }

  function Resolved(s: State, attempt: nat): (r: State)
    requires Closed(s)
    ensures Closed(r)
  {
    if attempt !in s.inflight then s
    else
      var run := s.inflight[attempt].run;
      var s1 := Settle(s, attempt);
      var drop := s.heap[run].drop;
      if !(drop.paneId in s.runs && s.runs[drop.paneId] == run) then s1
      else
        var e := End(s1, drop.paneId);
        e.(effects := e.effects + [FlashSuccess(drop.host)])
  }

  function Rearm(s: State, run: nat, delay: nat): (r: State)
    requires Closed(s) && run in s.heap
    ensures Closed(r)
  {
    s.(armed := s.armed[s.next := Timer(run, delay)],
       heap := s.heap[run := s.heap[run].(timer := Some(s.next))],
       next := s.next + 1)
  }

  /** A failed attempt schedules the next one, or gives up when it was the last. */
  function Rejected(s: State, attempt: nat): (r: State)
    requires Closed(s)
    ensures Closed(r)
  {
    if attempt !in s.inflight then s
    else
      var run, number := s.inflight[attempt].run, s.inflight[attempt].number;
      var s1 := Settle(s, attempt);
      var drop := s.heap[run].drop;
      if s.heap[run].cancelled || !(drop.paneId in s.runs && s.runs[drop.paneId] == run) then s1
      else if number >= MAX then
        var e := End(s1, drop.paneId);
        e.(effects := e.effects + [FlashFailure(drop.host), ServerCancel(drop.paneId)])
      else Rearm(s1, run, BACKOFFS[number])
  }

  function CancelOne(s: State, paneId: string): (r: State)
    requires Closed(s)
    ensures Closed(r)
  {
    var e := End(MarkCancelled(s, paneId), paneId);
    e.(effects := e.effects + [ServerCancel(paneId)])
  }

  function CancelEach(s: State, ids: seq<string>): (r: State)
    requires Closed(s)
    ensures Closed(r)
    decreases |ids|
  {
    if ids == [] then s else CancelEach(CancelOne(s, ids[0]), ids[1..])
  }

  function RowIds(toasts: seq<Toast>): seq<string> {
    seq(|toasts|, i requires 0 <= i < |toasts| => toasts[i].paneId)
  }

  /** The panes a cancel is about: the one named, or every row on the screen. */
  function CancelledIds(s: State, paneId: Option<string>): seq<string> {
    if paneId.Some? && paneId.value != "" then [paneId.value] else RowIds(s.toasts)
  }

  function Cancelled(s: State, paneId: Option<string>): (r: State)
    requires Closed(s)
    ensures Closed(r)
  {
    CancelEach(s, CancelledIds(s, paneId))
  }

  datatype Event =
    | Drops(drop: Drop)
    | Fires(timer: nat)
    | Resolves(attempt: nat)
    | Rejects(attempt: nat)
    | Cancels(paneId: Option<string>)
    | Activates(workspace: Option<string>)

  function Next(s: State, e: Event): (r: State)
    requires Closed(s)
    ensures Closed(r)
  {
    match e
    case Drops(drop) => Dropped(s, drop)
    case Fires(timer) => Fired(s, timer)
    case Resolves(attempt) => Resolved(s, attempt)
    case Rejects(attempt) => Rejected(s, attempt)
    case Cancels(paneId) => Cancelled(s, paneId)
    case Activates(workspace) => s.(active := workspace)
  }

  function After(s: State, events: seq<Event>): (r: State)
    requires Closed(s)
    ensures Closed(r)
    decreases |events|
  {
    if events == [] then s else After(Next(s, events[0]), events[1..])
  }
}
