/**
 Re-attaching remembered sessions after a start. One loop asks hosts which sessions
 they have and connects panes, waiting at every call; while it waits the user may
 connect and disconnect panes and switch workspace. What the loop does is a trace.
 */
module SessionRestore {
  import opened Connections
  import opened Options
  import opened Sequences

  /** A leaf of the layout; `connection` is its own, if it has one. */
  datatype PaneInfo = PaneInfo(paneId: string, terminal: bool, connection: Option<Connection>)

  /** A workspace as it was when the restore began; without a layout it has no panes. */
  datatype Workspace = Workspace(id: string, connection: Option<Connection>, panes: Option<seq<PaneInfo>>,
                                 tmuxSession: Option<string>)

  function ConnectionsOf(panes: seq<PaneInfo>): seq<Option<Connection>> {
    seq(|panes|, i requires 0 <= i < |panes| => panes[i].connection)
  }

  function CapsOfWorkspace(ws: Workspace, platform: Platform): Caps {
    WsCaps(ws.connection, if ws.panes.Some? then Some(ConnectionsOf(ws.panes.value)) else None, platform)
  }

  datatype Settings = Settings(restoreOnStart: bool, autoConnect: bool)

  /** `connection` is the one the pane connects over. */
  datatype Candidate = Candidate(paneId: string, tmux: string, connection: Option<Connection>)

  /** The answer of a host: the sessions it lists, or nothing when it could not be asked. */
  type Answer = Option<set<string>>

  /**
   What the restore did. A list comes from some host; a connect goes to the host of the
   pane's own connection, and a dropped hint was for a session on that host. With it are
   recorded all hints as they were right before and right after. `ensured` says whether the
   workspace is connected as far as it has to be.
   */
  datatype Entry =
    | Pruned(existing: set<string>)
    | EnsureFailed(ensured: bool)
    | Listed(host: Host, ensured: bool, answer: Answer)
    | Probed(connection: Option<Connection>, answer: Answer)
    | LeftUnknown(paneId: string)
    | HintDropped(paneId: string, tmux: string, host: Host, before: map<string, string>, after: map<string, string>)
    | LeftLive(paneId: string, live: bool)
    | Attached(paneId: string, tmux: string, host: Host, workspace: Option<string>, live: bool)
    | Stopped(workspace: Option<string>)

  // ---------- Which host lists the sessions ----------

  /**
   The hosts that may answer when the sessions of a workspace are listed. A list over SSH
   goes through any session that bears the workspace's id, whichever of its panes opened
   it, or else through one of a sibling workspace; `elsewhere` are the hosts of the
   siblings' sessions and of those of panes that join the layout meanwhile.
   */
  function MayAnswer(ws: Workspace, platform: Platform, elsewhere: set<Host>): set<Host> {
    var own := {HostOf(ws.connection)};
    match ws.connection
    case Some(Wsl(_)) => own
    case Some(Ssh(_, _, _, _)) => own + SshPaneHosts(ws) + elsewhere
    case _ => if platform == Windows then own else own + SshPaneHosts(ws) + elsewhere
  }

  function SshPaneHosts(ws: Workspace): set<Host> {
    if ws.panes.None? then {}
    else set p | p in ws.panes.value && p.connection.Some? && p.connection.value.Ssh? :: HostOf(p.connection)
  }

  // ---------- Which panes are candidates ----------

  /** The session remembered for a pane, or the workspace's own session on its first pane. */
  function Remembered(ws: Workspace, hints: map<string, string>, paneId: string): Option<string> {
    if paneId in hints then Some(hints[paneId])
    else if ws.panes.Some? && ws.panes.value != [] && ws.panes.value[0].paneId == paneId then ws.tmuxSession
    else None
  }

  function CandidateOf(ws: Workspace, hints: map<string, string>, pane: PaneInfo): Candidate
    requires Remembered(ws, hints, pane.paneId).Some?
  {
    Candidate(pane.paneId, Remembered(ws, hints, pane.paneId).value, Effective(pane.connection, ws.connection))
  }

  predicate Restorable(ws: Workspace, platform: Platform, hints: map<string, string>, live: set<string>,
                       pane: PaneInfo)
  {
    && pane.terminal && PaneCaps(pane.connection, ws.connection, platform).sessionPersistence && pane.paneId !in live
    && var tmux := Remembered(ws, hints, pane.paneId);
       tmux.Some? && tmux.value != ""
  }

  function Candidates(ws: Workspace, platform: Platform, hints: map<string, string>, live: set<string>,
                      panes: seq<PaneInfo>): seq<Candidate>
  {
    if panes == [] then []
    else
      (if Restorable(ws, platform, hints, live, panes[0])
       then [CandidateOf(ws, hints, panes[0])] else [])
      + Candidates(ws, platform, hints, live, panes[1..])
  }

  lemma {:induction false} CandidatesAppend(ws: Workspace, platform: Platform, hints: map<string, string>,
                                            live: set<string>, a: seq<PaneInfo>, b: seq<PaneInfo>)
    ensures Candidates(ws, platform, hints, live, a + b)
            == Candidates(ws, platform, hints, live, a) + Candidates(ws, platform, hints, live, b)
  {
    if a == [] {
      assert a + b == b;
    } else {
      assert (a + b)[1..] == a[1..] + b;
      CandidatesAppend(ws, platform, hints, live, a[1..], b);
    }
  }

  /** A terminal pane that is not live and remembers a session, or has the workspace's own on it as the first pane. */
  ghost predicate ComesBack(ws: Workspace, panes: seq<PaneInfo>, hints: map<string, string>, live: set<string>,
                            pane: PaneInfo)
  {
    && pane.terminal && pane.paneId !in live
    && if pane.paneId in hints then hints[pane.paneId] != ""
       else
         && panes != [] && pane.paneId == panes[0].paneId
         && ws.tmuxSession.Some? && ws.tmuxSession.value != ""
  }

  /** The candidate is that pane with its own hint, or else the workspace's session, over the connection it uses. */
  ghost predicate IsCandidate(ws: Workspace, hints: map<string, string>, pane: PaneInfo, c: Candidate) {
    && c.paneId == pane.paneId
    && (if pane.paneId in hints then c.tmux == hints[pane.paneId] else ws.tmuxSession == Some(c.tmux))
    && (if pane.connection.Some? then c.connection == pane.connection else c.connection == ws.connection)
  }

  lemma RestorableComesBack(ws: Workspace, platform: Platform, panes: seq<PaneInfo>, hints: map<string, string>,
                            live: set<string>, pane: PaneInfo)
    requires ws.panes == Some(panes)
    ensures Restorable(ws, platform, hints, live, pane) <==> ComesBack(ws, panes, hints, live, pane)
    ensures Restorable(ws, platform, hints, live, pane) ==>
              IsCandidate(ws, hints, pane, CandidateOf(ws, hints, pane))
  {
  }

  /** So a candidate is one of the panes that come back, with that session. */
  lemma {:induction false} CandidateIsRestorable(ws: Workspace, platform: Platform, hints: map<string, string>,
                                                 live: set<string>, panes: seq<PaneInfo>, c: Candidate)
    requires ws.panes.Some?
    ensures c in Candidates(ws, platform, hints, live, panes) <==>
            exists pane :: pane in panes && ComesBack(ws, ws.panes.value, hints, live, pane)
                           && IsCandidate(ws, hints, pane, c)
  {
    if panes != [] {
      RestorableComesBack(ws, platform, ws.panes.value, hints, live, panes[0]);
      CandidateIsRestorable(ws, platform, hints, live, panes[1..], c);
    }
  }

  /** The candidates are one by one those of the panes that come back, in layout order. */
  ghost predicate CandidatesOf(ws: Workspace, hints: map<string, string>, kept: seq<PaneInfo>, cands: seq<Candidate>) {
    |kept| == |cands| && forall k :: 0 <= k < |kept| ==> IsCandidate(ws, hints, kept[k], cands[k])
  }

  lemma CandidatesOfCons(ws: Workspace, hints: map<string, string>, pane: PaneInfo, c: Candidate,
                         kept: seq<PaneInfo>, cands: seq<Candidate>)
    requires IsCandidate(ws, hints, pane, c) && CandidatesOf(ws, hints, kept, cands)
    ensures CandidatesOf(ws, hints, [pane] + kept, [c] + cands)
  {
  }

  lemma {:induction false} CandidatesOfSuffix(ws: Workspace, platform: Platform, hints: map<string, string>,
                                              live: set<string>, panes: seq<PaneInfo>, keep: PaneInfo -> bool)
    returns (kept: seq<PaneInfo>)
    requires ws.panes.Some? && forall pane :: keep(pane) <==> ComesBack(ws, ws.panes.value, hints, live, pane)
    ensures Filtered(panes, keep, kept)
    ensures CandidatesOf(ws, hints, kept, Candidates(ws, platform, hints, live, panes))
  {
    if panes == [] {
      kept := [];
      FilteredNone(keep);
    } else {
      var rest := CandidatesOfSuffix(ws, platform, hints, live, panes[1..], keep);
      RestorableComesBack(ws, platform, ws.panes.value, hints, live, panes[0]);
      FilteredCons(panes, keep, rest);
      kept := (if keep(panes[0]) then [panes[0]] else []) + rest;
      if keep(panes[0]) {
        CandidatesOfCons(ws, hints, panes[0], CandidateOf(ws, hints, panes[0]), rest,
                         Candidates(ws, platform, hints, live, panes[1..]));
      }
    }
  }

  /**
   The candidates of a layout are its terminal panes that are not live and have a session
   to come back to, in layout order and no others: the one remembered for the pane, and
   the workspace's own for the first pane alone.
   */
  lemma CandidatesComeBack(ws: Workspace, platform: Platform, hints: map<string, string>, live: set<string>)
    requires ws.panes.Some?
    ensures exists kept ::
              && Filtered(ws.panes.value, pane => ComesBack(ws, ws.panes.value, hints, live, pane), kept)
              && CandidatesOf(ws, hints, kept, Candidates(ws, platform, hints, live, ws.panes.value))
  {
    var kept := CandidatesOfSuffix(ws, platform, hints, live, ws.panes.value,
                                   pane => ComesBack(ws, ws.panes.value, hints, live, pane));
  }

  // ---------- What the loop may do ----------

  function AttachedTo(c: Candidate, wsId: string): Entry {
    Attached(c.paneId, c.tmux, HostOf(c.connection), Some(wsId), false)
  }

  /** The hint of just this pane goes. */
  predicate DropsHint(e: Entry, c: Candidate) {
    && e.HintDropped? && e.paneId == c.paneId && e.tmux == c.tmux && e.host == HostOf(c.connection)
    && e.after == e.before - {c.paneId}
  }

  /** What the loop does about a candidate whose session is or is not among the names. */
  predicate DecidedBy(e: Entry, c: Candidate, names: set<string>, wsId: string) {
    if c.tmux in names then e == AttachedTo(c, wsId) else DropsHint(e, c)
  }

  /** The trace of one candidate and of all that follow, given what has been probed so far. */
  ghost predicate Follows(cands: seq<Candidate>, trace: seq<Entry>, probes: map<Option<Connection>, Answer>,
                          alive: Answer, wsId: string)
    decreases |cands|
  {
    if cands == [] then trace == []
    else if alive.Some? then Decides(cands, trace, probes, alive, alive, wsId)
    else if cands[0].connection in probes then Decides(cands, trace, probes, probes[cands[0].connection], alive, wsId)
    else
      && trace != [] && trace[0].Probed? && trace[0].connection == cands[0].connection
      && Decides(cands, trace[1..], probes[cands[0].connection := trace[0].answer], trace[0].answer, alive, wsId)
  }

  /** The decision about the first candidate, once its host's answer is known. */
  ghost predicate Decides(cands: seq<Candidate>, trace: seq<Entry>, probes: map<Option<Connection>, Answer>,
                          answer: Answer, alive: Answer, wsId: string)
    requires cands != []
    decreases |cands|, 0
  {
    var c := cands[0];
    && trace != []
    && if answer.None? then
         trace[0] == LeftUnknown(c.paneId) && Follows(cands[1..], trace[1..], probes, alive, wsId)
       else if c.tmux !in answer.value then
         DropsHint(trace[0], c) && Follows(cands[1..], trace[1..], probes, alive, wsId)
       else if trace[0].Stopped? then
         trace[0].workspace != Some(wsId) && |trace| == 1
       else
         && (trace[0] == LeftLive(c.paneId, true) || trace[0] == AttachedTo(c, wsId))
         && Follows(cands[1..], trace[1..], probes, alive, wsId)
  }

  function Kept(hints: map<string, string>, existing: set<string>): map<string, string> {
    map p | p in hints && p in existing :: hints[p]
  }

  /** What a restore that goes ahead starts from. */
  datatype Start = Start(platform: Platform, ws: Workspace, settings: Settings, existing: set<string>,
                         hints: map<string, string>, live: set<string>, elsewhere: set<Host>) {
    function Cands(): seq<Candidate> {
      if ws.panes.None? then [] else Candidates(ws, platform, Kept(hints, existing), live, ws.panes.value)
    }

    predicate Enabled() {
      settings.restoreOnStart && settings.autoConnect && ws.panes.Some?
    }

    function Answerers(): set<Host> {
      MayAnswer(ws, platform, elsewhere)
    }
  }

  /** One list decides for all panes; an empty one is ambiguous and ends the restore. */
  ghost predicate Asks(ws: Workspace, platform: Platform, answerers: set<Host>, cands: seq<Candidate>,
                       trace: seq<Entry>)
  {
    var caps := CapsOfWorkspace(ws, platform);
    if cands == [] then trace == []
    else if !caps.sessionPersistence then Follows(cands, trace, map[], None, ws.id)
    else
      || (caps.sessionBound && trace == [EnsureFailed(false)])
      || (&& trace != [] && trace[0].Listed? && trace[0].host in answerers && trace[0].ensured
          && if trace[0].answer == None || trace[0].answer == Some({}) then |trace| == 1
             else Follows(cands, trace[1..], map[], trace[0].answer, ws.id))
  }

  /** The whole restore. */
  ghost predicate Restores(trace: seq<Entry>, start: Start) {
    && trace != [] && trace[0] == Pruned(start.existing)
    && if !start.Enabled() then |trace| == 1
       else Asks(start.ws, start.platform, start.Answerers(), start.Cands(), trace[1..])
  }

  // ---------- No probe is issued ----------

  /** The loop by itself would probe no connection twice, not even after a probe that could not ask. */
  lemma {:induction false} ProbedOnce(cands: seq<Candidate>, trace: seq<Entry>, probes: map<Option<Connection>, Answer>,
                                      alive: Answer, wsId: string)
    requires Follows(cands, trace, probes, alive, wsId)
    ensures forall j :: 0 <= j < |trace| && trace[j].Probed? ==> alive.None? && trace[j].connection !in probes
    ensures forall j, k :: 0 <= j < k < |trace| && trace[j].Probed? && trace[k].Probed? ==>
                             trace[j].connection != trace[k].connection
    decreases |cands|
  {
    if cands != [] {
      var asked := alive.None? && cands[0].connection !in probes;
      var probes' := if asked then probes[cands[0].connection := trace[0].answer] else probes;
      var d := if asked then 1 else 0;
      var rest := if asked then trace[1..][1..] else trace[1..];
      assert rest == trace[d + 1..];
      if !trace[d].Stopped? {
        ProbedOnce(cands[1..], rest, probes', alive, wsId);
      }
      forall j | d < j < |trace| ensures trace[j] == rest[j - d - 1] {}
    }
  }

  /** In every restore: every workspace is taken to have a list of its own, so the loop never asks a pane's host. */
  lemma NoProbeIsIssued(trace: seq<Entry>, start: Start)
    requires Restores(trace, start)
    ensures forall j :: 0 <= j < |trace| ==> !trace[j].Probed?
  {
    if |trace| > 1 {
      PersistsAtStart(start);
      var body := trace[1..];
      forall j | 1 <= j < |trace| ensures trace[j] == body[j - 1] {}
      if |body| > 1 {
        ProbedOnce(start.Cands(), body[1..], map[], body[0].answer, start.ws.id);
        forall j | 1 <= j < |body| ensures body[j] == body[1..][j - 1] {}
      }
    }
  }

  lemma PersistsAtStart(start: Start)
    ensures CapsOfWorkspace(start.ws, start.platform).sessionPersistence
  {
    var panes := if start.ws.panes.Some? then Some(ConnectionsOf(start.ws.panes.value)) else None;
    EveryWorkspacePersists(start.ws.connection, panes, start.platform);
  }

  // ---------- Whose answer decides ----------

  /** The entry acts on what a host is believed to have: it connects to a session, or forgets one as gone. */
  predicate Decisive(e: Entry) {
    e.Attached? || e.HintDropped?
  }

  /** With a list for the whole workspace, every decision of the loop goes by that list. */
  lemma {:induction false} ListDecides(cands: seq<Candidate>, trace: seq<Entry>, names: set<string>,
                                       wsId: string, k: nat)
    requires Follows(cands, trace, map[], Some(names), wsId) && k < |trace| && Decisive(trace[k])
    ensures exists c :: c in cands && DecidedBy(trace[k], c, names, wsId)
    decreases |cands|
  {
    if k == 0 {
      assert cands[0] in cands && DecidedBy(trace[0], cands[0], names, wsId);
    } else {
      assert trace[1..][k - 1] == trace[k];
      ListDecides(cands[1..], trace[1..], names, wsId, k - 1);
    }
  }

  /** The entry is the decision about one of the candidates by the list in the trace's second entry. */
  ghost predicate ByTheList(trace: seq<Entry>, k: nat, start: Start, names: set<string>)
    requires k < |trace|
  {
    && 1 < k && trace[1].Listed? && trace[1].host in start.Answerers() && trace[1].answer == Some(names) && names != {}
    && exists c :: c in start.Cands() && DecidedBy(trace[k], c, names, start.ws.id)
  }

  /**
   Whatever the user does meanwhile, one list decides: each connect names a session on
   that list, is for a pane not recorded live, and runs in the workspace the restore
   started in; and a hint is dropped only when the list lacks its session. The list comes
   from one of the hosts that may answer for the workspace.
   */
  lemma OneListDecides(trace: seq<Entry>, start: Start, k: nat)
    requires Restores(trace, start) && k < |trace| && Decisive(trace[k])
    ensures exists names :: ByTheList(trace, k, start, names)
  {
    PersistsAtStart(start);
    var body := trace[1..][1..];
    assert body == trace[2..] && body[k - 2] == trace[k];
    var names := trace[1].answer.value;
    ListDecides(start.Cands(), body, names, start.ws.id, k - 2);
    assert ByTheList(trace, k, start, names);
  }

  /** Dropping a hint forgets the session of just that pane. */
  lemma DropForgetsOneHint(trace: seq<Entry>, start: Start, k: nat)
    requires Restores(trace, start) && k < |trace| && trace[k].HintDropped?
    ensures var e := trace[k];
            && e.paneId !in e.after
            && forall q :: q != e.paneId ==>
                 (q in e.before <==> q in e.after) && (q in e.before ==> e.before[q] == e.after[q])
  {
    OneListDecides(trace, start, k);
  }

  /** Before position `k` this very host answered with these names. */
  ghost predicate AnsweredBy(trace: seq<Entry>, k: nat, host: Host, names: set<string>)
    requires k <= |trace|
  {
    exists j :: 0 <= j < k && ((trace[j].Listed? && trace[j].host == host && trace[j].answer == Some(names))
                               || (trace[j].Probed? && HostOf(trace[j].connection) == host
                                   && trace[j].answer == Some(names)))
  }

  /** The host of the pane itself answered earlier in this run, and its answer is what is acted on. */
  ghost predicate Confirmed(trace: seq<Entry>, k: nat)
    requires k < |trace| && Decisive(trace[k])
  {
    exists names :: AnsweredBy(trace, k, trace[k].host, names) && (trace[k].tmux in names <==> trace[k].Attached?)
  }

  /**
   A connect or a dropped hint rests on the answer of the pane's own host exactly when
   that is the host that listed. Otherwise it is a guess.
   */
  lemma ConfirmedIff(trace: seq<Entry>, start: Start, k: nat)
    requires Restores(trace, start) && k < |trace| && Decisive(trace[k])
    ensures 1 < k && trace[1].Listed?
    ensures Confirmed(trace, k) <==> trace[k].host == trace[1].host
  {
    OneListDecides(trace, start, k);
    var names :| ByTheList(trace, k, start, names);
    NoProbeIsIssued(trace, start);
    OneList(trace, start);
    if trace[k].host == trace[1].host {
      assert AnsweredBy(trace, k, trace[k].host, names);
    }
  }

  lemma {:induction false} LoopLists(cands: seq<Candidate>, trace: seq<Entry>, probes: map<Option<Connection>, Answer>,
                                     alive: Answer, wsId: string)
    requires Follows(cands, trace, probes, alive, wsId)
    ensures forall j :: 0 <= j < |trace| ==> !trace[j].Listed?
    decreases |cands|
  {
    if cands != [] {
      var asked := alive.None? && cands[0].connection !in probes;
      var probes' := if asked then probes[cands[0].connection := trace[0].answer] else probes;
      var d := if asked then 1 else 0;
      var rest := if asked then trace[1..][1..] else trace[1..];
      assert rest == trace[d + 1..];
      if !trace[d].Stopped? {
        LoopLists(cands[1..], rest, probes', alive, wsId);
      }
      forall j | d < j < |trace| ensures trace[j] == rest[j - d - 1] {}
    }
  }

  /** There is no other list. */
  lemma OneList(trace: seq<Entry>, start: Start)
    requires Restores(trace, start)
    ensures forall j :: 0 <= j < |trace| && trace[j].Listed? ==> j == 1
  {
    if |trace| > 1 {
      PersistsAtStart(start);
      var body := trace[1..];
      forall j | 1 <= j < |trace| ensures trace[j] == body[j - 1] {}
      if |body| > 1 {
        LoopLists(start.Cands(), body[1..], map[], body[0].answer, start.ws.id);
        forall j | 1 <= j < |body| ensures body[j] == body[1..][j - 1] {}
      }
    }
  }

  // ---------- Which workspaces are restored without guessing ----------

  ghost predicate GuessesNothing(trace: seq<Entry>) {
    forall k :: 0 <= k < |trace| && Decisive(trace[k]) ==> Confirmed(trace, k)
  }

  /** Every host that may answer for the workspace is the host of every candidate. */
  ghost predicate OneHost(start: Start) {
    forall h, c :: h in start.Answerers() && c in start.Cands() ==> HostOf(c.connection) == h
  }

  function AllAttached(cands: seq<Candidate>, wsId: string): seq<Entry> {
    seq(|cands|, i requires 0 <= i < |cands| => AttachedTo(cands[i], wsId))
  }

  lemma {:induction false} AllAttachedFollows(cands: seq<Candidate>, names: set<string>, wsId: string)
    requires forall c :: c in cands ==> c.tmux in names
    ensures Follows(cands, AllAttached(cands, wsId), map[], Some(names), wsId)
  {
    if cands != [] {
      assert AllAttached(cands, wsId)[1..] == AllAttached(cands[1..], wsId);
      AllAttachedFollows(cands[1..], names, wsId);
      assert cands[0] in cands;
    }
  }

  /** The run in which that host lists every remembered name and the user does nothing. */
  function EagerRun(start: Start, host: Host): seq<Entry> {
    var names := set c | c in start.Cands() :: c.tmux;
    [Pruned(start.existing), Listed(host, true, Some(names))] + AllAttached(start.Cands(), start.ws.id)
  }

  lemma EagerRunRestores(start: Start, host: Host)
    requires start.Enabled() && start.Cands() != [] && host in start.Answerers()
    ensures Restores(EagerRun(start, host), start)
  {
    var cands := start.Cands();
    var names := set c | c in cands :: c.tmux;
    var trace := EagerRun(start, host);
    PersistsAtStart(start);
    assert cands[0] in cands && cands[0].tmux in names;
    AllAttachedFollows(cands, names, start.ws.id);
    assert trace[1..][0] == trace[1] && trace[1..][1..] == AllAttached(cands, start.ws.id);
  }

  /**
   Every possible run of a restore is free of guesses exactly when every host that may
   answer for the workspace is the host of every candidate.
   */
  lemma NothingOnAGuessIff(start: Start)
    requires start.Enabled()
    ensures (forall trace :: Restores(trace, start) ==> GuessesNothing(trace)) <==> OneHost(start)
  {
    if OneHost(start) {
      forall trace | Restores(trace, start) ensures GuessesNothing(trace) {
        OneHostGuessesNothing(trace, start);
      }
    } else {
      var h, c :| h in start.Answerers() && c in start.Cands() && HostOf(c.connection) != h;
      EagerRunRestores(start, h);
      EagerRunGuesses(start, h, c);
    }
  }

  lemma OneHostGuessesNothing(trace: seq<Entry>, start: Start)
    requires OneHost(start) && Restores(trace, start)
    ensures GuessesNothing(trace)
  {
    forall k | 0 <= k < |trace| && Decisive(trace[k]) ensures Confirmed(trace, k) {
      OneListDecides(trace, start, k);
      var names :| ByTheList(trace, k, start, names);
      var c :| c in start.Cands() && DecidedBy(trace[k], c, names, start.ws.id);
      ConfirmedIff(trace, start, k);
    }
  }

  lemma EagerRunGuesses(start: Start, host: Host, c: Candidate)
    requires start.Enabled() && host in start.Answerers() && c in start.Cands() && HostOf(c.connection) != host
    ensures !GuessesNothing(EagerRun(start, host))
  {
    var cands := start.Cands();
    var trace := EagerRun(start, host);
    EagerRunRestores(start, host);
    var i :| 0 <= i < |cands| && cands[i] == c;
    assert trace[i + 2] == AllAttached(cands, start.ws.id)[i];
    ConfirmedIff(trace, start, i + 2);
  }

  /** One candidate, and one list that decides about it. */
  lemma OneDecision(start: Start, host: Host, names: set<string>, c: Candidate, decision: Entry)
    requires DecidedBy(decision, c, names, start.ws.id)
    requires start.Enabled() && start.Cands() == [c] && host in start.Answerers() && names != {}
    ensures var trace := [Pruned(start.existing), Listed(host, true, Some(names)), decision];
            Restores(trace, start) && (Confirmed(trace, 2) <==> HostOf(c.connection) == host)
  {
    var trace := [Pruned(start.existing), Listed(host, true, Some(names)), decision];
    PersistsAtStart(start);
    assert trace[1..][0] == trace[1] && trace[1..][1..] == [decision] && [decision][1..] == [] && [c][1..] == [];
    assert Follows([c][1..], [decision][1..], map[], Some(names), start.ws.id);
    assert Follows([c], [decision], map[], Some(names), start.ws.id);
    ConfirmedIff(trace, start, 2);
  }

  function ServerAt(host: string): Option<Connection> {
    Some(Ssh(host, "me", 22, None))
  }

  /** Workspace "w" on server "a" with the given panes, where pane "p" remembers session "s". */
  function SmallStart(panes: seq<PaneInfo>, platform: Platform, live: set<string>): Start {
    var ws := Workspace("w", ServerAt("a"), Some(panes), None);
    Start(platform, ws, Settings(true, true), {"p", "q"}, map["p" := "s"], live, {})
  }

  lemma SmallCands(pane: PaneInfo, rest: seq<PaneInfo>, platform: Platform, live: set<string>)
    requires pane.paneId == "p" && pane.terminal && "p" !in live
    requires rest == [] || (rest == [rest[0]] && rest[0].paneId == "q")
    ensures SmallStart([pane] + rest, platform, live).Cands()
            == [Candidate("p", "s", Effective(pane.connection, ServerAt("a")))]
  {
    var start := SmallStart([pane] + rest, platform, live);
    var kept := Kept(start.hints, start.existing);
    assert kept == map["p" := "s"];
    assert ([pane] + rest)[1..] == rest;
    if rest != [] {
      assert rest[1..] == [];
    }
    assert Candidates(start.ws, platform, kept, live, rest) == [];
  }

  /** Session "s" of the pane is attached, or its hint, the only one, is dropped. */
  function Decision(c: Candidate, listed: bool): Entry {
    if listed then Attached(c.paneId, "s", HostOf(c.connection), Some("w"), false)
    else HintDropped(c.paneId, "s", HostOf(c.connection), map[c.paneId := "s"], map[])
  }

  lemma DecisionAbout(c: Candidate, listed: bool)
    requires c.tmux == "s"
    ensures DecidedBy(Decision(c, listed), c, {if listed then "s" else "t"}, "w")
  {
    assert map[c.paneId := "s"] - {c.paneId} == map[];
  }

  /**
   A workspace on server "a" with a pane on server "b", which nobody asks: by the list of
   "a" the pane is attached, or its hint is dropped.
   */
  lemma MixedWorkspaceGuesses(platform: Platform, listed: bool)
    ensures var start := SmallStart([PaneInfo("p", true, ServerAt("b"))], platform, {});
            var names := {if listed then "s" else "t"};
            var decision := Decision(Candidate("p", "s", ServerAt("b")), listed);
            var trace := [Pruned({"p", "q"}), Listed(HostOf(ServerAt("a")), true, Some(names)), decision];
            Restores(trace, start) && !Confirmed(trace, 2)
  {
    var pane := PaneInfo("p", true, ServerAt("b"));
    assert [pane] + [] == [pane];
    SmallCands(pane, [], platform, {});
    var c := Candidate("p", "s", ServerAt("b"));
    DecisionAbout(c, listed);
    OneDecision(SmallStart([pane], platform, {}), HostOf(ServerAt("a")), {if listed then "s" else "t"}, c,
                Decision(c, listed));
  }

  lemma PaneMayAnswer(start: Start, pane: PaneInfo)
    requires start.ws.connection.Some? && start.ws.connection.value.Ssh?
    requires start.ws.panes.Some? && pane in start.ws.panes.value
    requires pane.connection.Some? && pane.connection.value.Ssh?
    ensures HostOf(pane.connection) in start.Answerers()
  {
  }

  /**
   A workspace on server "a" whose only candidate is on "a" too, while another pane of it
   is live on server "b": the list may come over that pane's session, and by the list of
   "b" the candidate is attached on "a", or its hint is dropped.
   */
  lemma LivePaneAnswersForAnother(platform: Platform, listed: bool)
    ensures var start := SmallStart([PaneInfo("p", true, None), PaneInfo("q", true, ServerAt("b"))], platform, {"q"});
            var names := {if listed then "s" else "t"};
            var decision := Decision(Candidate("p", "s", ServerAt("a")), listed);
            var trace := [Pruned({"p", "q"}), Listed(HostOf(ServerAt("b")), true, Some(names)), decision];
            && Restores(trace, start) && !Confirmed(trace, 2)
            && forall c :: c in start.Cands() ==> HostOf(c.connection) == HostOf(start.ws.connection)
  {
    var p, q := PaneInfo("p", true, None), PaneInfo("q", true, ServerAt("b"));
    assert [p] + [q] == [p, q];
    SmallCands(p, [q], platform, {"q"});
    var start := SmallStart([p, q], platform, {"q"});
    PaneMayAnswer(start, q);
    var c := Candidate("p", "s", ServerAt("a"));
    DecisionAbout(c, listed);
    OneDecision(start, HostOf(ServerAt("b")), {if listed then "s" else "t"}, c, Decision(c, listed));
  }

  // ---------- Every candidate is decided ----------

  function Decisions(trace: seq<Entry>): seq<Entry> {
    if trace == [] then []
    else if trace[0].Probed? then Decisions(trace[1..])
    else [trace[0]] + Decisions(trace[1..])
  }

  /**
   The loop takes one decision for each candidate, in order, and leaves candidates
   undecided only by stopping because another workspace is active.
   */
  lemma {:induction false} OneDecisionEach(cands: seq<Candidate>, trace: seq<Entry>,
                                           probes: map<Option<Connection>, Answer>, alive: Answer, wsId: string)
    requires Follows(cands, trace, probes, alive, wsId)
    ensures |Decisions(trace)| <= |cands|
    ensures forall i :: 0 <= i < |Decisions(trace)| ==>
                          var d := Decisions(trace)[i];
                          || (d.Stopped? && d.workspace != Some(wsId) && i == |Decisions(trace)| - 1)
                          || (DecidesFor(d) && d.paneId == cands[i].paneId)
    ensures |Decisions(trace)| < |cands| ==> Decisions(trace) != [] && Decisions(trace)[|Decisions(trace)| - 1].Stopped?
    decreases |cands|
  {
    if cands != [] {
      var asked := alive.None? && cands[0].connection !in probes;
      var probes' := if asked then probes[cands[0].connection := trace[0].answer] else probes;
      var rest := if asked then trace[1..] else trace;
      if rest[0].Stopped? {
        assert rest[1..] == [];
      } else {
        OneDecisionEach(cands[1..], rest[1..], probes', alive, wsId);
      }
      assert Decisions(trace) == [rest[0]] + Decisions(rest[1..]);
    }
  }

  /**
   A restore that hears of sessions decides about every candidate, in order, and leaves
   some undecided only when another workspace is active.
   */
  lemma EveryCandidateIsDecided(trace: seq<Entry>, start: Start)
    requires Restores(trace, start) && |trace| > 1 && trace[1].Listed?
    requires trace[1].answer.Some? && trace[1].answer.value != {}
    ensures var decisions := trace[2..];
            && |decisions| <= |start.Cands()|
            && (forall i :: 0 <= i < |decisions| ==>
                  (decisions[i].Stopped? && i == |decisions| - 1)
                  || (DecidesFor(decisions[i]) && decisions[i].paneId == start.Cands()[i].paneId))
            && (|decisions| < |start.Cands()| ==> decisions != [] && decisions[|decisions| - 1].Stopped?)
  {
    PersistsAtStart(start);
    var body := trace[1..][1..];
    assert body == trace[2..];
    OneDecisionEach(start.Cands(), body, map[], trace[1].answer, start.ws.id);
    NoProbeIsIssued(trace, start);
    DecisionsAreAll(body);
  }

  predicate DecidesFor(e: Entry) {
    e.LeftUnknown? || e.HintDropped? || e.LeftLive? || e.Attached?
  }

  lemma {:induction false} DecisionsAreAll(trace: seq<Entry>)
    requires forall k :: 0 <= k < |trace| ==> !trace[k].Probed?
    ensures Decisions(trace) == trace
  {
    if trace != [] {
      DecisionsAreAll(trace[1..]);
    }
  }

  // ---------- The restore as it runs ----------

  class Restorer {
    const platform: Platform
    const elsewhere: set<Host>         // see MayAnswer
    var ran: bool                      // restore is attempted once per start
    var live: set<string>              // panes recorded as connected
    var activeWorkspace: Option<string>
    var hints: map<string, string>     // pane to remembered session
    var probes: map<Option<Connection>, Answer>
    ghost var log: seq<Entry>

    constructor (platform: Platform, elsewhere: set<Host>, live: set<string>, activeWorkspace: Option<string>,
                 hints: map<string, string>)
      ensures !ran && log == [] && this.platform == platform && this.elsewhere == elsewhere
      ensures this.live == live && this.activeWorkspace == activeWorkspace && this.hints == hints
    {
      this.platform, this.elsewhere := platform, elsewhere;
      this.live, this.activeWorkspace, this.hints := live, activeWorkspace, hints;
      ran, probes, log := false, map[], [];
    }

    /** Anything may happen to what the user controls while a call is awaited. */
    method Await()
      modifies this`live, this`activeWorkspace, this`hints
    {
      live, activeWorkspace, hints := *, *, *;
    }

    method Reply() returns (answer: Answer)
      modifies this`live, this`activeWorkspace, this`hints
    {
      Await();
      answer := *;
    }

    /** The sessions known to be alive for a pane: the workspace's list, a cached probe, or a new probe. */
    method AliveFor(c: Candidate, alive: Answer) returns (answer: Answer)
      modifies this`live, this`activeWorkspace, this`hints, this`probes, this`log
      ensures alive.Some? ==> answer == alive && probes == old(probes) && log == old(log) && hints == old(hints)
      ensures alive.None? && c.connection in old(probes) ==>
                && answer == old(probes)[c.connection] && probes == old(probes) && log == old(log)
                && hints == old(hints)
      ensures alive.None? && c.connection !in old(probes) ==>
                probes == old(probes)[c.connection := answer] && log == old(log) + [Probed(c.connection, answer)]
    {
      if alive.Some? {
        return alive;
      }
      if c.connection in probes {
        return probes[c.connection];
      }
      answer := Reply();
      probes := probes[c.connection := answer];
      log := log + [Probed(c.connection, answer)];
    }

    /** Restores the first of the candidates, re-checking the workspace and the pane right before the connect. */
    method RestoreFirst(cands: seq<Candidate>, alive: Answer, wsId: string)
      returns (stopped: bool, ghost done: seq<Entry>)
      requires cands != []
      modifies this`live, this`activeWorkspace, this`hints, this`probes, this`log
      ensures log == old(log) + done
      ensures done != [] && (done[0].HintDropped? ==> done[0].before == old(hints)) && HintsKept(done, hints)
      ensures alive.Some? && cands[0].tmux !in alive.value ==> !stopped && hints == old(hints) - {cands[0].paneId}
      ensures stopped ==> Follows(cands, done, old(probes), alive, wsId)
      ensures !stopped ==> Continues(cands, done, old(probes), cands[1..], probes, alive, wsId)
    {
      var c := cands[0];
      ghost var known := probes;
      var answer := AliveFor(c, alive);
      ghost var probe := log[|old(log)|..];
      ghost var decision: Entry;
      stopped := false;
      if answer.None? {
        decision := LeftUnknown(c.paneId);
      } else if c.tmux !in answer.value {
        ghost var before := hints;
        hints := hints - {c.paneId};
        decision := HintDropped(c.paneId, c.tmux, HostOf(c.connection), before, hints);
      } else {
        Await();
        if activeWorkspace != Some(wsId) {
          stopped := true;
          decision := Stopped(activeWorkspace);
        } else if c.paneId in live {
          decision := LeftLive(c.paneId, c.paneId in live);
        } else {
          decision := Attached(c.paneId, c.tmux, HostOf(c.connection), activeWorkspace, c.paneId in live);
          Await();
        }
      }
      log := log + [decision];
      done := probe + [decision];
      ghost var decided := probes;
      assert stopped ==> Decides(cands, [decision], decided, answer, alive, wsId);
      assert stopped && probe != [] ==> done[1..] == [decision];
      forall tail | !stopped && Follows(cands[1..], tail, decided, alive, wsId)
        ensures Follows(cands, done + tail, known, alive, wsId)
      {
        assert ([decision] + tail)[1..] == tail;
        assert Decides(cands, [decision] + tail, decided, answer, alive, wsId);
        if probe != [] {
          assert (done + tail)[1..] == [decision] + tail;
        } else {
          assert done + tail == [decision] + tail;
        }
      }
    }

    /** Restores one candidate after another. */
    method RestoreEach(cands: seq<Candidate>, alive: Answer, wsId: string) returns (ghost trace: seq<Entry>)
      requires probes == map[]
      modifies this`live, this`activeWorkspace, this`hints, this`probes, this`log
      ensures log == old(log) + trace
      ensures Follows(cands, trace, map[], alive, wsId) && HintsKept(trace, hints)
    {
      trace := [];
      assert cands[0..] == cands;
      ContinuesAtOnce(cands, alive, wsId);
      for i := 0 to |cands|
        invariant log == old(log) + trace && HintsKept(trace, hints)
        invariant Continues(cands, trace, map[], cands[i..], probes, alive, wsId)
      {
        ghost var before, known, hintsBefore := trace, probes, hints;
        assert cands[i..][1..] == cands[i + 1..];
        var stopped, done := RestoreFirst(cands[i..], alive, wsId);
        trace := before + done;
        HintsKeptOn(before, done, hintsBefore, hints);
        if stopped {
          return;
        }
        ContinuesTransitive(cands, before, map[], cands[i..], done, known, cands[i + 1..], probes, alive, wsId);
      }
      assert trace + [] == trace && Follows(cands[|cands|..], [], probes, alive, wsId);
    }

    method CollectCandidates(ws: Workspace, panes: seq<PaneInfo>) returns (cands: seq<Candidate>)
      ensures cands == Candidates(ws, platform, hints, live, panes)
    {
      cands := [];
      for i := 0 to |panes|
        invariant cands == Candidates(ws, platform, hints, live, panes[..i])
      {
        var pane := panes[i];
        assert panes[..i + 1] == panes[..i] + [pane];
        CandidatesAppend(ws, platform, hints, live, panes[..i], [pane]);
        assert Candidates(ws, platform, hints, live, [pane][1..]) == [];
        var caps := PaneCaps(pane.connection, ws.connection, platform);
        if pane.terminal && caps.sessionPersistence && pane.paneId !in live {
          var tmux := Remembered(ws, hints, pane.paneId);
          if tmux.Some? && tmux.value != "" {
            cands := cands + [CandidateOf(ws, hints, pane)];
          }
        }
      }
      assert panes[..|panes|] == panes;
    }

    /** Asks for the workspace's list, which any host that may answer gives, and restores the candidates by it. */
    method AskAndRestore(ws: Workspace, cands: seq<Candidate>) returns (ghost trace: seq<Entry>)
      requires probes == map[] && cands != []
      modifies this`live, this`activeWorkspace, this`hints, this`probes, this`log
      ensures log == old(log) + trace
      ensures Asks(ws, platform, MayAnswer(ws, platform, elsewhere), cands, trace) && HintsKept(trace, hints)
    {
      var caps := CapsOfWorkspace(ws, platform);
      if !caps.sessionPersistence {
        trace := RestoreEach(cands, None, ws.id);
        return;
      }
      var ensured := !caps.sessionBound;
      if caps.sessionBound {
        var reply := Reply();
        ensured := reply.Some?;
        if !ensured {
          log := log + [EnsureFailed(ensured)];
          trace := [EnsureFailed(ensured)];
          return;
        }
      }
      var sessions := Reply();
      ghost var host :| host in MayAnswer(ws, platform, elsewhere);
      log := log + [Listed(host, ensured, sessions)];
      trace := [Listed(host, ensured, sessions)];
      if sessions.None? || sessions.value == {} {
        return;
      }
      ghost var rest := RestoreEach(cands, sessions, ws.id);
      trace := trace + rest;
      assert trace[1..] == rest;
    }

    /** The restore of one start; `ws` is the active workspace at this moment. */
    method RestoreSessions(ws: Option<Workspace>, settings: Option<Settings>, existing: set<string>)
      returns (ghost trace: seq<Entry>)
      requires ws.Some? ==> activeWorkspace == Some(ws.value.id)
      modifies this
      ensures log == old(log) + trace && HintsKept(trace, hints)
      ensures old(ran) || ws.None? || settings.None? ==>
                trace == [] && hints == old(hints) && live == old(live) && activeWorkspace == old(activeWorkspace)
      ensures !old(ran) && ws.Some? && settings.Some?
              && !(settings.value.restoreOnStart && settings.value.autoConnect && ws.value.panes.Some?) ==>
                trace == [Pruned(existing)]
      ensures trace == [Pruned(existing)] ==>
                && live == old(live) && activeWorkspace == old(activeWorkspace)
                && forall p :: (p in hints <==> p in old(hints) && p in existing)
                               && (p in hints ==> hints[p] == old(hints)[p])
      ensures !old(ran) && ws.Some? && settings.Some? ==>
                Restores(trace, Start(platform, ws.value, settings.value, existing, old(hints), old(live), elsewhere))
      ensures ran <==> old(ran) || (ws.Some? && settings.Some?)
    {
      trace := [];
      if ran || ws.None? || settings.None? {
        return;
      }
      ran := true;
      hints := Kept(hints, existing);
      log := log + [Pruned(existing)];
      trace := [Pruned(existing)];
      if !settings.value.restoreOnStart || !settings.value.autoConnect || ws.value.panes.None? {
        return;
      }
      var cands := CollectCandidates(ws.value, ws.value.panes.value);
      if cands == [] {
        assert trace[1..] == [];
        return;
      }
      probes := map[];
      ghost var rest := AskAndRestore(ws.value, cands);
      trace := trace + rest;
      assert trace[1..] == rest;
    }
  }

  /**
   The hints are as the last drop left them if that was the last thing done, and nothing
   touches them between two drops in a row.
   */
  ghost predicate HintsKept(trace: seq<Entry>, hints: map<string, string>) {
    && (trace != [] && trace[|trace| - 1].HintDropped? ==> hints == trace[|trace| - 1].after)
    && forall k :: 0 < k < |trace| && trace[k - 1].HintDropped? && trace[k].HintDropped? ==>
                     trace[k].before == trace[k - 1].after
  }

  lemma HintsKeptOn(a: seq<Entry>, b: seq<Entry>, between: map<string, string>, hints: map<string, string>)
    requires HintsKept(a, between) && HintsKept(b, hints)
    requires b != [] && (b[0].HintDropped? ==> b[0].before == between)
    ensures HintsKept(a + b, hints)
  {
  }

  /** Whatever completes the remaining candidates completes all of them. */
  ghost predicate Continues(cands: seq<Candidate>, done: seq<Entry>, probes: map<Option<Connection>, Answer>,
                            rest: seq<Candidate>, probes': map<Option<Connection>, Answer>, alive: Answer, wsId: string)
  {
    forall tail :: Follows(rest, tail, probes', alive, wsId) ==> Follows(cands, done + tail, probes, alive, wsId)
  }

  lemma ContinuesAtOnce(cands: seq<Candidate>, alive: Answer, wsId: string)
    ensures Continues(cands, [], map[], cands, map[], alive, wsId)
  {
    forall tail | Follows(cands, tail, map[], alive, wsId) ensures Follows(cands, [] + tail, map[], alive, wsId) {
      assert [] + tail == tail;
    }
  }

  lemma ContinuesTransitive(cands: seq<Candidate>, a: seq<Entry>, p0: map<Option<Connection>, Answer>,
                            mid: seq<Candidate>, b: seq<Entry>, p1: map<Option<Connection>, Answer>,
                            rest: seq<Candidate>, p2: map<Option<Connection>, Answer>, alive: Answer, wsId: string)
    requires Continues(cands, a, p0, mid, p1, alive, wsId)
    requires Continues(mid, b, p1, rest, p2, alive, wsId)
    ensures Continues(cands, a + b, p0, rest, p2, alive, wsId)
  {
    forall tail | Follows(rest, tail, p2, alive, wsId) ensures Follows(cands, a + b + tail, p0, alive, wsId) {
      assert a + b + tail == a + (b + tail);
      assert Follows(mid, b + tail, p1, alive, wsId);
    }
  }
}
