/**
 The two maps between panes and terminal sessions, kept in step by five handlers:
 connect, disconnect (and kill), process exit, and the sweep after a layout change.
 */
module SessionMaps {
  datatype State = State(
    paneToSession: map<string, string>,
    sessionToPane: map<string, string>,
    terms: set<string>,   // panes with a terminal instance
    issued: set<string>)  // session ids the backend has handed out

  const INITIAL: State := State(map[], map[], {}, {})

  datatype Event =
    | TermEnsured(paneId: string)
    | Connected(paneId: string, sessionId: string)
    | Detached(paneId: string)            // disconnect or kill
    | Exited(sessionId: string)
    | LayoutChanged(live: set<string>)

  /** Forgets the session of one pane, as disconnect, kill and the sweep do. */
  function Forget(s: State, paneId: string): State {
    if paneId in s.paneToSession && s.paneToSession[paneId] != "" then
      s.(paneToSession := s.paneToSession - {paneId},
         sessionToPane := s.sessionToPane - {s.paneToSession[paneId]})
    else s
  }

  function SessionsOf(s: State, panes: set<string>): set<string> {
    set p | p in panes && p in s.paneToSession && s.paneToSession[p] != "" :: s.paneToSession[p]
  }

  /** Forgets a set of panes together with their terminals. */
  function Drop(s: State, dead: set<string>): State {
    s.(paneToSession := map p | p in s.paneToSession && !(p in dead && s.paneToSession[p] != "") :: s.paneToSession[p],
       sessionToPane := s.sessionToPane - SessionsOf(s, dead),
       terms := s.terms - dead)
  }

  /** The sweep drops the panes with a terminal that no layout holds any more. */
  function Swept(s: State, live: set<string>): State {
    Drop(s, s.terms - live)
  }

  function Next(s: State, e: Event): State {
    match e
    case TermEnsured(p) => s.(terms := s.terms + {p})
    case Connected(p, sid) =>
      s.(paneToSession := s.paneToSession[p := sid],
         sessionToPane := s.sessionToPane[sid := p],
         issued := s.issued + {sid})
    case Detached(p) => Forget(s, p)
    case Exited(sid) =>
      if sid !in s.sessionToPane || s.sessionToPane[sid] == "" then s
      else s.(paneToSession := s.paneToSession - {s.sessionToPane[sid]}, sessionToPane := s.sessionToPane - {sid})
    case LayoutChanged(live) => Swept(s, live)
  }

  function After(s: State, events: seq<Event>): State
    decreases |events|
  {
    if events == [] then s else After(Next(s, events[0]), events[1..])
  }

  // ---------- What every run keeps ----------

  /** Ids are never empty, and the backend never hands out a session id twice. */
  ghost predicate Honest(s: State, e: Event) {
    e.Connected? ==> e.paneId != "" && e.sessionId != "" && e.sessionId !in s.issued
  }

  ghost predicate HonestRun(s: State, events: seq<Event>)
    decreases |events|
  {
    events != [] ==> Honest(s, events[0]) && HonestRun(Next(s, events[0]), events[1..])
  }

  /** Every connected pane is mapped back to itself. */
  ghost predicate PanesMapBack(s: State) {
    && (forall p :: p in s.paneToSession ==>
          && s.paneToSession[p] != "" && s.paneToSession[p] in s.sessionToPane
          && s.sessionToPane[s.paneToSession[p]] == p)
    && (forall sid :: sid in s.sessionToPane ==> sid in s.issued && s.sessionToPane[sid] != "")
  }

  lemma NextKeeps(s: State, e: Event)
    requires PanesMapBack(s) && Honest(s, e)
    ensures PanesMapBack(Next(s, e))
  {
  }

  lemma {:induction false} AfterKeeps(s: State, events: seq<Event>)
    requires PanesMapBack(s) && HonestRun(s, events)
    ensures PanesMapBack(After(s, events))
    decreases |events|
  {
    if events != [] {
      NextKeeps(s, events[0]);
      AfterKeeps(Next(s, events[0]), events[1..]);
    }
  }

  /** On every run, each pane is mapped back to itself, so no two panes share a session. */
  lemma NoSharedSession(events: seq<Event>, p: string, q: string)
    requires HonestRun(INITIAL, events)
    ensures var s := After(INITIAL, events);
            && (p in s.paneToSession ==>
                  s.paneToSession[p] in s.sessionToPane && s.sessionToPane[s.paneToSession[p]] == p)
            && (p in s.paneToSession && q in s.paneToSession && s.paneToSession[p] == s.paneToSession[q] ==> p == q)
  {
    AfterKeeps(INITIAL, events);
  }

  // ---------- What a step leaves alone ----------

  /** The step is about this pane's session. */
  ghost predicate Touches(s: State, e: Event, p: string) {
    match e
    case TermEnsured(_) => false
    case Connected(q, _) => q == p
    case Detached(q) => q == p
    case Exited(sid) => sid in s.sessionToPane && s.sessionToPane[sid] == p
    case LayoutChanged(live) => p in s.terms && p !in live
  }

  /** A step puts a pane on a session or takes it off only if it is about that pane. */
  lemma StepLeavesOtherPanes(s: State, e: Event, p: string)
    requires PanesMapBack(s) && Honest(s, e)
    ensures var r := Next(s, e);
            if !Touches(s, e, p) then
              (p in r.paneToSession <==> p in s.paneToSession)
              && (p in s.paneToSession ==> r.paneToSession[p] == s.paneToSession[p])
            else if e.Connected? then p in r.paneToSession && r.paneToSession[p] == e.sessionId
            else p !in r.paneToSession
  {
  }

  /** A session is unmapped by its own exit, or with the pane that is on it. */
  ghost predicate Unmaps(s: State, e: Event, sid: string) {
    e == Exited(sid)
    || (!e.Exited? && !e.Connected?
        && exists p :: p in s.paneToSession && s.paneToSession[p] == sid && Touches(s, e, p))
  }

  lemma StepLeavesOtherSessions(s: State, e: Event, sid: string)
    requires PanesMapBack(s) && Honest(s, e)
    ensures var r := Next(s, e);
            && (sid in r.sessionToPane <==>
                (sid in s.sessionToPane && !Unmaps(s, e, sid)) || (e.Connected? && e.sessionId == sid))
            && (sid in r.sessionToPane ==>
                  r.sessionToPane[sid] ==
                    if e.Connected? && e.sessionId == sid then e.paneId else s.sessionToPane[sid])
  {
  }

  /** The terminal was made at position `i` and no later sweep found its pane gone. */
  ghost predicate MadeAndKept(events: seq<Event>, p: string, i: nat) {
    && i < |events| && events[i] == TermEnsured(p)
    && forall j :: i < j < |events| && events[j].LayoutChanged? ==> p in events[j].live
  }

  /** Over every run: a pane has a terminal exactly when one was made and no sweep has found the pane gone since. */
  lemma {:induction false} TermsLastUntilSwept(events: seq<Event>, p: string)
    ensures p in After(INITIAL, events).terms <==> exists i: nat :: MadeAndKept(events, p, i)
  {
    if events != [] {
      var init, last := events[..|events| - 1], events[|events| - 1];
      TermsLastUntilSwept(init, p);
      AfterLast(INITIAL, events);
      if p in After(INITIAL, events).terms {
        if last == TermEnsured(p) {
          assert MadeAndKept(events, p, |events| - 1);
        } else {
          var i: nat :| MadeAndKept(init, p, i);
          assert MadeAndKept(events, p, i);
        }
      }
      if i: nat :| MadeAndKept(events, p, i) {
        assert i < |events| - 1 ==> MadeAndKept(init, p, i);
      }
    }
  }

  lemma {:induction false} AfterLast(s: State, events: seq<Event>)
    requires events != []
    ensures After(s, events) == Next(After(s, events[..|events| - 1]), events[|events| - 1])
    decreases |events|
  {
    if |events| == 1 {
      assert events[1..] == [] && After(Next(s, events[0]), []) == Next(s, events[0]);
    } else {
      var init := events[..|events| - 1];
      AfterLast(Next(s, events[0]), events[1..]);
      assert init[1..] == events[1..][..|events| - 2];
    }
  }

  // ---------- When the maps are inverses ----------

  /** Every mapped session is the one its pane is on. */
  ghost predicate SessionsMapBack(s: State) {
    forall sid :: sid in s.sessionToPane ==>
      s.sessionToPane[sid] in s.paneToSession && s.paneToSession[s.sessionToPane[sid]] == sid
  }

  ghost predicate ConnectsLivePane(s: State, e: Event) {
    e.Connected? && e.paneId in s.paneToSession
  }

  /** A step breaks the inverse exactly when it connects a pane that is already live. */
  lemma InverseBreaksIff(s: State, e: Event)
    requires PanesMapBack(s) && SessionsMapBack(s) && Honest(s, e)
    ensures SessionsMapBack(Next(s, e)) <==> !ConnectsLivePane(s, e)
  {
    var r := Next(s, e);
    match e
    case Connected(p, sid) =>
      if p in s.paneToSession {
        var stale := s.paneToSession[p];
        assert stale in r.sessionToPane && r.sessionToPane[stale] == p && r.paneToSession[p] == sid != stale;
      }
    case _ =>
  }

  ghost predicate NeverConnectsLivePane(s: State, events: seq<Event>)
    decreases |events|
  {
    events != [] ==> !ConnectsLivePane(s, events[0]) && NeverConnectsLivePane(Next(s, events[0]), events[1..])
  }

  ghost predicate AlwaysInverse(s: State, events: seq<Event>)
    decreases |events|
  {
    SessionsMapBack(s) && (events != [] ==> AlwaysInverse(Next(s, events[0]), events[1..]))
  }

  /** The maps are mutual inverses all along a run exactly when connects land only on panes that are not live. */
  lemma {:induction false} AlwaysInverseIff(s: State, events: seq<Event>)
    requires PanesMapBack(s) && SessionsMapBack(s) && HonestRun(s, events)
    ensures AlwaysInverse(s, events) <==> NeverConnectsLivePane(s, events)
    decreases |events|
  {
    if events != [] {
      var r := Next(s, events[0]);
      NextKeeps(s, events[0]);
      InverseBreaksIff(s, events[0]);
      if SessionsMapBack(r) {
        AlwaysInverseIff(r, events[1..]);
      } else {
        assert !AlwaysInverse(r, events[1..]);
      }
    }
  }

  // ---------- A late exit ----------

  /** The exit of a session disconnects a pane from another session exactly when the session is one it left behind. */
  lemma ExitHitsAnotherSessionIff(s: State, sid: string, p: string)
    requires PanesMapBack(s) && p in s.paneToSession && s.paneToSession[p] != sid
    ensures p !in Next(s, Exited(sid)).paneToSession <==> sid in s.sessionToPane && s.sessionToPane[sid] == p
  {
  }

  /** The session is mapped to the pane, but the pane is not on it. */
  ghost predicate Stale(s: State, sid: string, p: string) {
    sid in s.sessionToPane && s.sessionToPane[sid] == p && !(p in s.paneToSession && s.paneToSession[p] == sid)
  }

  /**
   The step takes the pane off the session without unmapping it: a new connect, or the
   exit of another session of the pane.
   */
  ghost predicate Abandons(s: State, e: Event, sid: string, p: string) {
    && p in s.paneToSession && s.paneToSession[p] == sid
    && match e
       case Connected(q, _) => q == p
       case Exited(other) => other != sid && other in s.sessionToPane && s.sessionToPane[other] == p
       case _ => false
  }

  /** In the course of the run the pane abandons the session, which has not exited since. */
  ghost predicate LeftBehind(s: State, events: seq<Event>, sid: string, p: string)
    decreases |events|
  {
    events != [] && ((Abandons(s, events[0], sid, p) && Exited(sid) !in events[1..])
                     || LeftBehind(Next(s, events[0]), events[1..], sid, p))
  }

  lemma StaleStep(s: State, e: Event, sid: string, p: string)
    requires PanesMapBack(s) && Honest(s, e)
    ensures Stale(Next(s, e), sid, p) <==> (Stale(s, sid, p) && e != Exited(sid)) || Abandons(s, e, sid, p)
  {
  }

  lemma {:induction false} StaleAfter(s: State, events: seq<Event>, sid: string, p: string)
    requires PanesMapBack(s) && HonestRun(s, events)
    ensures Stale(After(s, events), sid, p)
            <==> (Stale(s, sid, p) && Exited(sid) !in events) || LeftBehind(s, events, sid, p)
    decreases |events|
  {
    if events != [] {
      NextKeeps(s, events[0]);
      StaleStep(s, events[0], sid, p);
      StaleAfter(Next(s, events[0]), events[1..], sid, p);
      assert forall e :: e in events <==> e == events[0] || e in events[1..];
    }
  }

  /**
   After any run, the exit of a session disconnects a pane that is on another session
   exactly when the pane abandoned the exiting one earlier in the run.
   */
  lemma ExitDropsLivePaneIff(events: seq<Event>, sid: string, p: string)
    requires HonestRun(INITIAL, events)
    requires var s := After(INITIAL, events); p in s.paneToSession && s.paneToSession[p] != sid
    ensures p !in Next(After(INITIAL, events), Exited(sid)).paneToSession <==> LeftBehind(INITIAL, events, sid, p)
  {
    AfterKeeps(INITIAL, events);
    StaleAfter(INITIAL, events, sid, p);
    ExitHitsAnotherSessionIff(After(INITIAL, events), sid, p);
  }

  /** Reconnecting a live pane and then hearing of the old session's exit leaves the new session without its pane. */
  lemma LateExitDropsLivePane()
    ensures var events := [Connected("p", "old"), Connected("p", "new"), Exited("old")];
            var s := After(INITIAL, events);
            && HonestRun(INITIAL, events)
            && "p" !in s.paneToSession
            && "new" in s.sessionToPane && s.sessionToPane["new"] == "p"
  {
    var s1 := Next(INITIAL, Connected("p", "old"));
    var s2 := Next(s1, Connected("p", "new"));
    var s3 := Next(s2, Exited("old"));
    var events := [Connected("p", "old"), Connected("p", "new"), Exited("old")];
    assert events[1..] == [Connected("p", "new"), Exited("old")];
    assert events[1..][1..] == [Exited("old")];
    assert events[1..][1..][1..] == [];
    assert After(s2, events[1..][1..]) == After(s3, []) == s3;
    assert HonestRun(s2, events[1..][1..]);
  }

  // ---------- A connect undone ----------

  /** The event leaves the pane and the session alone, and the pane stays in the layouts. */
  ghost predicate LeavesAlone(e: Event, p: string, sid: string) {
    match e
    case TermEnsured(_) => true
    case Connected(q, other) => q != p && other != sid
    case Detached(q) => q != p
    case Exited(other) => other != sid
    case LayoutChanged(live) => p in live
  }

  /** The two states differ just by the pane being on the session. */
  ghost predicate DiffersByVisit(with: State, without: State, p: string, sid: string) {
    && p !in without.paneToSession && sid !in without.sessionToPane
    && (forall x :: x in without.sessionToPane ==> without.sessionToPane[x] != p)
    && (forall q :: q in without.paneToSession ==> without.paneToSession[q] != sid)
    && with.paneToSession == without.paneToSession[p := sid]
    && with.sessionToPane == without.sessionToPane[sid := p]
    && with.terms == without.terms
  }

  lemma VisitSweep(with: State, without: State, dead: set<string>, p: string, sid: string)
    requires DiffersByVisit(with, without, p, sid) && p !in dead
    ensures DiffersByVisit(Drop(with, dead), Drop(without, dead), p, sid)
  {
    var a, b := Drop(with, dead), Drop(without, dead);
    assert SessionsOf(with, dead) == SessionsOf(without, dead);
    assert a.paneToSession == b.paneToSession[p := sid];
    assert a.sessionToPane == b.sessionToPane[sid := p];
  }

  lemma VisitForget(with: State, without: State, q: string, p: string, sid: string)
    requires DiffersByVisit(with, without, p, sid) && q != p
    ensures DiffersByVisit(Forget(with, q), Forget(without, q), p, sid)
  {
    assert Forget(with, q).paneToSession == Forget(without, q).paneToSession[p := sid];
    assert Forget(with, q).sessionToPane == Forget(without, q).sessionToPane[sid := p];
  }

  lemma VisitConnect(with: State, without: State, q: string, other: string, p: string, sid: string)
    requires DiffersByVisit(with, without, p, sid) && q != p && other != sid
    ensures DiffersByVisit(Next(with, Connected(q, other)), Next(without, Connected(q, other)), p, sid)
  {
    assert with.paneToSession[q := other] == without.paneToSession[q := other][p := sid];
    assert with.sessionToPane[other := q] == without.sessionToPane[other := q][sid := p];
  }

  lemma VisitExit(with: State, without: State, other: string, p: string, sid: string)
    requires DiffersByVisit(with, without, p, sid) && other != sid
    ensures DiffersByVisit(Next(with, Exited(other)), Next(without, Exited(other)), p, sid)
  {
    if other in without.sessionToPane {
      var q := without.sessionToPane[other];
      assert with.paneToSession - {q} == (without.paneToSession - {q})[p := sid];
      assert with.sessionToPane - {other} == (without.sessionToPane - {other})[sid := p];
    }
  }

  lemma VisitStep(with: State, without: State, e: Event, p: string, sid: string)
    requires DiffersByVisit(with, without, p, sid) && LeavesAlone(e, p, sid)
    ensures DiffersByVisit(Next(with, e), Next(without, e), p, sid)
  {
    match e
    case TermEnsured(_) =>
    case Connected(q, other) => VisitConnect(with, without, q, other, p, sid);
    case Detached(q) => VisitForget(with, without, q, p, sid);
    case Exited(other) => VisitExit(with, without, other, p, sid);
    case LayoutChanged(live) => VisitSweep(with, without, with.terms - live, p, sid);
  }

  lemma {:induction false} VisitAfter(with: State, without: State, events: seq<Event>, p: string, sid: string)
    requires DiffersByVisit(with, without, p, sid) && forall e :: e in events ==> LeavesAlone(e, p, sid)
    ensures DiffersByVisit(After(with, events), After(without, events), p, sid)
    decreases |events|
  {
    if events != [] {
      assert events[0] in events;
      VisitStep(with, without, events[0], p, sid);
      VisitAfter(Next(with, events[0]), Next(without, events[0]), events[1..], p, sid);
    }
  }

  /**
   A connect leaves no trace once it is undone: whatever happens to other panes in
   between, the maps are in the end as if the pane had never been connected, whether it
   is disconnected or its session exits.
   */
  lemma VisitLeavesNoTrace(s: State, events: seq<Event>, p: string, sid: string)
    requires PanesMapBack(s) && SessionsMapBack(s) && Honest(s, Connected(p, sid)) && p !in s.paneToSession
    requires forall e :: e in events ==> LeavesAlone(e, p, sid)
    ensures var without, with := After(s, events), After(Next(s, Connected(p, sid)), events);
            && Next(with, Detached(p)).paneToSession == Next(with, Exited(sid)).paneToSession == without.paneToSession
            && Next(with, Detached(p)).sessionToPane == Next(with, Exited(sid)).sessionToPane == without.sessionToPane
  {
    assert DiffersByVisit(Next(s, Connected(p, sid)), s, p, sid);
    VisitAfter(Next(s, Connected(p, sid)), s, events, p, sid);
  }

  // ---------- Panes that are gone ----------

  ghost predicate SessionsHaveTerms(s: State) {
    s.paneToSession.Keys <= s.terms
  }

  /** Every connected pane has a terminal, unless a connect completes after its pane was swept away. */
  lemma TermsKeptIff(s: State, e: Event)
    requires PanesMapBack(s) && SessionsHaveTerms(s) && Honest(s, e)
    ensures SessionsHaveTerms(Next(s, e)) <==> !(e.Connected? && e.paneId !in s.terms)
  {
    if e.Connected? {
      assert e.paneId in Next(s, e).paneToSession.Keys;
    }
  }

  /** While that holds, no pane outside the layouts keeps a session past a sweep. */
  lemma SweepClearsClosedPanes(s: State, live: set<string>)
    requires PanesMapBack(s) && SessionsHaveTerms(s)
    ensures Swept(s, live).paneToSession.Keys == s.paneToSession.Keys * live
  {
  }

  ghost predicate ConnectsWithoutTerm(s: State, e: Event) {
    e.Connected? && e.paneId !in s.terms
  }

  ghost predicate NeverConnectsWithoutTerm(s: State, events: seq<Event>)
    decreases |events|
  {
    events != [] ==> !ConnectsWithoutTerm(s, events[0]) && NeverConnectsWithoutTerm(Next(s, events[0]), events[1..])
  }

  ghost predicate AlwaysHasTerms(s: State, events: seq<Event>)
    decreases |events|
  {
    SessionsHaveTerms(s) && (events != [] ==> AlwaysHasTerms(Next(s, events[0]), events[1..]))
  }

  /** Every connected pane has a terminal all along a run exactly when no connect completes for a pane that has none. */
  lemma {:induction false} AlwaysHasTermsIff(s: State, events: seq<Event>)
    requires PanesMapBack(s) && SessionsHaveTerms(s) && HonestRun(s, events)
    ensures AlwaysHasTerms(s, events) <==> NeverConnectsWithoutTerm(s, events)
    decreases |events|
  {
    if events != [] {
      var r := Next(s, events[0]);
      NextKeeps(s, events[0]);
      TermsKeptIff(s, events[0]);
      if SessionsHaveTerms(r) {
        AlwaysHasTermsIff(r, events[1..]);
      } else {
        assert !AlwaysHasTerms(r, events[1..]);
      }
    }
  }

  /** The panes still connected after a run and a layout change. */
  ghost function KeptBySweep(events: seq<Event>, live: set<string>): set<string> {
    Next(After(INITIAL, events), LayoutChanged(live)).paneToSession.Keys
  }

  /**
   After any run, every layout change leaves connected just the panes that a layout holds
   exactly when all connected panes have terminals.
   */
  lemma SweepIsCompleteIff(events: seq<Event>)
    requires HonestRun(INITIAL, events)
    ensures (forall live :: KeptBySweep(events, live) == After(INITIAL, events).paneToSession.Keys * live)
            <==> SessionsHaveTerms(After(INITIAL, events))
  {
    var s := After(INITIAL, events);
    AfterKeeps(INITIAL, events);
    if SessionsHaveTerms(s) {
      forall live ensures KeptBySweep(events, live) == s.paneToSession.Keys * live {
        SweepClearsClosedPanes(s, live);
      }
    } else {
      var p :| p in s.paneToSession && p !in s.terms;
      assert p in KeptBySweep(events, {});
      assert KeptBySweep(events, {}) != s.paneToSession.Keys * {};
    }
  }

  /** A connect that completes after its pane was swept away: the pane stays connected through every later sweep. */
  lemma LateConnectSurvivesSweep(p: string, sid: string)
    requires p != "" && sid != ""
    ensures var events := [TermEnsured(p), LayoutChanged({}), Connected(p, sid)];
            && HonestRun(INITIAL, events)
            && After(INITIAL, events).paneToSession == map[p := sid] && After(INITIAL, events).terms == {}
            && KeptBySweep(events, {}) == {p}
  {
    var events := [TermEnsured(p), LayoutChanged({}), Connected(p, sid)];
    var s1 := Next(INITIAL, TermEnsured(p));
    var s2 := Next(s1, LayoutChanged({}));
    var s3 := Next(s2, Connected(p, sid));
    assert s2 == INITIAL;
    assert events[1..] == [LayoutChanged({}), Connected(p, sid)];
    assert events[1..][1..] == [Connected(p, sid)];
    assert events[1..][1..][1..] == [];
    assert After(s2, events[1..][1..]) == After(s3, []) == s3;
    assert HonestRun(s2, events[1..][1..]);
    assert After(INITIAL, events) == s3;
    assert Next(s3, LayoutChanged({})).paneToSession == map[p := sid];
  }

  // ---------- The handlers ----------

  lemma DropOneMore(s: State, dead: set<string>, p: string)
    requires p !in dead
    ensures var d := Drop(s, dead);
            Drop(s, dead + {p}) == Forget(d, p).(terms := d.terms - {p})
  {
    var d, r := Drop(s, dead), Drop(s, dead + {p});
    assert r.terms == d.terms - {p};
    assert r.paneToSession == Forget(d, p).paneToSession;
    assert r.sessionToPane == Forget(d, p).sessionToPane;
  }

  class Registry {
    var paneToSession: map<string, string>
    var sessionToPane: map<string, string>
    var terms: set<string>
    ghost var issued: set<string>

    ghost function View(): State
      reads this
    {
      State(paneToSession, sessionToPane, terms, issued)
    }

    constructor ()
      ensures View() == INITIAL
    {
      paneToSession, sessionToPane, terms, issued := map[], map[], {}, {};
    }

    method EnsureTerm(paneId: string)
      modifies this
      ensures View() == Next(old(View()), TermEnsured(paneId))
    {
      terms := terms + {paneId};
    }

    /** The connect has come back with a session id. */
    method OnConnected(paneId: string, sessionId: string)
      modifies this
      ensures View() == Next(old(View()), Connected(paneId, sessionId))
    {
      paneToSession := paneToSession[paneId := sessionId];
      sessionToPane := sessionToPane[sessionId := paneId];
      issued := issued + {sessionId};
    }

    method DisconnectPane(paneId: string)
      modifies this
      ensures View() == Next(old(View()), Detached(paneId))
    {
      if paneId in paneToSession && paneToSession[paneId] != "" {
        sessionToPane := sessionToPane - {paneToSession[paneId]};
        paneToSession := paneToSession - {paneId};
      }
    }

    method OnExit(sessionId: string)
      modifies this
      ensures View() == Next(old(View()), Exited(sessionId))
    {
      if sessionId !in sessionToPane || sessionToPane[sessionId] == "" {
        return;
      }
      var paneId := sessionToPane[sessionId];
      sessionToPane := sessionToPane - {sessionId};
      paneToSession := paneToSession - {paneId};
    }

    /** Visits the terminals one by one and drops those whose pane no layout holds. */
    method ReconcilePanes(live: set<string>)
      modifies this
      ensures View() == Next(old(View()), LayoutChanged(live))
    {
      ghost var start, dead := View(), {};
      var pending := terms;
      while pending != {}
        invariant pending <= start.terms && dead == (start.terms - pending) - live
        invariant View() == Drop(start, dead)
        decreases pending
      {
        var paneId :| paneId in pending;
        pending := pending - {paneId};
        if paneId !in live {
          DropOneMore(start, dead, paneId);
          dead := dead + {paneId};
          DisconnectPane(paneId);
          terms := terms - {paneId};
        }
      }
    }
  }
}
