/**
 The tabs of the workspace browser. The port and path editors mirror the active tab:
 an effect copies every edit into it and stores the tabs of the workspace, and a
 change of workspace loads the tabs stored for the new one.
 */
module BrowserTabs {
  import opened Options

  /** Tab and workspace ids are never empty. */
  type Id = s: string | s != "" witness "id"

  datatype Tab = Tab(id: Id, port: Option<int>, path: string)

  /** What local storage holds per workspace; `ports` and `paths` are from before there were tabs. */
  datatype Storage = Storage(tabs: map<Id, seq<Tab>>, active: map<Id, Id>, ports: map<Id, int>, paths: map<Id, string>)

  datatype State = State(storage: Storage, workspace: Option<Id>, lastWorkspace: Option<Id>,
                         tabs: seq<Tab>, active: Option<Id>, port: Option<int>, path: string)

  function Initial(storage: Storage): State {
    State(storage, None, None, [], None, None, "")
  }

  // ---------- Lists of tabs ----------

  function FindTab(tabs: seq<Tab>, id: Id): (t: Option<Tab>)
    ensures t.Some? ==> t.value.id == id
  {
    if tabs == [] then None else if tabs[0].id == id then Some(tabs[0]) else FindTab(tabs[1..], id)
  }

  function IndexOf(tabs: seq<Tab>, id: Id): (i: nat)
    ensures i <= |tabs|
    ensures FindTab(tabs, id).Some? <==> i < |tabs|
    ensures i < |tabs| ==> tabs[i].id == id && FindTab(tabs, id) == Some(tabs[i])
    ensures forall k :: 0 <= k < i ==> tabs[k].id != id
  {
    if tabs == [] then 0 else if tabs[0].id == id then 0 else 1 + IndexOf(tabs[1..], id)
  }

  function Without(tabs: seq<Tab>, id: Id): seq<Tab> {
    if tabs == [] then []
    else if tabs[0].id == id then Without(tabs[1..], id)
    else [tabs[0]] + Without(tabs[1..], id)
  }

  function Edited(tabs: seq<Tab>, id: Id, port: Option<int>, path: string): (r: seq<Tab>)
    ensures |r| == |tabs|
    ensures forall k :: 0 <= k < |tabs| ==> r[k] == if tabs[k].id == id then Tab(id, port, path) else tabs[k]
  {
    if tabs == [] then []
    else
      [if tabs[0].id == id then tabs[0].(port := port, path := path) else tabs[0]] + Edited(tabs[1..], id, port, path)
  }

  ghost predicate DistinctIds(tabs: seq<Tab>) {
    forall j, k :: 0 <= j < k < |tabs| ==> tabs[j].id != tabs[k].id
  }

  lemma {:induction false} WithoutMembers(tabs: seq<Tab>, id: Id)
    ensures forall t :: t in Without(tabs, id) <==> t in tabs && t.id != id
    ensures DistinctIds(tabs) ==> DistinctIds(Without(tabs, id))
  {
    if tabs != [] {
      WithoutMembers(tabs[1..], id);
      if DistinctIds(tabs) {
        forall t | t in Without(tabs[1..], id) ensures t.id != tabs[0].id {
          var k :| 0 <= k < |tabs[1..]| && tabs[1..][k] == t;
          assert tabs[k + 1] == t;
        }
      }
    }
  }

  lemma {:induction false} WithoutOneOfDistinct(tabs: seq<Tab>, id: Id)
    requires DistinctIds(tabs) && FindTab(tabs, id).Some?
    ensures var i := IndexOf(tabs, id); Without(tabs, id) == tabs[..i] + tabs[i + 1..]
  {
    if tabs[0].id == id {
      WithoutAbsent(tabs[1..], id);
    } else {
      WithoutOneOfDistinct(tabs[1..], id);
    }
  }

  lemma {:induction false} WithoutAbsent(tabs: seq<Tab>, id: Id)
    requires forall k :: 0 <= k < |tabs| ==> tabs[k].id != id
    ensures Without(tabs, id) == tabs
  {
    if tabs != [] {
      WithoutAbsent(tabs[1..], id);
    }
  }

  lemma EditedSame(tabs: seq<Tab>, id: Id, port: Option<int>, path: string)
    requires DistinctIds(tabs) && FindTab(tabs, id) == Some(Tab(id, port, path))
    ensures Edited(tabs, id, port, path) == tabs
  {
    var i := IndexOf(tabs, id);
    assert forall k :: 0 <= k < |tabs| && tabs[k].id == id ==> k == i;
  }

  lemma {:induction false} FindEdited(tabs: seq<Tab>, id: Id, port: Option<int>, path: string, other: Id)
    ensures FindTab(Edited(tabs, id, port, path), other) ==
            if other == id && FindTab(tabs, id).Some? then Some(Tab(id, port, path)) else FindTab(tabs, other)
  {
    if tabs != [] {
      assert Edited(tabs, id, port, path)[1..] == Edited(tabs[1..], id, port, path);
      FindEdited(tabs[1..], id, port, path, other);
    }
  }

  // ---------- The steps ----------

  function Save(storage: Storage, workspace: Id, tabs: seq<Tab>, active: Id): Storage {
    storage.(tabs := storage.tabs[workspace := tabs], active := storage.active[workspace := active])
  }

  /** The stored tabs of a workspace and which is active; without any, one tab from the older keys. */
  function Loaded(storage: Storage, workspace: Id, freshId: Id): (seq<Tab>, Id) {
    if workspace in storage.tabs && storage.tabs[workspace] != [] then
      var tabs := storage.tabs[workspace];
      (tabs, if workspace in storage.active && FindTab(tabs, storage.active[workspace]).Some?
             then storage.active[workspace] else tabs[0].id)
    else
      var known := workspace in storage.ports && storage.ports[workspace] > 0;
      var port := if known then Some(storage.ports[workspace]) else None;
      ([Tab(freshId, port, if workspace in storage.paths then storage.paths[workspace] else "")], freshId)
  }

  /** The effect that copies the editors into the active tab. */
  function Mirror(s: State): State {
    if s.active.None? || s.workspace.None? then s
    else
      var next := Edited(s.tabs, s.active.value, s.port, s.path);
      if next == s.tabs then s
      else s.(tabs := next, storage := Save(s.storage, s.workspace.value, next, s.active.value))
  }

  function Switch(s: State, id: Id): State {
    var tab := FindTab(s.tabs, id);
    if tab.None? then s
    else
      s.(active := Some(id), port := tab.value.port, path := tab.value.path,
         storage := if s.workspace.Some? then Save(s.storage, s.workspace.value, s.tabs, id) else s.storage)
  }

  /** A new tab inherits the port. */
  function New(s: State, freshId: Id): State {
    if s.workspace.None? then s
    else
      var next := s.tabs + [Tab(freshId, s.port, "")];
      Switch(s.(tabs := next, storage := Save(s.storage, s.workspace.value, next, freshId)), freshId)
  }

  /** Closes a tab unless it is the last; closing the active one activates the tab before it. */
  function Close(s: State, id: Id): State {
    var idx := IndexOf(s.tabs, id);
    if |s.tabs| <= 1 || idx == |s.tabs| then s
    else
      var next := Without(s.tabs, id);
      var s1 := s.(tabs := next);
      if s.active == Some(id) then
        if next == [] then s1
        else
          var at := if idx > 0 then idx - 1 else 0;
          var neighbor := if at < |next| then next[at] else next[0];
          var saved := if s.workspace.Some? then Save(s.storage, s.workspace.value, next, neighbor.id) else s.storage;
          Switch(s1.(storage := saved), neighbor.id)
      else if s.workspace.Some? && s.active.Some? then
        s1.(storage := Save(s.storage, s.workspace.value, next, s.active.value))
      else s1
  }

  /** The effect that loads the tabs of a workspace when it becomes another one. */
  function Load(s: State, freshId: Id): State {
    if s.workspace.None? || s.workspace == s.lastWorkspace then s
    else
      var w := s.workspace.value;
      var (tabs, id) := Loaded(s.storage, w, freshId);
      var found := FindTab(tabs, id);
      var active := if found.Some? then found.value else tabs[0];
      State(Save(s.storage, w, tabs, active.id), s.workspace, s.workspace, tabs, Some(active.id),
            active.port, active.path)
  }

  datatype Event =
    | EditPort(port: Option<int>)
    | EditPath(path: string)
    | SwitchTo(id: Id)
    | NewTab(freshId: Id)
    | CloseTab(id: Id)
    | ShowWorkspace(workspace: Option<Id>, freshId: Id)

  function Next(s: State, e: Event): State {
    match e
    case EditPort(port) => Mirror(s.(port := port))
    case EditPath(path) => Mirror(s.(path := path))
    case SwitchTo(id) => Switch(s, id)
    case NewTab(freshId) => New(s, freshId)
    case CloseTab(id) => Close(s, id)
    case ShowWorkspace(workspace, freshId) => Mirror(Load(s.(workspace := workspace), freshId))
  }

  function After(s: State, events: seq<Event>): State
    decreases |events|
  {
    if events == [] then s else After(Next(s, events[0]), events[1..])
  }

  // ---------- The invariant ----------

  ghost predicate SoundStorage(storage: Storage) {
    forall w :: w in storage.tabs ==> DistinctIds(storage.tabs[w])
  }

  /** The editors show the port and the path of the active tab. */
  ghost predicate Mirrored(s: State) {
    s.active.Some? && FindTab(s.tabs, s.active.value) == Some(Tab(s.active.value, s.port, s.path))
  }

  ghost predicate Valid(s: State) {
    && SoundStorage(s.storage)
    && (s.workspace.Some? ==> s.workspace == s.lastWorkspace)
    && (s.lastWorkspace.None? ==> s.tabs == [] && s.active.None?)
    && (s.lastWorkspace.Some? ==>
          && s.tabs != [] && DistinctIds(s.tabs)
          && s.active.Some? && FindTab(s.tabs, s.active.value).Some?)
    && (s.workspace.Some? ==> Mirrored(s))
  }

  /** A new tab's id is not in use. */
  ghost predicate Fresh(s: State, e: Event) {
    e.NewTab? ==> FindTab(s.tabs, e.freshId).None?
  }

  lemma MirrorValid(s: State)
    requires SoundStorage(s.storage) && s.lastWorkspace.Some? && (s.workspace.Some? ==> s.workspace == s.lastWorkspace)
    requires s.tabs != [] && DistinctIds(s.tabs) && s.active.Some? && FindTab(s.tabs, s.active.value).Some?
    ensures Valid(Mirror(s))
    ensures Mirror(s).active == s.active && Mirror(s).port == s.port && Mirror(s).path == s.path
  {
    if s.workspace.Some? {
      FindEdited(s.tabs, s.active.value, s.port, s.path, s.active.value);
    }
  }

  lemma SwitchValid(s: State, id: Id)
    requires SoundStorage(s.storage) && (s.workspace.Some? ==> s.workspace == s.lastWorkspace) && s.lastWorkspace.Some?
    requires DistinctIds(s.tabs) && FindTab(s.tabs, id).Some?
    ensures Valid(Switch(s, id))
  {
  }

  lemma NewValid(s: State, freshId: Id)
    requires Valid(s) && FindTab(s.tabs, freshId).None?
    ensures Valid(New(s, freshId))
  {
    if s.workspace.Some? {
      var next := s.tabs + [Tab(freshId, s.port, "")];
      assert IndexOf(s.tabs, freshId) == |s.tabs|;
      assert next[|s.tabs|].id == freshId;
      FoundByIndex(next, |s.tabs|);
      SwitchValid(s.(tabs := next, storage := Save(s.storage, s.workspace.value, next, freshId)), freshId);
    }
  }

  /** The tab activated by closing the active one is among those that remain. */
  lemma NeighborRemains(tabs: seq<Tab>, id: Id)
    requires DistinctIds(tabs) && |tabs| > 1 && IndexOf(tabs, id) < |tabs|
    ensures var idx, next := IndexOf(tabs, id), Without(tabs, id);
            var at := if idx > 0 then idx - 1 else 0;
            at < |next| && FindTab(next, next[at].id).Some?
  {
    WithoutOneOfDistinct(tabs, id);
    var idx, next := IndexOf(tabs, id), Without(tabs, id);
    var at := if idx > 0 then idx - 1 else 0;
    FoundByIndex(next, at);
  }

  lemma {:induction false} FoundByIndex(tabs: seq<Tab>, k: nat)
    requires k < |tabs|
    ensures FindTab(tabs, tabs[k].id).Some?
  {
    if k > 0 && tabs[0].id != tabs[k].id {
      FoundByIndex(tabs[1..], k - 1);
    }
  }

  lemma CloseValid(s: State, id: Id)
    requires Valid(s)
    ensures Valid(Close(s, id))
  {
    var idx := IndexOf(s.tabs, id);
    if |s.tabs| > 1 && idx < |s.tabs| {
      WithoutMembers(s.tabs, id);
      if s.active == Some(id) {
        CloseActiveValid(s, id);
      } else {
        FindInWithout(s.tabs, id, s.active.value);
      }
    }
  }

  lemma CloseActiveValid(s: State, id: Id)
    requires Valid(s) && |s.tabs| > 1 && IndexOf(s.tabs, id) < |s.tabs| && s.active == Some(id)
    ensures Valid(Close(s, id))
  {
    var idx, next := IndexOf(s.tabs, id), Without(s.tabs, id);
    var at := if idx > 0 then idx - 1 else 0;
    NeighborRemains(s.tabs, id);
    WithoutMembers(s.tabs, id);
    var storage := if s.workspace.Some? then Save(s.storage, s.workspace.value, next, next[at].id) else s.storage;
    SwitchValid(s.(tabs := next, storage := storage), next[at].id);
  }

  lemma {:induction false} FindInWithout(tabs: seq<Tab>, id: Id, other: Id)
    ensures FindTab(Without(tabs, id), other) == if other == id then None else FindTab(tabs, other)
  {
    if tabs != [] {
      FindInWithout(tabs[1..], id, other);
    }
  }

  lemma LoadValid(s: State, freshId: Id)
    requires SoundStorage(s.storage) && s.workspace.Some? && s.workspace != s.lastWorkspace
    ensures Valid(Load(s, freshId))
  {
    var (tabs, id) := Loaded(s.storage, s.workspace.value, freshId);
    assert FindTab(tabs, id).Some?;
    assert IndexOf(tabs, id) < |tabs|;
  }

  lemma ShowValid(s: State, workspace: Option<Id>, freshId: Id)
    requires Valid(s)
    ensures Valid(Next(s, ShowWorkspace(workspace, freshId)))
  {
    var s1 := s.(workspace := workspace);
    if workspace.Some? {
      if workspace != s.lastWorkspace {
        LoadValid(s1, freshId);
      }
      MirrorValid(Load(s1, freshId));
    }
  }

  lemma NextValid(s: State, e: Event)
    requires Valid(s) && Fresh(s, e)
    ensures Valid(Next(s, e))
  {
    match e
    case EditPort(port) => if s.lastWorkspace.Some? { MirrorValid(s.(port := port)); }
    case EditPath(path) => if s.lastWorkspace.Some? { MirrorValid(s.(path := path)); }
    case SwitchTo(id) => if FindTab(s.tabs, id).Some? { SwitchValid(s, id); }
    case NewTab(freshId) => NewValid(s, freshId);
    case CloseTab(id) => CloseValid(s, id);
    case ShowWorkspace(workspace, freshId) => ShowValid(s, workspace, freshId);
  }

  ghost predicate FreshRun(s: State, events: seq<Event>)
    decreases |events|
  {
    events != [] ==> Fresh(s, events[0]) && FreshRun(Next(s, events[0]), events[1..])
  }

  lemma {:induction false} AfterValid(s: State, events: seq<Event>)
    requires Valid(s) && FreshRun(s, events)
    ensures Valid(After(s, events))
    decreases |events|
  {
    if events != [] {
      NextValid(s, events[0]);
      AfterValid(Next(s, events[0]), events[1..]);
    }
  }

  /**
   Over every run, once a workspace has been shown: at least one tab remains, tab ids
   are distinct, the active id is one of them, and while a workspace is shown the
   editors equal the active tab's port and path.
   */
  lemma TabsStaySound(storage: Storage, events: seq<Event>)
    requires SoundStorage(storage) && FreshRun(Initial(storage), events)
    ensures var s := After(Initial(storage), events);
            s.lastWorkspace.Some? ==>
              && s.tabs != [] && DistinctIds(s.tabs)
              && s.active.Some? && FindTab(s.tabs, s.active.value).Some?
              && (s.workspace.Some? ==> FindTab(s.tabs, s.active.value) == Some(Tab(s.active.value, s.port, s.path)))
  {
    AfterValid(Initial(storage), events);
  }

  lemma {:induction false} FindInAppended(tabs: seq<Tab>, tab: Tab, id: Id)
    requires id != tab.id || FindTab(tabs, id).Some?
    ensures FindTab(tabs + [tab], id) == FindTab(tabs, id)
  {
    if tabs != [] {
      assert (tabs + [tab])[1..] == tabs[1..] + [tab];
      if tabs[0].id != id {
        FindInAppended(tabs[1..], tab, id);
      }
    }
  }

  /** No tab's values ever reach another tab: a step that stays in the workspace changes at most the active tab. */
  lemma OtherTabsUntouched(s: State, e: Event, id: Id)
    requires Valid(s) && !e.ShowWorkspace? && Fresh(s, e)
    requires FindTab(s.tabs, id).Some? && s.active != Some(id) && e != CloseTab(id)
    ensures FindTab(Next(s, e).tabs, id) == FindTab(s.tabs, id)
    ensures e.SwitchTo? ==> Next(s, e).tabs == s.tabs
  {
    match e
    case EditPort(port) => if s.active.Some? { FindEdited(s.tabs, s.active.value, port, s.path, id); }
    case EditPath(path) => if s.active.Some? { FindEdited(s.tabs, s.active.value, s.port, path, id); }
    case SwitchTo(_) =>
    case NewTab(freshId) => FindInAppended(s.tabs, Tab(freshId, s.port, ""), id);
    case CloseTab(closed) => FindInWithout(s.tabs, closed, id);
  }

  /** What is stored for the workspace are the tabs of the state, and which is active. */
  ghost predicate StoredFor(s: State, w: Id) {
    && w in s.storage.tabs && s.storage.tabs[w] == s.tabs
    && w in s.storage.active && Some(s.storage.active[w]) == s.active
  }

  /** The active tab has that port and path, and all other tabs are as they were. */
  ghost predicate ActiveHolds(s: State, r: State, port: Option<int>, path: string)
    requires s.active.Some?
  {
    && FindTab(r.tabs, s.active.value) == Some(Tab(s.active.value, port, path))
    && |r.tabs| == |s.tabs|
    && forall k :: 0 <= k < |s.tabs| ==>
                     r.tabs[k].id == s.tabs[k].id && (Some(s.tabs[k].id) != s.active ==> r.tabs[k] == s.tabs[k])
  }

  lemma MirrorReachesTheTab(s: State, edited: State)
    requires Valid(s) && s.workspace.Some? && edited == s.(port := edited.port, path := edited.path)
    ensures var r := Mirror(edited);
            && ActiveHolds(s, r, edited.port, edited.path)
            && r == edited.(tabs := r.tabs, storage := r.storage)
            && (r.tabs != s.tabs || StoredFor(s, s.workspace.value) ==> StoredFor(r, s.workspace.value))
  {
    FindEdited(s.tabs, s.active.value, edited.port, edited.path, s.active.value);
  }

  /**
   An edit of the port reaches the active tab and what is stored for the workspace, and
   nothing else; while no workspace is shown it reaches the editor alone.
   */
  lemma EditedPortReachesTheTab(s: State, port: Option<int>)
    requires Valid(s)
    ensures var r := Next(s, EditPort(port));
            && r.port == port && r.path == s.path
            && r.active == s.active && r.workspace == s.workspace && r.lastWorkspace == s.lastWorkspace
            && if s.workspace.None? then r.tabs == s.tabs && r.storage == s.storage
               else
                 && ActiveHolds(s, r, port, s.path)
                 && (r.tabs != s.tabs || StoredFor(s, s.workspace.value) ==> StoredFor(r, s.workspace.value))
  {
    if s.workspace.Some? {
      MirrorReachesTheTab(s, s.(port := port));
    }
  }

  /** The same for an edit of the path. */
  lemma EditedPathReachesTheTab(s: State, path: string)
    requires Valid(s)
    ensures var r := Next(s, EditPath(path));
            && r.path == path && r.port == s.port
            && r.active == s.active && r.workspace == s.workspace && r.lastWorkspace == s.lastWorkspace
            && if s.workspace.None? then r.tabs == s.tabs && r.storage == s.storage
               else
                 && ActiveHolds(s, r, s.port, path)
                 && (r.tabs != s.tabs || StoredFor(s, s.workspace.value) ==> StoredFor(r, s.workspace.value))
  {
    if s.workspace.Some? {
      MirrorReachesTheTab(s, s.(path := path));
    }
  }

  /** Switching shows the tab's port and path and stores which tab is active; an unknown tab changes nothing. */
  lemma SwitchShowsTheTab(s: State, id: Id)
    requires Valid(s)
    ensures var r := Next(s, SwitchTo(id));
            if FindTab(s.tabs, id).None? then r == s
            else
              && r.active == Some(id) && FindTab(s.tabs, id) == Some(Tab(id, r.port, r.path)) && r.tabs == s.tabs
              && r.workspace == s.workspace && r.lastWorkspace == s.lastWorkspace
              && if s.workspace.Some? then StoredFor(r, s.workspace.value) else r.storage == s.storage
  {
    NextValid(s, SwitchTo(id));
  }

  /** What is stored for other workspaces than the one shown after the step, and from before there were tabs. */
  ghost predicate OthersKept(a: Storage, b: Storage, shown: Option<Id>) {
    && a.ports == b.ports && a.paths == b.paths
    && forall w: Id :: Some(w) != shown ==>
                         && (w in a.tabs <==> w in b.tabs) && (w in a.tabs ==> a.tabs[w] == b.tabs[w])
                         && (w in a.active <==> w in b.active) && (w in a.active ==> a.active[w] == b.active[w])
  }

  lemma OthersTransitive(a: Storage, b: Storage, c: Storage, shown: Option<Id>)
    requires OthersKept(a, b, shown) && OthersKept(b, c, shown)
    ensures OthersKept(a, c, shown)
  {
  }

  lemma SaveKeepsOthers(storage: Storage, w: Id, tabs: seq<Tab>, active: Id)
    ensures OthersKept(storage, Save(storage, w, tabs, active), Some(w))
  {
  }

  lemma SwitchKeepsOthers(s: State, id: Id)
    ensures OthersKept(s.storage, Switch(s, id).storage, s.workspace)
  {
    if s.workspace.Some? {
      SaveKeepsOthers(s.storage, s.workspace.value, s.tabs, id);
    }
  }

  /** No step touches what is stored for a workspace that is not shown. */
  lemma StorageOfOthersKept(s: State, e: Event)
    ensures OthersKept(s.storage, Next(s, e).storage, Next(s, e).workspace)
  {
    match e
    case EditPort(port) => MirrorKeepsOthers(s.(port := port));
    case EditPath(path) => MirrorKeepsOthers(s.(path := path));
    case SwitchTo(id) => SwitchKeepsOthers(s, id);
    case NewTab(freshId) => NewKeepsOthers(s, freshId);
    case CloseTab(id) => CloseKeepsOthers(s, id);
    case ShowWorkspace(workspace, freshId) =>
      var l := Load(s.(workspace := workspace), freshId);
      MirrorKeepsOthers(l);
      LoadKeepsOthers(s.(workspace := workspace), freshId);
      OthersTransitive(s.storage, l.storage, Mirror(l).storage, workspace);
  }

  lemma MirrorKeepsOthers(s: State)
    ensures OthersKept(s.storage, Mirror(s).storage, s.workspace)
  {
    if s.workspace.Some? && s.active.Some? {
      SaveKeepsOthers(s.storage, s.workspace.value, Edited(s.tabs, s.active.value, s.port, s.path), s.active.value);
    }
  }

  lemma LoadKeepsOthers(s: State, freshId: Id)
    ensures OthersKept(s.storage, Load(s, freshId).storage, s.workspace) && Load(s, freshId).workspace == s.workspace
  {
    var l := Load(s, freshId);
    if l != s {
      SaveKeepsOthers(s.storage, s.workspace.value, l.tabs, l.active.value);
    }
  }

  lemma NewKeepsOthers(s: State, freshId: Id)
    ensures OthersKept(s.storage, New(s, freshId).storage, New(s, freshId).workspace)
  {
    if s.workspace.Some? {
      var w, next := s.workspace.value, s.tabs + [Tab(freshId, s.port, "")];
      var saved := s.(tabs := next, storage := Save(s.storage, w, next, freshId));
      SaveKeepsOthers(s.storage, w, next, freshId);
      SwitchKeepsOthers(saved, freshId);
      OthersTransitive(s.storage, saved.storage, Switch(saved, freshId).storage, s.workspace);
    }
  }

  lemma CloseKeepsOthers(s: State, id: Id)
    ensures OthersKept(s.storage, Close(s, id).storage, s.workspace)
  {
    var idx, next := IndexOf(s.tabs, id), Without(s.tabs, id);
    if |s.tabs| > 1 && idx < |s.tabs| && s.workspace.Some? {
      var w := s.workspace.value;
      if s.active != Some(id) {
        if s.active.Some? {
          SaveKeepsOthers(s.storage, w, next, s.active.value);
        }
      } else if next != [] {
        var at := if idx > 0 then idx - 1 else 0;
        var neighbor := if at < |next| then next[at] else next[0];
        var saved := s.(tabs := next, storage := Save(s.storage, w, next, neighbor.id));
        SaveKeepsOthers(s.storage, w, next, neighbor.id);
        SwitchKeepsOthers(saved, neighbor.id);
        OthersTransitive(s.storage, saved.storage, Switch(saved, neighbor.id).storage, s.workspace);
      }
    } else if |s.tabs| > 1 && idx < |s.tabs| && s.active == Some(id) && next != [] {
      var at := if idx > 0 then idx - 1 else 0;
      SwitchKeepsOthers(s.(tabs := next), (if at < |next| then next[at] else next[0]).id);
    }
  }

  /**
   A new tab is added at the end, becomes active and has the port of the editors and no
   path; while no workspace is shown there is none.
   */
  lemma NewTabIsLastAndActive(s: State, freshId: Id)
    requires Valid(s) && FindTab(s.tabs, freshId).None?
    ensures var r := Next(s, NewTab(freshId));
            if s.workspace.None? then r == s
            else
              && r.tabs == s.tabs + [Tab(freshId, s.port, "")]
              && r.active == Some(freshId) && r.port == s.port && r.path == ""
              && r.workspace == s.workspace && r.lastWorkspace == s.lastWorkspace
              && StoredFor(r, s.workspace.value)
  {
    if s.workspace.Some? {
      NewValid(s, freshId);
      FoundByIndex(s.tabs + [Tab(freshId, s.port, "")], |s.tabs|);
      FindLast(s.tabs, Tab(freshId, s.port, ""));
    }
  }

  lemma {:induction false} FindLast(tabs: seq<Tab>, tab: Tab)
    requires FindTab(tabs, tab.id).None?
    ensures FindTab(tabs + [tab], tab.id) == Some(tab)
  {
    if tabs != [] {
      assert (tabs + [tab])[1..] == tabs[1..] + [tab];
      FindLast(tabs[1..], tab);
    }
  }

  /**
   Closing a tab takes out just that one; the tab before it takes over if it was active,
   or the next if it was first. The last tab stays.
   */
  lemma CloseActivatesTheTabBefore(s: State, id: Id)
    requires Valid(s)
    ensures var i, r := IndexOf(s.tabs, id), Next(s, CloseTab(id));
            if |s.tabs| <= 1 || FindTab(s.tabs, id).None? then r == s
            else
              && r.tabs == s.tabs[..i] + s.tabs[i + 1..]
              && r.active == (if s.active == Some(id) then Some(s.tabs[if i > 0 then i - 1 else 1].id) else s.active)
              && r.workspace == s.workspace && r.lastWorkspace == s.lastWorkspace
              && (if s.active == Some(id) then Mirrored(r) else r.port == s.port && r.path == s.path)
              && if s.workspace.Some? then StoredFor(r, s.workspace.value) else r.storage == s.storage
  {
    if |s.tabs| > 1 && FindTab(s.tabs, id).Some? {
      WithoutOneOfDistinct(s.tabs, id);
      if s.active == Some(id) {
        NeighborRemains(s.tabs, id);
      }
    }
  }

  /** At rest the mirror effect has nothing to do, so a setter that runs it without a change does no harm. */
  lemma MirrorAtRest(s: State)
    requires Valid(s)
    ensures Mirror(s) == s
  {
    if s.workspace.Some? {
      EditedSame(s.tabs, s.active.value, s.port, s.path);
    }
  }

  // ---------- Leaving a workspace and coming back ----------

  /** The tabs and the active tab of the last workspace are what storage holds for it. */
  ghost predicate Persisted(s: State) {
    s.lastWorkspace.Some? ==> StoredFor(s, s.lastWorkspace.value)
  }

  /** The step closes a tab or activates another one. */
  ghost predicate Rearranges(s: State, e: Event) {
    || (e.SwitchTo? && FindTab(s.tabs, e.id).Some? && s.active != Some(e.id))
    || (e.CloseTab? && |s.tabs| > 1 && FindTab(s.tabs, e.id).Some?)
  }

  /** Storage keeps up with the tabs, except when they are rearranged while no workspace is shown. */
  lemma PersistedIff(s: State, e: Event)
    requires Valid(s) && Persisted(s) && Fresh(s, e)
    ensures Persisted(Next(s, e)) <==> !(s.workspace.None? && Rearranges(s, e))
  {
    NextValid(s, e);
    match e
    case EditPort(port) =>
    case EditPath(path) =>
    case SwitchTo(id) =>
    case NewTab(freshId) => NewPersisted(s, freshId);
    case CloseTab(id) => ClosePersisted(s, id);
    case ShowWorkspace(workspace, freshId) => ShowPersisted(s, workspace, freshId);
  }

  lemma NewPersisted(s: State, freshId: Id)
    requires Valid(s) && Persisted(s) && FindTab(s.tabs, freshId).None?
    ensures Persisted(New(s, freshId))
  {
    if s.workspace.Some? {
      FoundByIndex(s.tabs + [Tab(freshId, s.port, "")], |s.tabs|);
    }
  }

  lemma ClosePersisted(s: State, id: Id)
    requires Valid(s) && Persisted(s)
    ensures Persisted(Close(s, id)) <==> !(s.workspace.None? && Rearranges(s, CloseTab(id)))
  {
    var idx := IndexOf(s.tabs, id);
    if |s.tabs| > 1 && idx < |s.tabs| {
      WithoutOneOfDistinct(s.tabs, id);
      assert |Without(s.tabs, id)| == |s.tabs| - 1;
      if s.active == Some(id) {
        NeighborRemains(s.tabs, id);
      }
    }
  }

  lemma ShowPersisted(s: State, workspace: Option<Id>, freshId: Id)
    requires Valid(s) && Persisted(s)
    ensures Persisted(Next(s, ShowWorkspace(workspace, freshId)))
  {
    var s1 := s.(workspace := workspace);
    if workspace.Some? && workspace != s.lastWorkspace {
      LoadValid(s1, freshId);
      var l := Load(s1, freshId);
      EditedSame(l.tabs, l.active.value, l.port, l.path);
    }
  }

  /** Storage holds the given tabs and active tab for a workspace other than the last one. */
  ghost predicate Keeps(s: State, w: Id, tabs: seq<Tab>, active: Id) {
    && s.lastWorkspace != Some(w)
    && w in s.storage.tabs && s.storage.tabs[w] == tabs
    && w in s.storage.active && s.storage.active[w] == active
  }

  lemma SwitchKeeps(s: State, id: Id, w: Id, tabs: seq<Tab>, active: Id)
    requires Keeps(s, w, tabs, active) && s.workspace != Some(w)
    ensures Keeps(Switch(s, id), w, tabs, active)
  {
  }

  lemma NewKeeps(s: State, freshId: Id, w: Id, tabs: seq<Tab>, active: Id)
    requires Keeps(s, w, tabs, active) && s.workspace != Some(w)
    ensures Keeps(New(s, freshId), w, tabs, active)
  {
    if s.workspace.Some? {
      var next := s.tabs + [Tab(freshId, s.port, "")];
      var stored := Save(s.storage, s.workspace.value, next, freshId);
      SwitchKeeps(s.(tabs := next, storage := stored), freshId, w, tabs, active);
    }
  }

  lemma CloseKeeps(s: State, id: Id, w: Id, tabs: seq<Tab>, active: Id)
    requires Keeps(s, w, tabs, active) && s.workspace != Some(w)
    ensures Keeps(Close(s, id), w, tabs, active)
  {
  }

  lemma MirrorKeeps(s: State, w: Id, tabs: seq<Tab>, active: Id)
    requires Keeps(s, w, tabs, active) && s.workspace != Some(w)
    ensures Keeps(Mirror(s), w, tabs, active)
  {
  }

  /** Steps taken elsewhere leave the stored tabs of a workspace alone. */
  lemma NextKeeps(s: State, e: Event, w: Id, tabs: seq<Tab>, active: Id)
    requires Keeps(s, w, tabs, active) && (s.workspace.Some? ==> s.workspace == s.lastWorkspace)
    requires e.ShowWorkspace? ==> e.workspace != Some(w)
    ensures Keeps(Next(s, e), w, tabs, active)
  {
    match e
    case EditPort(port) => MirrorKeeps(s.(port := port), w, tabs, active);
    case EditPath(path) => MirrorKeeps(s.(path := path), w, tabs, active);
    case SwitchTo(id) => SwitchKeeps(s, id, w, tabs, active);
    case NewTab(freshId) => NewKeeps(s, freshId, w, tabs, active);
    case CloseTab(id) => CloseKeeps(s, id, w, tabs, active);
    case ShowWorkspace(workspace, freshId) =>
      var shown := s.(workspace := workspace);
      MirrorKeeps(Load(shown, freshId), w, tabs, active);
  }

  lemma LeavingKeepsStored(s: State, other: Id, freshId: Id, w: Id, tabs: seq<Tab>, active: Id)
    requires w != other && s.lastWorkspace != Some(other)
    requires w in s.storage.tabs && s.storage.tabs[w] == tabs && w in s.storage.active && s.storage.active[w] == active
    ensures Keeps(Next(s, ShowWorkspace(Some(other), freshId)), w, tabs, active)
  {
    var shown := s.(workspace := Some(other));
    assert Keeps(Load(shown, freshId), w, tabs, active);
    MirrorKeeps(Load(shown, freshId), w, tabs, active);
  }

  /** No workspace is shown, but the tabs on hand are still those of `w`. */
  ghost predicate Hidden(s: State, w: Id, tabs: seq<Tab>, active: Id) {
    && s.workspace.None? && s.lastWorkspace == Some(w) && s.tabs == tabs && s.active == Some(active)
    && w in s.storage.tabs && s.storage.tabs[w] == tabs
    && w in s.storage.active && s.storage.active[w] == active
  }

  /** The workspace has been left with these tabs. */
  ghost predicate Away(s: State, w: Id, tabs: seq<Tab>, active: Id) {
    Hidden(s, w, tabs, active) || (Keeps(s, w, tabs, active) && s.workspace != Some(w))
  }

  /** The step does not show `w`, and does not rearrange its tabs while they are hidden. */
  ghost predicate StaysAway(s: State, e: Event, w: Id) {
    && !(e.ShowWorkspace? && e.workspace == Some(w))
    && !(s.workspace.None? && s.lastWorkspace == Some(w) && Rearranges(s, e))
  }

  ghost predicate AlwaysAway(s: State, events: seq<Event>, w: Id)
    decreases |events|
  {
    events != [] ==> StaysAway(s, events[0], w) && AlwaysAway(Next(s, events[0]), events[1..], w)
  }

  lemma HiddenStep(s: State, e: Event, w: Id, tabs: seq<Tab>, active: Id)
    requires Valid(s) && Hidden(s, w, tabs, active) && StaysAway(s, e, w)
    ensures Away(Next(s, e), w, tabs, active)
  {
    match e
    case ShowWorkspace(Some(other), freshId) => LeavingKeepsStored(s, other, freshId, w, tabs, active);
    case SwitchTo(id) =>
      if s.active == Some(id) {
        assert FindTab(s.tabs, id).Some?;
      }
    case CloseTab(id) =>
      assert |s.tabs| <= 1 || IndexOf(s.tabs, id) == |s.tabs|;
    case _ =>
  }

  lemma AwayStep(s: State, e: Event, w: Id, tabs: seq<Tab>, active: Id)
    requires Valid(s) && Away(s, w, tabs, active) && StaysAway(s, e, w)
    ensures Away(Next(s, e), w, tabs, active)
  {
    if Hidden(s, w, tabs, active) {
      HiddenStep(s, e, w, tabs, active);
    } else {
      NextKeeps(s, e, w, tabs, active);
      WorkspaceAfter(s, e);
    }
  }

  lemma WorkspaceAfter(s: State, e: Event)
    ensures Next(s, e).workspace == if e.ShowWorkspace? then e.workspace else s.workspace
  {
  }

  lemma {:induction false} AwayAfter(s: State, events: seq<Event>, w: Id, tabs: seq<Tab>, active: Id)
    requires Valid(s) && FreshRun(s, events) && AlwaysAway(s, events, w) && Away(s, w, tabs, active)
    ensures Away(After(s, events), w, tabs, active)
    decreases |events|
  {
    if events != [] {
      NextValid(s, events[0]);
      AwayStep(s, events[0], w, tabs, active);
      AwayAfter(Next(s, events[0]), events[1..], w, tabs, active);
    }
  }

  lemma Leaving(s: State, shown: Option<Id>, freshId: Id)
    requires Valid(s) && Persisted(s) && s.workspace.Some? && shown != s.workspace
    ensures Away(Next(s, ShowWorkspace(shown, freshId)), s.workspace.value, s.tabs, s.active.value)
  {
    if shown.Some? {
      LeavingKeepsStored(s, shown.value, freshId, s.workspace.value, s.tabs, s.active.value);
    }
  }

  lemma ReturnFromHidden(s: State, w: Id, freshId: Id, tabs: seq<Tab>, active: Id, port: Option<int>, path: string)
    requires Valid(s) && Hidden(s, w, tabs, active)
    requires FindTab(tabs, active) == Some(Tab(active, port, path))
    ensures var r := Next(s, ShowWorkspace(Some(w), freshId));
            && r.active == Some(active) && r.port == s.port && r.path == s.path
            && (s.port == port && s.path == path ==> r.tabs == tabs)
  {
    var shown := s.(workspace := Some(w));
    assert Load(shown, freshId) == shown;
    if s.port == port && s.path == path {
      EditedSame(tabs, active, port, path);
    }
  }

  /**
   Over every run that leaves a workspace, for another one or for none, and comes back
   without having rearranged its tabs while they were hidden: the tabs, the active tab
   and the editors are as before, except that editors changed while no workspace was
   shown carry over into the active tab if no other workspace was shown in between.
   */
  lemma LeaveAndReturn(s: State, shown: Option<Id>, freshId: Id, events: seq<Event>, freshId': Id)
    requires Valid(s) && Persisted(s) && s.workspace.Some? && shown != s.workspace
    requires var gone := Next(s, ShowWorkspace(shown, freshId));
             FreshRun(gone, events) && AlwaysAway(gone, events, s.workspace.value)
    ensures var away := After(Next(s, ShowWorkspace(shown, freshId)), events);
            var back := Next(away, ShowWorkspace(s.workspace, freshId'));
            && back.active == s.active
            && (back.tabs == s.tabs && back.port == s.port && back.path == s.path
                <==> away.lastWorkspace != s.workspace || (away.port == s.port && away.path == s.path))
  {
    var w, tabs, active := s.workspace.value, s.tabs, s.active.value;
    var gone := Next(s, ShowWorkspace(shown, freshId));
    ShowValid(s, shown, freshId);
    Leaving(s, shown, freshId);
    AwayAfter(gone, events, w, tabs, active);
    AfterValid(gone, events);
    var away := After(gone, events);
    if Hidden(away, w, tabs, active) {
      ReturnFromHidden(away, w, freshId', tabs, active, s.port, s.path);
    } else {
      ReturnLoads(away, w, freshId', tabs, active, s.port, s.path);
    }
  }

  lemma ReturnLoads(s: State, w: Id, freshId: Id, tabs: seq<Tab>, active: Id, port: Option<int>, path: string)
    requires Valid(s) && Keeps(s, w, tabs, active) && tabs != []
    requires FindTab(tabs, active) == Some(Tab(active, port, path))
    ensures var r := Next(s, ShowWorkspace(Some(w), freshId));
            r.tabs == tabs && r.active == Some(active) && r.port == port && r.path == path
  {
    var l := Load(s.(workspace := Some(w)), freshId);
    LoadValid(s.(workspace := Some(w)), freshId);
    EditedSame(l.tabs, active, port, path);
  }

  /**
   On a workspace with stored tabs they are shown, with the stored active tab if it is one
   of them and else the first; without any, one tab with the port and path kept before
   there were tabs. The editors show the active tab, and storage holds what is shown.
   */
  lemma ShowLoadsStored(s: State, w: Id, freshId: Id)
    requires Valid(s) && s.lastWorkspace != Some(w)
    ensures var r := Next(s, ShowWorkspace(Some(w), freshId));
            && Persisted(r) && r.workspace == r.lastWorkspace == Some(w) && Mirrored(r)
            && if w in s.storage.tabs && s.storage.tabs[w] != [] then
                 && r.tabs == s.storage.tabs[w]
                 && r.active == Some(if w in s.storage.active && FindTab(r.tabs, s.storage.active[w]).Some?
                                     then s.storage.active[w] else r.tabs[0].id)
               else
                 && |r.tabs| == 1 && r.active == Some(freshId)
                 && r.port == (if w in s.storage.ports && s.storage.ports[w] > 0 then Some(s.storage.ports[w])
                               else None)
                 && r.path == (if w in s.storage.paths then s.storage.paths[w] else "")
  {
    var shown := s.(workspace := Some(w));
    LoadValid(shown, freshId);
    MirrorAtRest(Load(shown, freshId));
  }

  /** Leaving for no workspace hides everything and changes nothing. */
  lemma HidingChangesNothing(s: State, freshId: Id)
    ensures Next(s, ShowWorkspace(None, freshId)) == s.(workspace := None)
  {
  }

  /** Two stored tabs, the first of them active. */
  const TWO_TABS: seq<Tab> := [Tab("a", None, ""), Tab("b", None, "")]
  const STORED: Storage := Storage(map["w" := TWO_TABS], map["w" := "a"], map[], map[])

  ghost predicate ShowsTwoTabs(s: State, active: Id) {
    && Valid(s) && s.lastWorkspace == Some("w") && s.tabs == TWO_TABS && s.active == Some(active)
    && "w" in s.storage.tabs && s.storage.tabs["w"] == TWO_TABS
    && "w" in s.storage.active && s.storage.active["w"] == "a"
  }

  lemma TwoTabsFound()
    ensures FindTab(TWO_TABS, "a") == Some(Tab("a", None, "")) && FindTab(TWO_TABS, "b") == Some(Tab("b", None, ""))
    ensures SoundStorage(STORED) && Valid(Initial(STORED))
  {
    assert TWO_TABS[1..] == [Tab("b", None, "")];
    assert FindTab(TWO_TABS, "b") == FindTab(TWO_TABS[1..], "b");
  }

  lemma ShowsStored()
    ensures ShowsTwoTabs(Next(Initial(STORED), ShowWorkspace(Some("w"), "f")), "a")
  {
    TwoTabsFound();
    ShowValid(Initial(STORED), Some("w"), "f");
    ShowLoadsStored(Initial(STORED), "w", "f");
  }

  lemma SwitchedAway(s: State)
    requires ShowsTwoTabs(s, "a")
    ensures ShowsTwoTabs(Next(Next(s, ShowWorkspace(None, "f")), SwitchTo("b")), "b")
  {
    TwoTabsFound();
    var hidden := Next(s, ShowWorkspace(None, "f"));
    ShowValid(s, None, "f");
    NextValid(hidden, SwitchTo("b"));
  }

  lemma BackOnFirstTab(s: State)
    requires ShowsTwoTabs(s, "b")
    ensures Next(Next(s, ShowWorkspace(Some("v"), "f")), ShowWorkspace(Some("w"), "f")).active == Some("a")
  {
    TwoTabsFound();
    var away := Next(s, ShowWorkspace(Some("v"), "f"));
    ShowValid(s, Some("v"), "f");
    LeavingKeepsStored(s, "v", "f", "w", TWO_TABS, "a");
    ReturnLoads(away, "w", "f", TWO_TABS, "a", None, "");
  }

  lemma {:induction false} AfterAppend(s: State, events: seq<Event>, more: seq<Event>)
    ensures After(s, events + more) == After(After(s, events), more)
    decreases |events|
  {
    if events == [] {
      assert events + more == more;
    } else {
      assert (events + more)[0] == events[0] && (events + more)[1..] == events[1..] + more;
      AfterAppend(Next(s, events[0]), events[1..], more);
    }
  }

  lemma AfterOne(s: State, e: Event)
    ensures After(s, [e]) == Next(s, e)
  {
    assert [e][1..] == [] && After(Next(s, e), []) == Next(s, e);
  }

  lemma AfterTwo(s: State, e: Event, f: Event)
    ensures After(s, [e, f]) == Next(Next(s, e), f)
  {
    assert [e, f] == [e] + [f];
    AfterAppend(s, [e], [f]);
    AfterOne(s, e);
    AfterOne(Next(s, e), f);
  }

  /** Without that care, from the start: a switch made while no workspace is shown is forgotten on return. */
  lemma SwitchWithoutWorkspaceIsForgotten()
    ensures var before := [ShowWorkspace(Some("w"), "f")] + [ShowWorkspace(None, "f"), SwitchTo("b")];
            var after := before + [ShowWorkspace(Some("v"), "f"), ShowWorkspace(Some("w"), "f")];
            && After(Initial(STORED), before).active == Some("b")
            && After(Initial(STORED), after).active == Some("a")
  {
    var first := [ShowWorkspace(Some("w"), "f")];
    var hidden := [ShowWorkspace(None, "f"), SwitchTo("b")];
    var returning := [ShowWorkspace(Some("v"), "f"), ShowWorkspace(Some("w"), "f")];
    ShowsStored();
    AfterOne(Initial(STORED), first[0]);
    var shown := After(Initial(STORED), first);
    SwitchedAway(shown);
    AfterAppend(Initial(STORED), first, hidden);
    AfterTwo(shown, hidden[0], hidden[1]);
    var switched := After(shown, hidden);
    BackOnFirstTab(switched);
    AfterAppend(Initial(STORED), first + hidden, returning);
    AfterTwo(switched, returning[0], returning[1]);
  }
}
