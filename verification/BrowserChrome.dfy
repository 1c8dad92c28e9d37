/**
 The workspace browser as the program keeps it: signals updated one at a time, each
 update running the mirror effect at once unless a flag holds it back. Every operation
 is proved to take the step `BrowserTabs` gives it.
 */
module BrowserChrome {
  import opened Options
  import opened BrowserTabs

  /** Copies the editors into one tab and says whether that changed anything. */
  method CopyInto(tabs: seq<Tab>, id: Id, port: Option<int>, path: string) returns (next: seq<Tab>, changed: bool)
    ensures next == Edited(tabs, id, port, path)
    ensures changed <==> next != tabs
  {
    next, changed := [], false;
    ghost var at: nat := 0;
    var i: nat := 0;
    while i < |tabs|
      invariant i == |next| <= |tabs|
      invariant forall k :: 0 <= k < i ==> next[k] == if tabs[k].id == id then Tab(id, port, path) else tabs[k]
      invariant changed ==> at < i && next[at] != tabs[at]
      invariant !changed ==> forall k :: 0 <= k < i ==> next[k] == tabs[k]
    {
      var t := tabs[i];
      if t.id != id || (t.port == port && t.path == path) {
        next := next + [t];
      } else {
        next := next + [t.(port := port, path := path)];
        changed, at := true, i;
      }
      i := i + 1;
    }
  }

  class Chrome {
    var storage: Storage
    var workspace: Option<Id>
    var lastWorkspace: Option<Id>
    var tabs: seq<Tab>
    var activeTabId: Option<Id>
    var selectedPort: Option<int>
    var pathInput: string
    var suppressActiveSync: bool

    ghost function View(): State
      reads this
    {
      State(storage, workspace, lastWorkspace, tabs, activeTabId, selectedPort, pathInput)
    }

    /** Between two operations. */
    ghost predicate AtRest()
      reads this
    {
      Valid(View()) && !suppressActiveSync
    }

    constructor (stored: Storage)
      requires SoundStorage(stored)
      ensures AtRest() && View() == Initial(stored)
    {
      storage, workspace, lastWorkspace, tabs, activeTabId := stored, None, None, [], None;
      selectedPort, pathInput, suppressActiveSync := None, "", false;
    }

    method SaveTabs(workspaceId: Id, list: seq<Tab>, activeId: Option<Id>)
      modifies this`storage
      ensures activeId.Some? ==> storage == Save(old(storage), workspaceId, list, activeId.value)
      ensures activeId.None? ==> storage == old(storage).(tabs := old(storage).tabs[workspaceId := list])
    {
      storage := storage.(tabs := storage.tabs[workspaceId := list]);
      if activeId.Some? {
        storage := storage.(active := storage.active[workspaceId := activeId.value]);
      }
    }

    /** The effect that runs after a change of an editor, the active id or the workspace. */
    method MirrorEffect()
      modifies this`tabs, this`storage
      ensures View() == if old(suppressActiveSync) then old(View()) else Mirror(old(View()))
    {
      if activeTabId.None? || workspace.None? || suppressActiveSync {
        return;
      }
      var next, changed := CopyInto(tabs, activeTabId.value, selectedPort, pathInput);
      if changed {
        SaveTabs(workspace.value, next, activeTabId);
        tabs := next;
      }
    }

    method SetActiveTabId(id: Id)
      modifies this`activeTabId, this`tabs, this`storage
      ensures suppressActiveSync ==> View() == old(View()).(active := Some(id))
    {
      if activeTabId != Some(id) {
        activeTabId := Some(id);
        MirrorEffect();
      }
    }

    method SetSelectedPort(port: Option<int>)
      modifies this`selectedPort, this`tabs, this`storage
      ensures suppressActiveSync ==> View() == old(View()).(port := port)
      ensures old(AtRest()) ==> AtRest() && View() == Next(old(View()), EditPort(port))
    {
      ghost var before := View();
      if selectedPort != port {
        selectedPort := port;
        MirrorEffect();
      } else if AtRest() {
        MirrorAtRest(View());
      }
      if Valid(before) {
        NextValid(before, EditPort(port));
      }
    }

    method SetPathInput(path: string)
      modifies this`pathInput, this`tabs, this`storage
      ensures suppressActiveSync ==> View() == old(View()).(path := path)
      ensures old(AtRest()) ==> AtRest() && View() == Next(old(View()), EditPath(path))
    {
      ghost var before := View();
      if pathInput != path {
        pathInput := path;
        MirrorEffect();
      } else if AtRest() {
        MirrorAtRest(View());
      }
      if Valid(before) {
        NextValid(before, EditPath(path));
      }
    }

    method SwitchTab(id: Id)
      requires !suppressActiveSync
      modifies this
      ensures !suppressActiveSync && View() == Switch(old(View()), id)
    {
      var tab := FindTab(tabs, id);
      if tab.None? {
        return;
      }
      suppressActiveSync := true;
      SetActiveTabId(id);
      SetSelectedPort(tab.value.port);
      SetPathInput(tab.value.path);
      suppressActiveSync := false;
      if workspace.Some? {
        SaveTabs(workspace.value, tabs, Some(id));
      }
    }

    method AddTab(freshId: Id)
      requires AtRest() && FindTab(tabs, freshId).None?
      modifies this
      ensures AtRest() && View() == Next(old(View()), NewTab(freshId))
    {
      NewValid(View(), freshId);
      if workspace.None? {
        return;
      }
      var next := tabs + [Tab(freshId, selectedPort, "")];
      tabs := next;
      SaveTabs(workspace.value, next, Some(freshId));
      SwitchTab(freshId);
    }

    method RemoveTab(id: Id)
      requires AtRest()
      modifies this
      ensures AtRest() && View() == Next(old(View()), CloseTab(id))
    {
      CloseValid(View(), id);
      if |tabs| <= 1 {
        return;
      }
      var idx := IndexOf(tabs, id);
      if idx == |tabs| {
        return;
      }
      NeighborRemains(tabs, id);
      var next := Without(tabs, id);
      tabs := next;
      if activeTabId == Some(id) {
        var neighbor := next[if idx > 0 then idx - 1 else 0];
        if workspace.Some? {
          SaveTabs(workspace.value, next, Some(neighbor.id));
        }
        SwitchTab(neighbor.id);
      } else if workspace.Some? {
        SaveTabs(workspace.value, next, activeTabId);
      }
    }

    /** The workspace becomes another one: first the effect that loads its tabs runs, then the mirror effect. */
    method Show(shown: Option<Id>, freshId: Id)
      requires AtRest()
      modifies this
      ensures AtRest() && View() == Next(old(View()), ShowWorkspace(shown, freshId))
    {
      ShowValid(View(), shown, freshId);
      workspace := shown;
      LoadEffect(freshId);
      MirrorEffect();
    }

    method LoadEffect(freshId: Id)
      requires SoundStorage(storage) && !suppressActiveSync
      modifies this
      ensures !suppressActiveSync && View() == Load(old(View()), freshId)
    {
      if workspace.None? || workspace == lastWorkspace {
        return;
      }
      lastWorkspace := workspace;
      var (loaded, activeId) := Loaded(storage, workspace.value, freshId);
      var found := FindTab(loaded, activeId);
      var active := if found.Some? then found.value else loaded[0];
      suppressActiveSync := true;
      tabs := loaded;
      SetActiveTabId(active.id);
      SetSelectedPort(active.port);
      SetPathInput(active.path);
      suppressActiveSync := false;
      SaveTabs(workspace.value, loaded, Some(active.id));
    }
  }
}
