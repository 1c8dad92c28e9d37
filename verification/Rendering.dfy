/**
 Which part of a workspace's layout is on the screen: panes popped out into their own
 window are pruned away, and a maximized pane or the active tab replaces the grid.
 */
module Rendering {
  import opened Geometry
  import opened Layout
  import opened Options

  /** The grid without the popped-out panes, or the whole grid when all of them are out. */
  function Base(layout: Node, hidden: set<string>): Node {
    if hidden == {} then layout
    else
      var pruned := Prune(layout, hidden);
      if pruned.Some? then pruned.value else layout
  }

  function TabStrip(layout: Node, hidden: set<string>): seq<string> {
    CollectPanes(Base(layout, hidden))
  }

  /** An id counts as absent when it is missing or empty. */
  predicate Absent(id: Option<string>) {
    id.None? || id.value == ""
  }

  function RenderTarget(layout: Node, hidden: set<string>, tabsMode: bool,
                        activePane: Option<string>, maximizedPane: Option<string>): Node
  {
    var base := Base(layout, hidden);
    var tab := if activePane.Some? then activePane else Some(CollectPanes(base)[0]);
    var target := if tabsMode then tab else maximizedPane;
    if Absent(target) then base
    else
      var node := FindPane(base, target.value);
      if node.Some? then node.value
      else if !tabsMode then base
      else
        var first := CollectPanes(base)[0];
        var leaf := if first == "" then None else FindPane(base, first);
        if leaf.Some? then leaf.value else base
  }

  ghost predicate AllHidden(layout: Node, hidden: set<string>) {
    PaneIds(layout) <= hidden
  }

  lemma BaseLeaves(layout: Node, hidden: set<string>)
    ensures CollectPanes(Base(layout, hidden)) ==
            if AllHidden(layout, hidden) then CollectPanes(layout) else Visible(CollectPanes(layout), hidden)
    ensures Sound(layout) ==> Sound(Base(layout, hidden))
  {
    PrunedLeaves(layout, hidden);
    PrunedIds(layout, hidden);
    match Prune(layout, hidden)
    case None =>
    case Some(pruned) =>
      var survivor := CollectPanes(pruned)[0];
      PaneIdsAreLeaves(pruned, survivor);
      assert survivor in PaneIds(layout) - hidden;
      if hidden == {} {
        PruneNothing(layout, hidden);
      }
  }

  /** The screen shows the pruned grid or one of its leaves, and never a hidden pane unless all are hidden. */
  lemma NoHiddenPaneOnScreen(layout: Node, hidden: set<string>, tabsMode: bool,
                             activePane: Option<string>, maximizedPane: Option<string>)
    ensures var shown := RenderTarget(layout, hidden, tabsMode, activePane, maximizedPane);
            && (shown == Base(layout, hidden) || (shown.Pane? && shown.paneId in TabStrip(layout, hidden)))
            && forall id :: id in CollectPanes(shown) ==>
                 id in CollectPanes(layout) && (id in hidden ==> AllHidden(layout, hidden))
  {
    var base := Base(layout, hidden);
    var shown := RenderTarget(layout, hidden, tabsMode, activePane, maximizedPane);
    BaseLeaves(layout, hidden);
    forall id ensures id in CollectPanes(base) <==> FindPane(base, id) == Some(Pane(id)) {
      PaneIdsAreLeaves(base, id);
    }
    forall id | id in CollectPanes(base)
      ensures id in CollectPanes(layout) && (id in hidden ==> AllHidden(layout, hidden))
    {
      VisibleMembers(CollectPanes(layout), hidden, id);
    }
    forall id ensures FindPane(base, id).Some? ==> FindPane(base, id) == Some(Pane(id)) {
      PaneIdsAreLeaves(base, id);
    }
  }

  /** In tabs mode the active tab is shown if the strip lists it, and otherwise the first listed tab. */
  lemma TabsModeShowsOneTab(layout: Node, hidden: set<string>, activePane: Option<string>,
                            maximizedPane: Option<string>)
    requires "" !in PaneIds(layout)
    ensures var shown := RenderTarget(layout, hidden, true, activePane, maximizedPane);
            var strip := TabStrip(layout, hidden);
            if activePane == Some("") then shown == Base(layout, hidden)
            else
              shown == Pane(if activePane.Some? && activePane.value in strip then activePane.value else strip[0])
  {
    var base := Base(layout, hidden);
    var first := CollectPanes(base)[0];
    BaseLeaves(layout, hidden);
    PaneIdsAreLeaves(base, first);
    PaneIdsAreLeaves(layout, first);
    VisibleMembers(CollectPanes(layout), hidden, first);
    if activePane.Some? {
      PaneIdsAreLeaves(base, activePane.value);
    }
  }

  /** So with every active id there can be, absent or a pane's, a single leaf is shown, and one the strip lists. */
  lemma TabsModeIsSingleLeaf(layout: Node, hidden: set<string>, activePane: Option<string>,
                             maximizedPane: Option<string>)
    requires "" !in PaneIds(layout) && activePane != Some("")
    ensures var shown := RenderTarget(layout, hidden, true, activePane, maximizedPane);
            shown.Pane? && shown.paneId in TabStrip(layout, hidden)
  {
    TabsModeShowsOneTab(layout, hidden, activePane, maximizedPane);
  }

  /** Outside tabs mode a maximized pane fills the screen while it is in the grid; otherwise the grid shows. */
  lemma MaximizedPaneFills(layout: Node, hidden: set<string>, activePane: Option<string>, maximizedPane: Option<string>)
    ensures RenderTarget(layout, hidden, false, activePane, maximizedPane) ==
            if !Absent(maximizedPane) && maximizedPane.value in TabStrip(layout, hidden) then Pane(maximizedPane.value)
            else Base(layout, hidden)
  {
    if maximizedPane.Some? {
      PaneIdsAreLeaves(Base(layout, hidden), maximizedPane.value);
    }
  }

  /** Whatever is shown tiles the workspace, and no pane of the grid is smaller than before the pop-out. */
  lemma ScreenIsTiled(layout: Node, hidden: set<string>, tabsMode: bool, activePane: Option<string>,
                      maximizedPane: Option<string>, r: Rect, rtl: bool)
    requires Sound(layout) && r.Positive()
    ensures Tiles(LeafRects(RenderTarget(layout, hidden, tabsMode, activePane, maximizedPane), r, rtl), r)
    ensures forall id :: id in PaneIds(Base(layout, hidden)) ==>
                           AtLeastAsBig(RectOf(Base(layout, hidden), id, r, rtl), RectOf(layout, id, r, rtl))
  {
    var shown := RenderTarget(layout, hidden, tabsMode, activePane, maximizedPane);
    NoHiddenPaneOnScreen(layout, hidden, tabsMode, activePane, maximizedPane);
    BaseLeaves(layout, hidden);
    LayoutTiles(shown, r, rtl);
    PrunedIds(layout, hidden);
    forall id | id in PaneIds(Base(layout, hidden))
      ensures AtLeastAsBig(RectOf(Base(layout, hidden), id, r, rtl), RectOf(layout, id, r, rtl))
    {
      if Base(layout, hidden) != layout {
        PruneNeverShrinks(layout, hidden, id, r, r, rtl);
      }
    }
  }
}
