/**
 Moving the focus with the arrow keys: single moves, a key held down, a move and
 its reverse, and the split that a move turns into when there is nowhere to go.
 */
module FocusMoves {
  import opened Directional
  import opened Layout
  import opened Options

  /** The position of a pane in the in-order walk. */
  function Order(n: Node, id: string): (k: nat)
    ensures k < |CollectPanes(n)|
  {
    match n
    case Pane(_) => 0
    case Split(_, _, _, first, second) =>
      if FindPane(first, id).Some? then Order(first, id) else |CollectPanes(first)| + Order(second, id)
  }

  lemma {:induction false} OrderIsPosition(n: Node, id: string)
    requires id in PaneIds(n)
    ensures CollectPanes(n)[Order(n, id)] == id
  {
    if n.Split? {
      PaneIdsAreLeaves(n.first, id);
      if id in PaneIds(n.first) {
        OrderIsPosition(n.first, id);
      } else {
        OrderIsPosition(n.second, id);
      }
    }
  }

  /** Right and down move strictly later in the walk, left and up strictly earlier. */
  lemma {:induction false} NeighborAdvances(n: Node, id: string, heading: Heading)
    requires Distinct(n) && id in PaneIds(n) && Neighbor(n, id, heading).Some?
    ensures var q := Neighbor(n, id, heading).value;
            && q in PaneIds(n)
            && if heading.Forward() then Order(n, id) < Order(n, q) else Order(n, q) < Order(n, id)
  {
    if n.Split? {
      PaneIdsAreLeaves(n.first, id);
      PaneIdsAreLeaves(n.second, id);
      PaneIdsAreLeaves(n.first, Neighbor(n, id, heading).value);
      CornersAreLeaves(n.first);
      CornersAreLeaves(n.second);
      if id in PaneIds(n.first) {
        if Neighbor(n.first, id, heading).Some? {
          NeighborAdvances(n.first, id, heading);
        }
      } else if Neighbor(n.second, id, heading).Some? {
        NeighborAdvances(n.second, id, heading);
      }
    }
  }

  // ---------- A key held down ----------

  /** The pane reached by `k` moves in one direction, if all of them are possible. */
  function AfterMoves(n: Node, id: string, heading: Heading, k: nat): Option<string>
    decreases k
  {
    if k == 0 then Some(id)
    else
      var q := Neighbor(n, id, heading);
      if q.None? then None else AfterMoves(n, q.value, heading, k - 1)
  }

  lemma {:induction false} MovesAdvance(n: Node, id: string, heading: Heading, k: nat)
    requires Distinct(n) && id in PaneIds(n) && AfterMoves(n, id, heading, k).Some?
    ensures var q := AfterMoves(n, id, heading, k).value;
            && q in PaneIds(n)
            && if heading.Forward() then Order(n, id) + k <= Order(n, q) else Order(n, q) + k <= Order(n, id)
    decreases k
  {
    if k > 0 {
      NeighborAdvances(n, id, heading);
      MovesAdvance(n, Neighbor(n, id, heading).value, heading, k - 1);
    }
  }

  lemma {:induction false} MovesCompose(n: Node, id: string, heading: Heading, j: nat, k: nat)
    requires AfterMoves(n, id, heading, j).Some?
    ensures AfterMoves(n, id, heading, j + k) == AfterMoves(n, AfterMoves(n, id, heading, j).value, heading, k)
    decreases j
  {
    if j > 0 {
      MovesCompose(n, Neighbor(n, id, heading).value, heading, j - 1, k);
    }
  }

  /** A held key never comes back to a pane it has left. */
  lemma HeldKeyNeverRevisits(n: Node, id: string, heading: Heading, j: nat, k: nat)
    requires Distinct(n) && id in PaneIds(n) && j < k && AfterMoves(n, id, heading, k).Some?
    ensures AfterMoves(n, id, heading, j).Some?
    ensures AfterMoves(n, id, heading, j) != AfterMoves(n, id, heading, k)
  {
    FewerMovesPossible(n, id, heading, j, k);
    MovesAdvance(n, id, heading, j);
    MovesCompose(n, id, heading, j, k - j);
    MovesAdvance(n, AfterMoves(n, id, heading, j).value, heading, k - j);
  }

  lemma {:induction false} FewerMovesPossible(n: Node, id: string, heading: Heading, j: nat, k: nat)
    requires j <= k && AfterMoves(n, id, heading, k).Some?
    ensures AfterMoves(n, id, heading, j).Some?
    decreases j
  {
    if j > 0 {
      FewerMovesPossible(n, Neighbor(n, id, heading).value, heading, j - 1, k - 1);
    }
  }

  /** After `k` moves there is no neighbour left, and `k` is less than the number of panes. */
  ghost predicate RunsOut(n: Node, id: string, heading: Heading, k: nat) {
    && k < |CollectPanes(n)| && AfterMoves(n, id, heading, k).Some?
    && Neighbor(n, AfterMoves(n, id, heading, k).value, heading).None?
  }

  /** A held key runs out of neighbours after fewer moves than there are panes, so the next press splits. */
  lemma {:induction false} HeldKeyEndsInSplit(n: Node, id: string, heading: Heading)
    requires Distinct(n) && id in PaneIds(n)
    ensures exists k :: RunsOut(n, id, heading, k)
    decreases if heading.Forward() then |CollectPanes(n)| - Order(n, id) else Order(n, id)
  {
    if Neighbor(n, id, heading).None? {
      assert RunsOut(n, id, heading, 0);
    } else {
      NeighborAdvances(n, id, heading);
      HeldKeyEndsInSplit(n, Neighbor(n, id, heading).value, heading);
      var k: nat :| RunsOut(n, Neighbor(n, id, heading).value, heading, k);
      MovesAdvance(n, id, heading, k + 1);
      assert RunsOut(n, id, heading, k + 1);
    }
  }

  // ---------- A move and its reverse ----------

  /** The innermost split that the heading crosses. */
  function Crossing(n: Node, id: string, heading: Heading): Option<Node> {
    match n
    case Pane(_) => None
    case Split(_, direction, _, first, second) =>
      var inFirst := FindPane(first, id).Some?;
      var inner := Crossing(if inFirst then first else second, id, heading);
      if inner.Some? then inner
      else if direction == heading.Across() && inFirst == heading.Forward() then Some(n)
      else None
  }

  /** The leaf of the near side that is closest to the crossed divider's end. */
  function CornerOfNearSide(crossed: Node, heading: Heading): string
    requires crossed.Split?
  {
    if heading.Forward() then LastLeaf(crossed.first) else FirstLeaf(crossed.second)
  }

  lemma {:induction false} CornersHaveNoNeighbor(n: Node, heading: Heading)
    requires Distinct(n)
    ensures !heading.Forward() ==> Neighbor(n, FirstLeaf(n), heading).None?
    ensures heading.Forward() ==> Neighbor(n, LastLeaf(n), heading).None?
  {
    if n.Split? {
      CornersHaveNoNeighbor(n.first, heading);
      CornersHaveNoNeighbor(n.second, heading);
      CornersAreLeaves(n.first);
      CornersAreLeaves(n.second);
      PaneIdsAreLeaves(n.first, FirstLeaf(n));
      PaneIdsAreLeaves(n.first, LastLeaf(n));
    }
  }

  /**
   Moving on and straight back lands on the corner leaf of the crossed split's near
   side, so it returns to the starting pane exactly when that pane is this leaf.
   */
  lemma {:induction false} BackFromNeighbor(n: Node, id: string, heading: Heading)
    requires Distinct(n) && id in PaneIds(n) && Neighbor(n, id, heading).Some?
    ensures Crossing(n, id, heading).Some? && Crossing(n, id, heading).value.Split?
    ensures Neighbor(n, Neighbor(n, id, heading).value, heading.Reverse())
            == Some(CornerOfNearSide(Crossing(n, id, heading).value, heading))
  {
    match n
    case Pane(_) =>
    case Split(_, _, _, first, second) =>
      var q := Neighbor(n, id, heading).value;
      var child := if id in PaneIds(first) then first else second;
      PaneIdsAreLeaves(first, id);
      PaneIdsAreLeaves(second, id);
      PaneIdsAreLeaves(first, q);
      PaneIdsAreLeaves(second, q);
      CornersAreLeaves(first);
      CornersAreLeaves(second);
      CornersHaveNoNeighbor(first, heading.Reverse());
      CornersHaveNoNeighbor(second, heading.Reverse());
      if Neighbor(child, id, heading).Some? {
        NeighborAdvances(child, id, heading);
        BackFromNeighbor(child, id, heading);
      } else {
        NoCrossing(child, id, heading);
      }
  }

  lemma {:induction false} NoCrossing(n: Node, id: string, heading: Heading)
    requires id in PaneIds(n) && Neighbor(n, id, heading).None?
    ensures Crossing(n, id, heading).None?
  {
    if n.Split? {
      PaneIdsAreLeaves(n.first, id);
      PaneIdsAreLeaves(n.second, id);
      NoCrossing(if id in PaneIds(n.first) then n.first else n.second, id, heading);
    }
  }

  // ---------- Split or move ----------

  /**
   A fresh split always puts the new pane second. So a pane split because it had no
   neighbour gains one in that direction exactly when the direction is right or down.
   */
  lemma {:induction false} SplitAppearsAhead(n: Node, id: string, heading: Heading, splitId: string, newId: string)
    requires Distinct(n) && id in PaneIds(n) && newId !in PaneIds(n)
    ensures var s := SplitLeaf(n, id, heading.Across(), splitId, newId);
            && s.Some?
            && Neighbor(s.value, id, heading) == if heading.Forward() then Some(newId) else Neighbor(n, id, heading)
  {
    SplitUndone(n, id, heading.Across(), splitId, newId);
    match n
    case Pane(_) =>
    case Split(_, direction, _, first, second) =>
      PaneIdsAreLeaves(first, id);
      PaneIdsAreLeaves(second, id);
      SplitUndone(first, id, heading.Across(), splitId, newId);
      SplitUndone(second, id, heading.Across(), splitId, newId);
      if id in PaneIds(first) {
        SplitAppearsAhead(first, id, heading, splitId, newId);
        PaneIdsAreLeaves(SplitLeaf(first, id, heading.Across(), splitId, newId).value, id);
      } else {
        SplitAppearsAhead(second, id, heading, splitId, newId);
        PaneIdsAreLeaves(SplitLeaf(second, id, heading.Across(), splitId, newId).value, id);
      }
  }

  lemma SplitLandsInDirectionIff(n: Node, id: string, heading: Heading, splitId: string, newId: string)
    requires Distinct(n) && id in PaneIds(n) && newId !in PaneIds(n)
    requires Neighbor(n, id, heading).None?
    ensures SplitLeaf(n, id, heading.Across(), splitId, newId).Some?
    ensures Neighbor(SplitLeaf(n, id, heading.Across(), splitId, newId).value, id, heading) == Some(newId)
            <==> heading.Forward()
  {
    SplitAppearsAhead(n, id, heading, splitId, newId);
  }

  datatype SplitRequest = SplitRequest(paneId: string, direction: Direction)

  /** The focus of the active workspace, and the splits asked of the backend. */
  class PaneFocus {
    var layout: Option<Node>
    var activePaneId: Option<string>
    var requests: seq<SplitRequest>

    constructor (layout: Option<Node>, activePaneId: Option<string>)
      ensures this.layout == layout && this.activePaneId == activePaneId && requests == []
    {
      this.layout, this.activePaneId, requests := layout, activePaneId, [];
    }

    /** Focuses the neighbour if there is one, otherwise asks for a split; nothing without a layout and a focus. */
    method SplitOrMove(heading: Heading)
      modifies this
      ensures layout == old(layout)
      ensures old(layout.None? || activePaneId.None? || activePaneId.value == "") ==>
                activePaneId == old(activePaneId) && requests == old(requests)
      ensures old(layout.Some? && activePaneId.Some? && activePaneId.value != "") ==>
                var cur := old(activePaneId.value);
                var neighbor := Neighbor(layout.value, cur, heading);
                if neighbor.Some? && neighbor.value != "" then activePaneId == neighbor && requests == old(requests)
                else activePaneId == Some(cur) && requests == old(requests) + [SplitRequest(cur, heading.Across())]
    {
      if layout.None? || activePaneId.None? || activePaneId.value == "" {
        return;
      }
      var cur := activePaneId.value;
      var neighbor := FindDirectionalNeighbor(layout.value, cur, heading);
      if neighbor.Some? && neighbor.value != "" {
        activePaneId := neighbor;
        return;
      }
      var splitDirection := if heading == Left || heading == Right then Horizontal else Vertical;
      requests := requests + [SplitRequest(cur, splitDirection)];
    }

    /** What a held key comes to: the same press again and again, until a split is asked for. */
    method Hold(heading: Heading) returns (moves: nat)
      requires layout.Some? && Distinct(layout.value) && "" !in PaneIds(layout.value)
      requires activePaneId.Some? && activePaneId.value in PaneIds(layout.value)
      modifies this
      ensures layout == old(layout) && RunsOut(layout.value, old(activePaneId.value), heading, moves)
      ensures activePaneId == AfterMoves(layout.value, old(activePaneId.value), heading, moves)
      ensures requests == old(requests) + [SplitRequest(activePaneId.value, heading.Across())]
    {
      ghost var n, id := layout.value, activePaneId.value;
      moves := 0;
      var split := false;
      while !split
        invariant layout == Some(n) && AfterMoves(n, id, heading, moves).Some?
        invariant activePaneId == AfterMoves(n, id, heading, moves)
        invariant requests ==
                  if split then old(requests) + [SplitRequest(activePaneId.value, heading.Across())] else old(requests)
        invariant split ==> Neighbor(n, activePaneId.value, heading).None?
        decreases !split, |CollectPanes(n)| - moves
      {
        MovesAdvance(n, id, heading, moves);
        MovesCompose(n, id, heading, moves, 1);
        ghost var cur := activePaneId.value;
        if Neighbor(n, cur, heading).Some? {
          NeighborAdvances(n, cur, heading);
        }
        var asked := |requests|;
        SplitOrMove(heading);
        split := |requests| > asked;
        if !split {
          assert activePaneId == Neighbor(n, cur, heading) == AfterMoves(n, cur, heading, 1);
          moves := moves + 1;
          MovesAdvance(n, id, heading, moves);
        }
      }
      MovesAdvance(n, id, heading, moves);
    }
  }
}
