/**
 The split-layout tree of a workspace, and the operations that rebuild it.
 A layout is a binary tree whose leaves are panes; each split carries the
 share of its first child.
 */
module Layout {
  import opened Options
  import opened Sequences

  datatype Direction = Horizontal | Vertical

  datatype Node =
    | Pane(paneId: string)
    | Split(splitId: string, direction: Direction, ratio: real, first: Node, second: Node)

  // ---------- The leaves of a layout ----------

  /** Leaves in order, first child before second. */
  function CollectPanes(n: Node): (ids: seq<string>)
    ensures ids != []
  {
    match n
    case Pane(id) => [id]
    case Split(_, _, _, first, second) => CollectPanes(first) + CollectPanes(second)
  }

  ghost function PaneIds(n: Node): set<string> {
    match n
    case Pane(id) => {id}
    case Split(_, _, _, first, second) => PaneIds(first) + PaneIds(second)
  }

  function FindPane(n: Node, id: string): Option<Node> {
    match n
    case Pane(paneId) => if paneId == id then Some(n) else None
    case Split(_, _, _, first, second) =>
      var found := FindPane(first, id);
      if found.Some? then found else FindPane(second, id)
  }

  ghost predicate Distinct(n: Node) {
    n.Split? ==> Distinct(n.first) && Distinct(n.second) && PaneIds(n.first) !! PaneIds(n.second)
  }

  /** Every split gives both of its children a share. */
  ghost predicate Sound(n: Node) {
    n.Split? ==> 0.0 < n.ratio < 1.0 && Sound(n.first) && Sound(n.second)
  }

  lemma {:induction false} PaneIdsAreLeaves(n: Node, id: string)
    ensures id in PaneIds(n) <==> id in CollectPanes(n)
    ensures id in PaneIds(n) <==> FindPane(n, id).Some?
    ensures id in PaneIds(n) ==> FindPane(n, id) == Some(Pane(id))
  {
    if n.Split? {
      PaneIdsAreLeaves(n.first, id);
      PaneIdsAreLeaves(n.second, id);
    }
  }

  /** The structural reading of distinctness is the flat one: no id occurs twice in the walk. */
  lemma {:induction false} DistinctMeansNoRepeat(n: Node)
    ensures Distinct(n) <==> NoRepeat(CollectPanes(n))
  {
    if n.Split? {
      DistinctMeansNoRepeat(n.first);
      DistinctMeansNoRepeat(n.second);
      PaneIdsAsSet(n.first);
      PaneIdsAsSet(n.second);
      NoRepeatAppend(CollectPanes(n.first), CollectPanes(n.second));
    }
  }

  lemma PaneIdsAsSet(n: Node)
    ensures PaneIds(n) == set id | id in CollectPanes(n)
  {
    forall id ensures id in PaneIds(n) <==> id in CollectPanes(n) {
      PaneIdsAreLeaves(n, id);
    }
  }

  lemma NoRepeatAppend(a: seq<string>, b: seq<string>)
    ensures NoRepeat(a + b) <==> NoRepeat(a) && NoRepeat(b) && (set id | id in a) !! (set id | id in b)
  {
    var ids := a + b;
    if NoRepeat(ids) {
      forall i, j | 0 <= i < j < |b| ensures b[i] != b[j] {
        assert ids[|a| + i] != ids[|a| + j];
      }
      forall i, j | 0 <= i < j < |a| ensures a[i] != a[j] {
        assert ids[i] != ids[j];
      }
      forall i, j | 0 <= i < |a| && 0 <= j < |b| ensures a[i] != b[j] {
        assert ids[i] != ids[|a| + j];
      }
      assert forall id :: id in a ==> id !in b;
    } else {
      var i, j :| 0 <= i < j < |ids| && ids[i] == ids[j];
      if i < |a| <= j {
        var shared := a[i];
        assert shared in a && shared == b[j - |a|] && shared in b;
        assert shared in (set id | id in a) * (set id | id in b);
      } else if |a| <= i {
        assert b[i - |a|] == b[j - |a|];
      }
    }
  }

  // ---------- Ratios ----------

  function Distance(a: real, b: real): real {
    if a < b then b - a else a - b
  }

  /** The allowed ratio that is nearest to the wanted one. */
  function Clamp(ratio: real): (r: real)
    ensures 0.05 <= r <= 0.95
    ensures forall x :: 0.05 <= x <= 0.95 ==> Distance(r, ratio) <= Distance(x, ratio)
  {
    var low := if ratio < 0.95 then ratio else 0.95;
    if low > 0.05 then low else 0.05
  }

  /** Sets the outermost split of that name on every branch; a split below it keeps its ratio. */
  function UpdateRatio(n: Node, splitId: string, ratio: real): Node {
    match n
    case Pane(_) => n
    case Split(id, _, _, first, second) =>
      if id == splitId then n.(ratio := Clamp(ratio))
      else n.(first := UpdateRatio(first, splitId, ratio), second := UpdateRatio(second, splitId, ratio))
  }

  function ResetRatios(n: Node): Node {
    match n
    case Pane(_) => n
    case Split(_, _, _, first, second) =>
      n.(ratio := 0.5, first := ResetRatios(first), second := ResetRatios(second))
  }

  /** The same panes, splits and directions; only ratios may differ. */
  ghost predicate SameButRatios(a: Node, b: Node) {
    if a.Pane? then b == a
    else
      && b.Split? && b.splitId == a.splitId && b.direction == a.direction
      && SameButRatios(a.first, b.first) && SameButRatios(a.second, b.second)
  }

  lemma {:induction false} SameAsItself(n: Node)
    ensures SameButRatios(n, n)
  {
    if n.Split? {
      SameAsItself(n.first);
      SameAsItself(n.second);
    }
  }

  lemma {:induction false} UpdateKeepsShape(n: Node, splitId: string, ratio: real)
    ensures SameButRatios(n, UpdateRatio(n, splitId, ratio))
  {
    if n.Split? {
      if n.splitId == splitId {
        SameAsItself(n.first);
        SameAsItself(n.second);
      } else {
        UpdateKeepsShape(n.first, splitId, ratio);
        UpdateKeepsShape(n.second, splitId, ratio);
      }
    }
  }

  /** The panes that a ratio change of that split can move. */
  ghost function PanesUnder(n: Node, splitId: string): set<string> {
    match n
    case Pane(_) => {}
    case Split(id, _, _, first, second) =>
      if id == splitId then PaneIds(n) else PanesUnder(first, splitId) + PanesUnder(second, splitId)
  }

  // ---------- Hiding, splitting and closing panes ----------

  /** Drops the hidden leaves and collapses their splits onto the surviving sibling. */
  function Prune(n: Node, hidden: set<string>): Option<Node> {
    match n
    case Pane(id) => if id in hidden then None else Some(n)
    case Split(_, _, _, first, second) =>
      match (Prune(first, hidden), Prune(second, hidden))
      case (Some(a), Some(b)) => Some(n.(first := a, second := b))
      case (Some(a), None) => Some(a)
      case (None, b) => b
  }

  function Visible(ids: seq<string>, hidden: set<string>): seq<string> {
    if ids == [] then []
    else (if ids[0] in hidden then [] else [ids[0]]) + Visible(ids[1..], hidden)
  }

  /** The target leaf becomes a half-and-half split, the new leaf second. */
  function SplitLeaf(n: Node, target: string, direction: Direction, splitId: string, newId: string): Option<Node> {
    match n
    case Pane(id) => if id != target then None else Some(Split(splitId, direction, 0.5, n, Pane(newId)))
    case Split(_, _, _, first, second) =>
      match SplitLeaf(first, target, direction, splitId, newId)
      case Some(a) => Some(n.(first := a))
      case None =>
        match SplitLeaf(second, target, direction, splitId, newId)
        case Some(b) => Some(n.(second := b))
        case None => None
  }

  datatype Closed = Closed(node: Node, removed: bool)

  /** Closing a leaf collapses its parent onto the sibling; the last leaf stays. */
  function CloseLeaf(n: Node, target: string): Closed {
    if n.Pane? then Closed(n, false)
    else if n.first == Pane(target) then Closed(n.second, true)
    else if n.second == Pane(target) then Closed(n.first, true)
    else
      var a := CloseLeaf(n.first, target);
      if a.removed then Closed(n.(first := a.node), true)
      else
        var b := CloseLeaf(n.second, target);
        if b.removed then Closed(n.(second := b.node), true) else Closed(n, false)
  }

  lemma {:induction false} VisibleAppend(a: seq<string>, b: seq<string>, hidden: set<string>)
    ensures Visible(a + b, hidden) == Visible(a, hidden) + Visible(b, hidden)
  {
    if a == [] {
      assert a + b == b;
    } else {
      assert (a + b)[1..] == a[1..] + b;
      VisibleAppend(a[1..], b, hidden);
    }
  }

  lemma {:induction false} VisibleMembers(ids: seq<string>, hidden: set<string>, id: string)
    ensures id in Visible(ids, hidden) <==> id in ids && id !in hidden
  {
    if ids != [] {
      VisibleMembers(ids[1..], hidden, id);
    }
  }

  /** Pruning keeps exactly the visible leaves, in order, and fails only when there are none. */
  lemma {:induction false} PrunedLeaves(n: Node, hidden: set<string>)
    ensures Visible(CollectPanes(n), hidden) == match Prune(n, hidden) case Some(p) => CollectPanes(p) case None => []
    ensures Prune(n, hidden).Some? && Sound(n) ==> Sound(Prune(n, hidden).value)
  {
    match n
    case Pane(id) =>
    case Split(_, _, _, first, second) =>
      PrunedLeaves(first, hidden);
      PrunedLeaves(second, hidden);
      VisibleAppend(CollectPanes(first), CollectPanes(second), hidden);
  }

  lemma {:induction false} PrunedIds(n: Node, hidden: set<string>)
    ensures PaneIds(n) - hidden == match Prune(n, hidden) case Some(p) => PaneIds(p) case None => {}
  {
    if n.Split? {
      PrunedIds(n.first, hidden);
      PrunedIds(n.second, hidden);
    }
  }

  lemma {:induction false} PruneNothing(n: Node, hidden: set<string>)
    requires PaneIds(n) !! hidden
    ensures Prune(n, hidden) == Some(n)
  {
    if n.Split? {
      PruneNothing(n.first, hidden);
      PruneNothing(n.second, hidden);
    }
  }

  /** Closing one pane of several is pruning it: the two ways a pane leaves the grid agree. */
  lemma {:induction false} CloseIsPrune(n: Node, target: string)
    requires Distinct(n)
    ensures CloseLeaf(n, target).removed <==> n.Split? && target in PaneIds(n)
    ensures CloseLeaf(n, target).removed ==> Prune(n, {target}) == Some(CloseLeaf(n, target).node)
    ensures !CloseLeaf(n, target).removed ==> CloseLeaf(n, target).node == n
  {
    if n.Split? {
      CloseIsPrune(n.first, target);
      CloseIsPrune(n.second, target);
      if target !in PaneIds(n.first) { PruneNothing(n.first, {target}); }
      if target !in PaneIds(n.second) { PruneNothing(n.second, {target}); }
    }
  }

  /** The walk `after` is `before` with the new id put directly after an occurrence of the target. */
  ghost predicate AddedAfter(before: seq<string>, after: seq<string>, target: string, newId: string) {
    exists k :: 0 <= k < |before| && AddedAt(before, after, target, newId, k)
  }

  ghost predicate AddedAt(before: seq<string>, after: seq<string>, target: string, newId: string, k: nat)
    requires k < |before|
  {
    before[k] == target && after == before[..k + 1] + [newId] + before[k + 1..]
  }

  ghost predicate AddedBySplit(n: Node, s: Node, target: string, newId: string) {
    AddedAfter(CollectPanes(n), CollectPanes(s), target, newId)
  }

  lemma AddedInPart(left: seq<string>, before: seq<string>, after: seq<string>, right: seq<string>,
                    target: string, newId: string)
    requires AddedAfter(before, after, target, newId)
    ensures AddedAfter(left + before + right, left + after + right, target, newId)
  {
    var k :| 0 <= k < |before| && AddedAt(before, after, target, newId, k);
    assert AddedAt(left + before + right, left + after + right, target, newId, |left| + k);
  }

  lemma SplitAddsInPart(n: Node, target: string, direction: Direction, splitId: string, newId: string)
    requires n.Split?
    requires forall m :: m in {n.first, n.second} && SplitLeaf(m, target, direction, splitId, newId).Some? ==>
               AddedBySplit(m, SplitLeaf(m, target, direction, splitId, newId).value, target, newId)
    ensures SplitLeaf(n, target, direction, splitId, newId).Some? ==>
              AddedBySplit(n, SplitLeaf(n, target, direction, splitId, newId).value, target, newId)
  {
    var a := SplitLeaf(n.first, target, direction, splitId, newId);
    var b := SplitLeaf(n.second, target, direction, splitId, newId);
    var first, second := CollectPanes(n.first), CollectPanes(n.second);
    if a.Some? {
      AddedInPart([], first, CollectPanes(a.value), second, target, newId);
      assert [] + first + second == first + second;
      assert [] + CollectPanes(a.value) + second == CollectPanes(a.value) + second;
    } else if b.Some? {
      AddedInPart(first, second, CollectPanes(b.value), [], target, newId);
      assert first + second + [] == first + second;
      assert first + CollectPanes(b.value) + [] == first + CollectPanes(b.value);
    }
  }

  lemma {:induction false} SplitAddsAfter(n: Node, target: string, direction: Direction, splitId: string, newId: string)
    ensures SplitLeaf(n, target, direction, splitId, newId).Some? ==>
              AddedBySplit(n, SplitLeaf(n, target, direction, splitId, newId).value, target, newId)
  {
    match n
    case Pane(id) =>
      if id == target {
        assert CollectPanes(SplitLeaf(n, target, direction, splitId, newId).value) == [target] + [newId];
        assert AddedAt([target], [target] + [newId], target, newId, 0);
      }
    case Split(_, _, _, first, second) =>
      SplitAddsAfter(first, target, direction, splitId, newId);
      SplitAddsAfter(second, target, direction, splitId, newId);
      SplitAddsInPart(n, target, direction, splitId, newId);
  }

  lemma {:induction false} SplitUndone(n: Node, target: string, direction: Direction, splitId: string, newId: string)
    requires newId !in PaneIds(n)
    ensures SplitLeaf(n, target, direction, splitId, newId).Some? <==> target in PaneIds(n)
    ensures target in PaneIds(n) ==>
              var s := SplitLeaf(n, target, direction, splitId, newId).value;
              && CloseLeaf(s, newId) == Closed(n, true)
              && PaneIds(s) == PaneIds(n) + {newId}
              && (Distinct(n) ==> Distinct(s))
              && (Sound(n) ==> Sound(s))
  {
    if n.Split? {
      SplitUndone(n.first, target, direction, splitId, newId);
      SplitUndone(n.second, target, direction, splitId, newId);
      NotThereNotClosed(n.first, newId);
    }
  }

  /** A split adds one leaf directly after its target, and closing that leaf undoes it. */
  lemma SplitThenClose(n: Node, target: string, direction: Direction, splitId: string, newId: string)
    requires newId !in PaneIds(n)
    ensures SplitLeaf(n, target, direction, splitId, newId).Some? <==> target in PaneIds(n)
    ensures target in PaneIds(n) ==>
              var s := SplitLeaf(n, target, direction, splitId, newId).value;
              && CloseLeaf(s, newId) == Closed(n, true)
              && AddedAfter(CollectPanes(n), CollectPanes(s), target, newId)
              && PaneIds(s) == PaneIds(n) + {newId}
              && (Distinct(n) ==> Distinct(s))
              && (Sound(n) ==> Sound(s))
  {
    SplitUndone(n, target, direction, splitId, newId);
    SplitAddsAfter(n, target, direction, splitId, newId);
  }

  lemma {:induction false} NotThereNotClosed(n: Node, target: string)
    requires target !in PaneIds(n)
    ensures !CloseLeaf(n, target).removed
  {
    if n.Split? {
      NotThereNotClosed(n.first, target);
      NotThereNotClosed(n.second, target);
    }
  }
}
