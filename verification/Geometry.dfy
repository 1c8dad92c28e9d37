/**
 Where a layout puts its panes on the screen. A split's flex container gives its
 children the shares `ratio` and `1 - ratio`; a row runs right to left when the
 document does, a column never changes direction. Dividers have no width here.
 */
module Geometry {
  import opened Layout
  import opened Options

  datatype Rect = Rect(x: real, y: real, w: real, h: real) {
    ghost predicate Positive() { w > 0.0 && h > 0.0 }

    function Area(): real { w * h }

    ghost predicate Within(outer: Rect) {
      && outer.x <= x && x + w <= outer.x + outer.w
      && outer.y <= y && y + h <= outer.y + outer.h
    }

    /** Half-open, so that a shared edge belongs to one side only. */
    ghost predicate Contains(px: real, py: real) {
      x <= px < x + w && y <= py < y + h
    }

    /** Some vertical or horizontal line separates the two interiors. */
    ghost predicate Apart(other: Rect) {
      || x + w <= other.x || other.x + other.w <= x
      || y + h <= other.y || other.y + other.h <= y
    }
  }

  function Length(r: Rect, direction: Direction): real {
    if direction == Horizontal then r.w else r.h
  }

  function Share(length: real, ratio: real): real { length * ratio }

  /** The strip of that length at the edge where the split's children start. */
  function Leading(r: Rect, direction: Direction, length: real, rtl: bool): Rect {
    match direction
    case Horizontal => r.(x := if rtl then r.x + r.w - length else r.x, w := length)
    case Vertical => r.(h := length)
  }

  /** The strip of that length at the edge where the split's children end. */
  function Trailing(r: Rect, direction: Direction, length: real, rtl: bool): Rect {
    match direction
    case Horizontal => r.(x := if rtl then r.x else r.x + r.w - length, w := length)
    case Vertical => r.(y := r.y + r.h - length, h := length)
  }

  function FirstRect(r: Rect, direction: Direction, ratio: real, rtl: bool): Rect {
    Leading(r, direction, Share(Length(r, direction), ratio), rtl)
  }

  function SecondRect(r: Rect, direction: Direction, ratio: real, rtl: bool): Rect {
    Trailing(r, direction, Share(Length(r, direction), 1.0 - ratio), rtl)
  }

  /** The rectangle of every leaf, in order. */
  function LeafRects(n: Node, r: Rect, rtl: bool): (rects: seq<Rect>)
    ensures |rects| == |CollectPanes(n)|
  {
    match n
    case Pane(_) => [r]
    case Split(_, direction, ratio, first, second) =>
      LeafRects(first, FirstRect(r, direction, ratio, rtl), rtl)
      + LeafRects(second, SecondRect(r, direction, ratio, rtl), rtl)
  }

  /** The rectangle of one pane of a layout. */
  function RectOf(n: Node, id: string, r: Rect, rtl: bool): Rect {
    match n
    case Pane(_) => r
    case Split(_, direction, ratio, first, second) =>
      if FindPane(first, id).Some? then RectOf(first, id, FirstRect(r, direction, ratio, rtl), rtl)
      else RectOf(second, id, SecondRect(r, direction, ratio, rtl), rtl)
  }

  // ---------- Tiling ----------

  function TotalArea(rects: seq<Rect>): real {
    if rects == [] then 0.0 else rects[0].Area() + TotalArea(rects[1..])
  }

  ghost predicate AllWithin(rects: seq<Rect>, r: Rect) {
    forall i :: 0 <= i < |rects| ==> rects[i].Positive() && rects[i].Within(r)
  }

  ghost predicate PairwiseApart(rects: seq<Rect>) {
    forall i, j :: 0 <= i < j < |rects| ==> rects[i].Apart(rects[j])
  }

  /** The rectangles cut `r` up: inside it, not overlapping, and of the same total area. */
  ghost predicate Tiles(rects: seq<Rect>, r: Rect) {
    AllWithin(rects, r) && PairwiseApart(rects) && TotalArea(rects) == r.Area()
  }

  lemma ProductPositive(a: real, b: real)
    requires a > 0.0 && b > 0.0
    ensures a * b > 0.0
  {
  }

  lemma SharesAddUp(length: real, ratio: real)
    ensures Share(length, ratio) + Share(length, 1.0 - ratio) == length
  {
  }

  lemma ShareBounds(length: real, ratio: real)
    requires length > 0.0 && 0.0 < ratio < 1.0
    ensures 0.0 < Share(length, ratio) < length
    ensures 0.0 < Share(length, 1.0 - ratio) < length
    ensures Share(length, ratio) + Share(length, 1.0 - ratio) == length
  {
    ProductPositive(length, ratio);
    ProductPositive(length, 1.0 - ratio);
    SharesAddUp(length, ratio);
  }

  lemma CutAreas(r: Rect, direction: Direction, u: real, v: real, rtl: bool)
    requires u + v == Length(r, direction)
    ensures Leading(r, direction, u, rtl).Area() + Trailing(r, direction, v, rtl).Area() == r.Area()
  {
    match direction
    case Horizontal => assert u * r.h + v * r.h == (u + v) * r.h;
    case Vertical => assert r.w * u + r.w * v == r.w * (u + v);
  }

  lemma SplitRects(r: Rect, direction: Direction, ratio: real, rtl: bool)
    requires r.Positive() && 0.0 < ratio < 1.0
    ensures var a, b := FirstRect(r, direction, ratio, rtl), SecondRect(r, direction, ratio, rtl);
            && a.Positive() && b.Positive() && a.Within(r) && b.Within(r) && a.Apart(b)
  {
    var length := Length(r, direction);
    ShareBounds(length, ratio);
  }

  lemma SplitAreas(r: Rect, direction: Direction, ratio: real, rtl: bool)
    ensures FirstRect(r, direction, ratio, rtl).Area() + SecondRect(r, direction, ratio, rtl).Area() == r.Area()
  {
    var length := Length(r, direction);
    CutAreas(r, direction, Share(length, ratio), Share(length, 1.0 - ratio), rtl);
  }

  lemma {:induction false} TotalAreaAppend(a: seq<Rect>, b: seq<Rect>)
    ensures TotalArea(a + b) == TotalArea(a) + TotalArea(b)
  {
    if a == [] {
      assert a + b == b;
    } else {
      assert (a + b)[1..] == a[1..] + b;
      TotalAreaAppend(a[1..], b);
    }
  }

  /** Every sound layout tiles the rectangle it is given. */
  lemma {:induction false} LayoutTiles(n: Node, r: Rect, rtl: bool)
    requires Sound(n) && r.Positive()
    ensures Tiles(LeafRects(n, r, rtl), r)
  {
    match n
    case Pane(_) =>
      assert LeafRects(n, r, rtl)[1..] == [];
    case Split(_, direction, ratio, first, second) =>
      var ra, rb := FirstRect(r, direction, ratio, rtl), SecondRect(r, direction, ratio, rtl);
      var a, b := LeafRects(first, ra, rtl), LeafRects(second, rb, rtl);
      SplitRects(r, direction, ratio, rtl);
      SplitAreas(r, direction, ratio, rtl);
      LayoutTiles(first, ra, rtl);
      LayoutTiles(second, rb, rtl);
      TotalAreaAppend(a, b);
  }

  /** Which leaf a screen position belongs to. */
  function LeafAt(n: Node, r: Rect, rtl: bool, px: real, py: real): (i: nat)
    ensures i < |CollectPanes(n)|
  {
    match n
    case Pane(_) => 0
    case Split(_, direction, ratio, first, second) =>
      var a := FirstRect(r, direction, ratio, rtl);
      if a.x <= px < a.x + a.w && a.y <= py < a.y + a.h then LeafAt(first, a, rtl, px, py)
      else |CollectPanes(first)| + LeafAt(second, SecondRect(r, direction, ratio, rtl), rtl, px, py)
  }

  /** No gaps and no overlaps, point by point: each position is in exactly one leaf. */
  lemma {:induction false} EachPointInOneLeaf(n: Node, r: Rect, rtl: bool, px: real, py: real)
    requires Sound(n) && r.Positive()
    ensures forall i :: 0 <= i < |LeafRects(n, r, rtl)| ==>
                          (LeafRects(n, r, rtl)[i].Contains(px, py)
                           <==> r.Contains(px, py) && i == LeafAt(n, r, rtl, px, py))
  {
    match n
    case Pane(_) =>
    case Split(_, direction, ratio, first, second) =>
      var ra, rb := FirstRect(r, direction, ratio, rtl), SecondRect(r, direction, ratio, rtl);
      ShareBounds(if direction == Horizontal then r.w else r.h, ratio);
      SplitRects(r, direction, ratio, rtl);
      assert r.Contains(px, py) <==> ra.Contains(px, py) || rb.Contains(px, py);
      assert !(ra.Contains(px, py) && rb.Contains(px, py));
      EachPointInOneLeaf(first, ra, rtl, px, py);
      EachPointInOneLeaf(second, rb, rtl, px, py);
      var a: seq<Rect>, b: seq<Rect> := LeafRects(first, ra, rtl), LeafRects(second, rb, rtl);
      var all := a + b;
      forall i | 0 <= i < |all|
        ensures all[i].Contains(px, py) <==> r.Contains(px, py) && i == LeafAt(n, r, rtl, px, py)
      {
        if i < |a| {
          assert all[i] == a[i];
        } else {
          assert all[i] == b[i - |a|];
        }
      }
  }

  // ---------- Resizing ----------

  lemma {:induction false} LeavesOfUpdate(n: Node, splitId: string, ratio: real)
    ensures CollectPanes(UpdateRatio(n, splitId, ratio)) == CollectPanes(n)
    ensures Sound(n) ==> Sound(UpdateRatio(n, splitId, ratio))
  {
    if n.Split? && n.splitId != splitId {
      LeavesOfUpdate(n.first, splitId, ratio);
      LeavesOfUpdate(n.second, splitId, ratio);
    }
  }

  lemma {:induction false} LeavesOfReset(n: Node)
    ensures CollectPanes(ResetRatios(n)) == CollectPanes(n)
    ensures Sound(ResetRatios(n))
  {
    if n.Split? {
      LeavesOfReset(n.first);
      LeavesOfReset(n.second);
    }
  }

  /** A ratio change moves only panes under the named split; the walk order is untouched. */
  lemma {:induction false} UpdateMovesOnlyItsPanes(n: Node, splitId: string, ratio: real, r: Rect, rtl: bool)
    ensures CollectPanes(UpdateRatio(n, splitId, ratio)) == CollectPanes(n)
    ensures forall i :: 0 <= i < |CollectPanes(n)| && CollectPanes(n)[i] !in PanesUnder(n, splitId) ==>
                          LeafRects(UpdateRatio(n, splitId, ratio), r, rtl)[i] == LeafRects(n, r, rtl)[i]
  {
    LeavesOfUpdate(n, splitId, ratio);
    match n
    case Pane(_) =>
    case Split(id, direction, share, first, second) =>
      if id == splitId {
        forall i | 0 <= i < |CollectPanes(n)| ensures CollectPanes(n)[i] in PaneIds(n) {
          PaneIdsAreLeaves(n, CollectPanes(n)[i]);
        }
      } else {
        LeavesOfUpdate(first, splitId, ratio);
        UpdateMovesOnlyItsPanes(first, splitId, ratio, FirstRect(r, direction, share, rtl), rtl);
        UpdateMovesOnlyItsPanes(second, splitId, ratio, SecondRect(r, direction, share, rtl), rtl);
      }
  }

  /** The ratio of the first split of that name on the walk from the root. */
  function RatioOf(n: Node, splitId: string): Option<real> {
    match n
    case Pane(_) => None
    case Split(id, _, ratio, first, second) =>
      if id == splitId then Some(ratio)
      else
        var found := RatioOf(first, splitId);
        if found.Some? then found else RatioOf(second, splitId)
  }

  /** Read after write, for the named split and for every other; nothing but ratios changes. */
  lemma {:induction false} RatioAfterUpdate(n: Node, splitId: string, ratio: real, other: string)
    ensures RatioOf(UpdateRatio(n, splitId, ratio), splitId) ==
            if RatioOf(n, splitId).Some? then Some(Clamp(ratio)) else None
    ensures RatioOf(n, splitId).None? ==> UpdateRatio(n, splitId, ratio) == n
    ensures other != splitId ==> RatioOf(UpdateRatio(n, splitId, ratio), other) == RatioOf(n, other)
    ensures SameButRatios(n, UpdateRatio(n, splitId, ratio))
  {
    UpdateKeepsShape(n, splitId, ratio);
    if n.Split? && n.splitId != splitId {
      RatioAfterUpdate(n.first, splitId, ratio, other);
      RatioAfterUpdate(n.second, splitId, ratio, other);
    }
  }

  /** Every drag step before the commit is forgotten. */
  lemma {:induction false} LastUpdateWins(n: Node, splitId: string, dragged: real, committed: real)
    ensures UpdateRatio(UpdateRatio(n, splitId, dragged), splitId, committed) == UpdateRatio(n, splitId, committed)
  {
    if n.Split? && n.splitId != splitId {
      LastUpdateWins(n.first, splitId, dragged, committed);
      LastUpdateWins(n.second, splitId, dragged, committed);
    }
  }

  // ---------- Even distribution ----------

  function LeafDepths(n: Node): (depths: seq<nat>)
    ensures |depths| == |CollectPanes(n)|
  {
    match n
    case Pane(_) => [0]
    case Split(_, _, _, first, second) => OneDeeper(LeafDepths(first)) + OneDeeper(LeafDepths(second))
  }

  function OneDeeper(depths: seq<nat>): (deeper: seq<nat>)
    ensures |deeper| == |depths|
    ensures forall i :: 0 <= i < |depths| ==> deeper[i] == depths[i] + 1
  {
    seq(|depths|, i requires 0 <= i < |depths| => depths[i] + 1)
  }

  function Pow2(k: nat): (p: real)
    ensures p >= 1.0
  {
    if k == 0 then 1.0 else 2.0 * Pow2(k - 1)
  }

  lemma HalfArea(r: Rect, direction: Direction, rtl: bool)
    ensures FirstRect(r, direction, 0.5, rtl).Area() * 2.0 == r.Area()
    ensures SecondRect(r, direction, 0.5, rtl).Area() * 2.0 == r.Area()
  {
    match direction
    case Horizontal => assert r.w * 0.5 * r.h * 2.0 == r.w * r.h;
    case Vertical => assert r.w * (r.h * 0.5) * 2.0 == r.w * r.h;
  }

  /** The rectangle holds 2^-depth of the area. */
  ghost predicate HoldsShare(rect: Rect, depth: nat, area: real) {
    rect.Area() * Pow2(depth) == area
  }

  lemma HalfOfShare(rect: Rect, depth: nat, half: real, area: real)
    requires HoldsShare(rect, depth, half) && half * 2.0 == area
    ensures HoldsShare(rect, depth + 1, area)
  {
    assert rect.Area() * (2.0 * Pow2(depth)) == rect.Area() * Pow2(depth) * 2.0;
  }

  ghost predicate AllHoldShare(rects: seq<Rect>, depths: seq<nat>, area: real) {
    |rects| == |depths| && forall i :: 0 <= i < |rects| ==> HoldsShare(rects[i], depths[i], area)
  }

  lemma SharesOneDeeper(rects: seq<Rect>, depths: seq<nat>, half: real, area: real)
    requires AllHoldShare(rects, depths, half) && half * 2.0 == area
    ensures AllHoldShare(rects, OneDeeper(depths), area)
  {
    forall i | 0 <= i < |rects| ensures HoldsShare(rects[i], depths[i] + 1, area) {
      HalfOfShare(rects[i], depths[i], half, area);
    }
  }

  lemma AppendShares(a: seq<Rect>, da: seq<nat>, b: seq<Rect>, db: seq<nat>, area: real)
    requires AllHoldShare(a, da, area) && AllHoldShare(b, db, area)
    ensures AllHoldShare(a + b, da + db, area)
  {
  }

  /** After a reset every split is half and half, and nothing but ratios has changed. */
  lemma {:induction false} ResetHalvesEverySplit(n: Node, splitId: string)
    ensures RatioOf(ResetRatios(n), splitId) == if RatioOf(n, splitId).Some? then Some(0.5) else None
    ensures SameButRatios(n, ResetRatios(n))
  {
    if n.Split? {
      ResetHalvesEverySplit(n.first, splitId);
      ResetHalvesEverySplit(n.second, splitId);
    }
  }

  /** After a reset a leaf at depth d holds 2^-d of the area, whatever the ratios were. */
  lemma {:induction false} ResetSharesByDepth(n: Node, r: Rect, rtl: bool)
    ensures AllHoldShare(LeafRects(ResetRatios(n), r, rtl), LeafDepths(n), r.Area())
  {
    LeavesOfReset(n);
    match n
    case Pane(_) =>
    case Split(_, direction, _, first, second) =>
      var ra, rb := FirstRect(r, direction, 0.5, rtl), SecondRect(r, direction, 0.5, rtl);
      ResetSharesByDepth(first, ra, rtl);
      ResetSharesByDepth(second, rb, rtl);
      HalfArea(r, direction, rtl);
      var a, b := LeafRects(ResetRatios(first), ra, rtl), LeafRects(ResetRatios(second), rb, rtl);
      SharesOneDeeper(a, LeafDepths(first), ra.Area(), r.Area());
      SharesOneDeeper(b, LeafDepths(second), rb.Area(), r.Area());
      AppendShares(a, OneDeeper(LeafDepths(first)), b, OneDeeper(LeafDepths(second)), r.Area());
  }

  // ---------- A fresh split ----------

  /** The target keeps the first half of its rectangle and the new pane gets the second. */
  lemma {:induction false} SplitHalves(n: Node, target: string, direction: Direction, splitId: string,
                                       newId: string, r: Rect, rtl: bool)
    requires Distinct(n) && target in PaneIds(n) && newId !in PaneIds(n)
    ensures SplitLeaf(n, target, direction, splitId, newId).Some?
    ensures var s := SplitLeaf(n, target, direction, splitId, newId).value;
            && RectOf(s, target, r, rtl) == FirstRect(RectOf(n, target, r, rtl), direction, 0.5, rtl)
            && RectOf(s, newId, r, rtl) == SecondRect(RectOf(n, target, r, rtl), direction, 0.5, rtl)
  {
    SplitUndone(n, target, direction, splitId, newId);
    match n
    case Pane(_) =>
    case Split(_, across, ratio, first, second) =>
      SplitUndone(first, target, direction, splitId, newId);
      SplitUndone(second, target, direction, splitId, newId);
      PaneIdsAreLeaves(first, target);
      PaneIdsAreLeaves(first, newId);
      if target in PaneIds(first) {
        var a := SplitLeaf(first, target, direction, splitId, newId).value;
        PaneIdsAreLeaves(a, target);
        PaneIdsAreLeaves(a, newId);
        SplitHalves(first, target, direction, splitId, newId, FirstRect(r, across, ratio, rtl), rtl);
      } else {
        SplitHalves(second, target, direction, splitId, newId, SecondRect(r, across, ratio, rtl), rtl);
      }
  }

  /** No other pane moves. */
  lemma {:induction false} SplitLeavesOthers(n: Node, target: string, direction: Direction, splitId: string,
                                             newId: string, r: Rect, rtl: bool, other: string)
    requires Distinct(n) && target in PaneIds(n) && newId !in PaneIds(n) && other in PaneIds(n) - {target}
    ensures SplitLeaf(n, target, direction, splitId, newId).Some?
    ensures RectOf(SplitLeaf(n, target, direction, splitId, newId).value, other, r, rtl) == RectOf(n, other, r, rtl)
  {
    SplitUndone(n, target, direction, splitId, newId);
    match n
    case Pane(_) =>
    case Split(_, across, ratio, first, second) =>
      SplitUndone(first, target, direction, splitId, newId);
      SplitUndone(second, target, direction, splitId, newId);
      PaneIdsAreLeaves(first, other);
      if target in PaneIds(first) {
        PaneIdsAreLeaves(SplitLeaf(first, target, direction, splitId, newId).value, other);
        if other in PaneIds(first) {
          SplitLeavesOthers(first, target, direction, splitId, newId, FirstRect(r, across, ratio, rtl), rtl, other);
        }
      } else if other in PaneIds(second) {
        SplitLeavesOthers(second, target, direction, splitId, newId, SecondRect(r, across, ratio, rtl), rtl, other);
      }
  }

  /** A fresh split is half and half under its own name, and every other split keeps its ratio. */
  lemma {:induction false} RatioAfterSplit(n: Node, target: string, direction: Direction, splitId: string,
                                           newId: string, other: string)
    requires SplitLeaf(n, target, direction, splitId, newId).Some? && RatioOf(n, splitId).None?
    ensures RatioOf(SplitLeaf(n, target, direction, splitId, newId).value, other)
            == if other == splitId then Some(0.5) else RatioOf(n, other)
  {
    if n.Split? {
      if SplitLeaf(n.first, target, direction, splitId, newId).Some? {
        RatioAfterSplit(n.first, target, direction, splitId, newId, other);
      } else {
        RatioAfterSplit(n.second, target, direction, splitId, newId, other);
      }
    }
  }

  // ---------- Any sequence of edits ----------

  datatype Edit =
    | Resize(splitId: string, ratio: real)
    | DistributeEvenly
    | SplitPane(target: string, direction: Direction, newSplitId: string, newId: string)
    | ClosePane(target: string)

  function Apply(n: Node, e: Edit): Node {
    match e
    case Resize(splitId, ratio) => UpdateRatio(n, splitId, ratio)
    case DistributeEvenly => ResetRatios(n)
    case SplitPane(target, direction, newSplitId, newId) =>
      var s := SplitLeaf(n, target, direction, newSplitId, newId);
      if s.Some? then s.value else n
    case ClosePane(target) => CloseLeaf(n, target).node
  }

  function ApplyAll(n: Node, edits: seq<Edit>): Node
    decreases |edits|
  {
    if edits == [] then n else ApplyAll(Apply(n, edits[0]), edits[1..])
  }

  lemma {:induction false} SplitKeepsSound(n: Node, target: string, direction: Direction, splitId: string,
                                           newId: string)
    requires Sound(n)
    ensures SplitLeaf(n, target, direction, splitId, newId).Some? ==>
              Sound(SplitLeaf(n, target, direction, splitId, newId).value)
  {
    if n.Split? {
      SplitKeepsSound(n.first, target, direction, splitId, newId);
      SplitKeepsSound(n.second, target, direction, splitId, newId);
    }
  }

  lemma {:induction false} CloseKeepsSound(n: Node, target: string)
    requires Sound(n)
    ensures Sound(CloseLeaf(n, target).node)
  {
    if n.Split? {
      CloseKeepsSound(n.first, target);
      CloseKeepsSound(n.second, target);
    }
  }

  /** Whatever the user does to a sound layout, the panes keep tiling the workspace. */
  lemma {:induction false} TilingSurvivesEdits(n: Node, edits: seq<Edit>, r: Rect, rtl: bool)
    requires Sound(n) && r.Positive()
    ensures Sound(ApplyAll(n, edits))
    ensures Tiles(LeafRects(ApplyAll(n, edits), r, rtl), r)
    ensures (forall e :: e in edits ==> e.Resize? || e.DistributeEvenly?) ==>
              CollectPanes(ApplyAll(n, edits)) == CollectPanes(n)
    decreases |edits|
  {
    if edits == [] {
      LayoutTiles(n, r, rtl);
    } else {
      match edits[0] {
        case Resize(splitId, ratio) => LeavesOfUpdate(n, splitId, ratio);
        case DistributeEvenly => LeavesOfReset(n);
        case SplitPane(target, direction, newSplitId, newId) =>
          SplitKeepsSound(n, target, direction, newSplitId, newId);
        case ClosePane(target) => CloseKeepsSound(n, target);
      }
      TilingSurvivesEdits(Apply(n, edits[0]), edits[1..], r, rtl);
    }
  }

  // ---------- Popping panes out ----------

  lemma ShareGrows(length: real, longer: real, ratio: real)
    requires 0.0 < length <= longer && 0.0 < ratio < 1.0
    ensures Share(length, ratio) <= Share(longer, ratio) <= longer
  {
    ShareBounds(longer, ratio);
    ProductNonNegative(longer - length, ratio);
    SharesDiffer(length, longer, ratio);
  }

  lemma ProductNonNegative(a: real, b: real)
    requires a >= 0.0 && b >= 0.0
    ensures a * b >= 0.0
  {
  }

  lemma SharesDiffer(length: real, longer: real, ratio: real)
    ensures Share(longer, ratio) - Share(length, ratio) == (longer - length) * ratio
  {
  }

  ghost predicate AtLeastAsBig(big: Rect, small: Rect) {
    big.w >= small.w && big.h >= small.h
  }

  lemma ChildGrows(r: Rect, big: Rect, direction: Direction, ratio: real, rtl: bool)
    requires r.Positive() && AtLeastAsBig(big, r) && 0.0 < ratio < 1.0
    ensures FirstRect(r, direction, ratio, rtl).Positive() && SecondRect(r, direction, ratio, rtl).Positive()
    ensures AtLeastAsBig(FirstRect(big, direction, ratio, rtl), FirstRect(r, direction, ratio, rtl))
    ensures AtLeastAsBig(SecondRect(big, direction, ratio, rtl), SecondRect(r, direction, ratio, rtl))
    ensures AtLeastAsBig(big, FirstRect(r, direction, ratio, rtl))
    ensures AtLeastAsBig(big, SecondRect(r, direction, ratio, rtl))
  {
    SplitRects(r, direction, ratio, rtl);
    ShareGrows(Length(r, direction), Length(big, direction), ratio);
    ShareGrows(Length(r, direction), Length(big, direction), 1.0 - ratio);
  }

  /** Popping panes out never shrinks a pane that stays: it keeps at least its width and its height. */
  lemma {:induction false} PruneNeverShrinks(n: Node, hidden: set<string>, id: string, r: Rect, big: Rect, rtl: bool)
    requires Sound(n) && r.Positive() && AtLeastAsBig(big, r)
    requires id in PaneIds(n) && id !in hidden
    ensures Prune(n, hidden).Some? && id in PaneIds(Prune(n, hidden).value)
    ensures AtLeastAsBig(RectOf(Prune(n, hidden).value, id, big, rtl), RectOf(n, id, r, rtl))
  {
    PrunedIds(n, hidden);
    match n
    case Pane(_) =>
    case Split(_, direction, ratio, first, second) =>
      PrunedIds(first, hidden);
      PrunedIds(second, hidden);
      PaneIdsAreLeaves(first, id);
      ChildGrows(r, big, direction, ratio, rtl);
      var inFirst := id in PaneIds(first);
      var child := if inFirst then first else second;
      var ra, rb := FirstRect(r, direction, ratio, rtl), SecondRect(r, direction, ratio, rtl);
      match (Prune(first, hidden), Prune(second, hidden))
      case (Some(a), Some(b)) =>
        PaneIdsAreLeaves(a, id);
        if inFirst {
          PruneNeverShrinks(first, hidden, id, ra, FirstRect(big, direction, ratio, rtl), rtl);
        } else {
          PruneNeverShrinks(second, hidden, id, rb, SecondRect(big, direction, ratio, rtl), rtl);
        }
      case _ =>
        PruneNeverShrinks(child, hidden, id, if inFirst then ra else rb, big, rtl);
  }
}
