/**
 What directional focus means on the screen. The search never looks at a rectangle,
 yet the pane it returns starts exactly where the current pane ends, and it returns
 nothing exactly when the current pane touches the edge of the workspace.
 */
module FocusGeometry {
  import opened Directional
  import opened Geometry
  import opened Layout
  import opened Options

  function Other(direction: Direction): Direction {
    if direction == Horizontal then Vertical else Horizontal
  }

  /** The edge where a rectangle begins, in the order in which a container lays out its children. */
  function Begin(r: Rect, direction: Direction, rtl: bool): real {
    match direction
    case Horizontal => if rtl then -(r.x + r.w) else r.x
    case Vertical => r.y
  }

  function End(r: Rect, direction: Direction, rtl: bool): real {
    match direction
    case Horizontal => if rtl then -r.x else r.x + r.w
    case Vertical => r.y + r.h
  }

  /** How two children share a rectangle, edge by edge. */
  ghost predicate LaidOut(a: Rect, b: Rect, r: Rect, direction: Direction, rtl: bool) {
    var cross := Other(direction);
    && Begin(a, direction, rtl) == Begin(r, direction, rtl) && End(b, direction, rtl) == End(r, direction, rtl)
    && Begin(r, direction, rtl) < End(a, direction, rtl) == Begin(b, direction, rtl) < End(r, direction, rtl)
    && Begin(a, cross, rtl) == Begin(b, cross, rtl) == Begin(r, cross, rtl)
    && End(a, cross, rtl) == End(b, cross, rtl) == End(r, cross, rtl)
  }

  lemma ChildEdges(r: Rect, direction: Direction, ratio: real, rtl: bool)
    requires r.Positive() && 0.0 < ratio < 1.0
    ensures var a, b := FirstRect(r, direction, ratio, rtl), SecondRect(r, direction, ratio, rtl);
            a.Positive() && b.Positive() && LaidOut(a, b, r, direction, rtl)
  {
    ShareBounds(Length(r, direction), ratio);
  }

  lemma {:induction false} PaneInside(n: Node, id: string, r: Rect, rtl: bool, direction: Direction)
    requires Sound(n) && r.Positive()
    ensures RectOf(n, id, r, rtl).Positive()
    ensures Begin(r, direction, rtl) <= Begin(RectOf(n, id, r, rtl), direction, rtl)
    ensures End(RectOf(n, id, r, rtl), direction, rtl) <= End(r, direction, rtl)
  {
    if n.Split? {
      ChildEdges(r, n.direction, n.ratio, rtl);
      if FindPane(n.first, id).Some? {
        PaneInside(n.first, id, FirstRect(r, n.direction, n.ratio, rtl), rtl, direction);
      } else {
        PaneInside(n.second, id, SecondRect(r, n.direction, n.ratio, rtl), rtl, direction);
      }
    }
  }

  /** The first leaf sits in the corner where the layout begins. */
  lemma {:induction false} FirstLeafInCorner(n: Node, r: Rect, rtl: bool, direction: Direction)
    requires Sound(n) && r.Positive()
    ensures FirstLeaf(n) in PaneIds(n)
    ensures Begin(RectOf(n, FirstLeaf(n), r, rtl), direction, rtl) == Begin(r, direction, rtl)
  {
    if n.Split? {
      ChildEdges(r, n.direction, n.ratio, rtl);
      FirstLeafInCorner(n.first, FirstRect(r, n.direction, n.ratio, rtl), rtl, direction);
      PaneIdsAreLeaves(n.first, FirstLeaf(n));
    }
  }

  lemma {:induction false} LastLeafInCorner(n: Node, r: Rect, rtl: bool, direction: Direction)
    requires Sound(n) && Distinct(n) && r.Positive()
    ensures LastLeaf(n) in PaneIds(n)
    ensures End(RectOf(n, LastLeaf(n), r, rtl), direction, rtl) == End(r, direction, rtl)
  {
    if n.Split? {
      ChildEdges(r, n.direction, n.ratio, rtl);
      LastLeafInCorner(n.second, SecondRect(r, n.direction, n.ratio, rtl), rtl, direction);
      PaneIdsAreLeaves(n.first, LastLeaf(n));
    }
  }

  /** `q` lies across the edge of `cur` that the heading faces, at the near corner of the other axis. */
  ghost predicate Follows(cur: Rect, q: Rect, heading: Heading, rtl: bool) {
    var along, cross := heading.Across(), Other(heading.Across());
    if heading.Forward() then
      Begin(q, along, rtl) == End(cur, along, rtl) && Begin(q, cross, rtl) <= Begin(cur, cross, rtl)
    else
      End(q, along, rtl) == Begin(cur, along, rtl) && End(q, cross, rtl) >= End(cur, cross, rtl)
  }

  /** The current pane reaches the edge of the workspace on the side the heading faces. */
  ghost predicate AtBoundary(cur: Rect, r: Rect, heading: Heading, rtl: bool) {
    if heading.Forward() then End(cur, heading.Across(), rtl) == End(r, heading.Across(), rtl)
    else Begin(cur, heading.Across(), rtl) == Begin(r, heading.Across(), rtl)
  }

  ghost predicate Inside(inner: Rect, outer: Rect, rtl: bool) {
    forall direction :: Begin(outer, direction, rtl) <= Begin(inner, direction, rtl)
                        && End(inner, direction, rtl) <= End(outer, direction, rtl)
  }

  /** What holds of the current pane and its neighbour, whatever tree they came from. */
  ghost predicate Across(cur: Rect, r: Rect, neighbor: Option<Rect>, heading: Heading, rtl: bool) {
    && (neighbor.None? <==> AtBoundary(cur, r, heading, rtl))
    && (neighbor.Some? ==> Follows(cur, neighbor.value, heading, rtl))
  }

  lemma AcrossFromFirst(cur: Rect, a: Rect, b: Rect, r: Rect, direction: Direction, inner: Option<Rect>, corner: Rect,
                        heading: Heading, rtl: bool)
    requires LaidOut(a, b, r, direction, rtl) && Inside(cur, a, rtl) && Across(cur, a, inner, heading, rtl)
    requires forall d :: Begin(corner, d, rtl) == Begin(b, d, rtl)
    ensures Across(cur, r, if inner.Some? then inner
                           else if direction == heading.Across() && heading.Forward() then Some(corner)
                           else None, heading, rtl)
  {
  }

  lemma AcrossFromSecond(cur: Rect, a: Rect, b: Rect, r: Rect, direction: Direction, inner: Option<Rect>, corner: Rect,
                         heading: Heading, rtl: bool)
    requires LaidOut(a, b, r, direction, rtl) && Inside(cur, b, rtl) && Across(cur, b, inner, heading, rtl)
    requires forall d :: End(corner, d, rtl) == End(a, d, rtl)
    ensures Across(cur, r, if inner.Some? then inner
                           else if direction == heading.Across() && !heading.Forward() then Some(corner)
                           else None, heading, rtl)
  {
  }

  function NeighborRect(n: Node, id: string, heading: Heading, r: Rect, rtl: bool): Option<Rect> {
    var q := Neighbor(n, id, heading);
    if q.Some? then Some(RectOf(n, q.value, r, rtl)) else None
  }

  /** The neighbour is another pane of the layout. */
  lemma {:induction false} NeighborIsAnotherPane(n: Node, id: string, heading: Heading)
    requires Distinct(n)
    ensures Neighbor(n, id, heading).Some? ==> Neighbor(n, id, heading).value in PaneIds(n) - {id}
  {
    if n.Split? {
      NeighborIsAnotherPane(n.first, id, heading);
      NeighborIsAnotherPane(n.second, id, heading);
      CornersAreLeaves(n.first);
      CornersAreLeaves(n.second);
      PaneIdsAreLeaves(n.first, id);
      PaneIdsAreLeaves(n.second, id);
    }
  }

  lemma RectInChild(n: Node, id: string, r: Rect, rtl: bool)
    requires n.Split? && id in PaneIds(n)
    ensures RectOf(n, id, r, rtl) ==
            if id in PaneIds(n.first) then RectOf(n.first, id, FirstRect(r, n.direction, n.ratio, rtl), rtl)
            else RectOf(n.second, id, SecondRect(r, n.direction, n.ratio, rtl), rtl)
  {
    PaneIdsAreLeaves(n.first, id);
  }

  lemma NeighborInChild(n: Node, id: string, heading: Heading)
    requires n.Split? && id in PaneIds(n)
    ensures Neighbor(n, id, heading) ==
            if id in PaneIds(n.first) then
              if Neighbor(n.first, id, heading).Some? then Neighbor(n.first, id, heading)
              else if n.direction == heading.Across() && heading.Forward() then Some(FirstLeaf(n.second))
              else None
            else
              if Neighbor(n.second, id, heading).Some? then Neighbor(n.second, id, heading)
              else if n.direction == heading.Across() && !heading.Forward() then Some(LastLeaf(n.first))
              else None
  {
    PaneIdsAreLeaves(n.first, id);
    PaneIdsAreLeaves(n.second, id);
  }

  lemma {:induction false} NeighborLiesAcross(n: Node, id: string, heading: Heading, r: Rect, rtl: bool)
    requires Sound(n) && Distinct(n) && r.Positive() && id in PaneIds(n)
    ensures Across(RectOf(n, id, r, rtl), r, NeighborRect(n, id, heading, r, rtl), heading, rtl)
    decreases n, 1
  {
    if n.Split? {
      if id in PaneIds(n.first) {
        AcrossInFirst(n, id, heading, r, rtl);
      } else {
        AcrossInSecond(n, id, heading, r, rtl);
      }
    }
  }

  lemma {:induction false} AcrossInFirst(n: Node, id: string, heading: Heading, r: Rect, rtl: bool)
    requires n.Split? && Sound(n) && Distinct(n) && r.Positive() && id in PaneIds(n.first)
    ensures Across(RectOf(n, id, r, rtl), r, NeighborRect(n, id, heading, r, rtl), heading, rtl)
    decreases n, 0
  {
    var first, second := n.first, n.second;
    var ra, rb := FirstRect(r, n.direction, n.ratio, rtl), SecondRect(r, n.direction, n.ratio, rtl);
    var inner, corner := Neighbor(first, id, heading), FirstLeaf(second);
    ChildEdges(r, n.direction, n.ratio, rtl);
    NeighborLiesAcross(first, id, heading, ra, rtl);
    forall d ensures Begin(ra, d, rtl) <= Begin(RectOf(first, id, ra, rtl), d, rtl)
                     && End(RectOf(first, id, ra, rtl), d, rtl) <= End(ra, d, rtl) {
      PaneInside(first, id, ra, rtl, d);
    }
    forall d ensures Begin(RectOf(second, corner, rb, rtl), d, rtl) == Begin(rb, d, rtl) {
      FirstLeafInCorner(second, rb, rtl, d);
    }
    AcrossFromFirst(RectOf(first, id, ra, rtl), ra, rb, r, n.direction, NeighborRect(first, id, heading, ra, rtl),
                    RectOf(second, corner, rb, rtl), heading, rtl);
    NeighborInChild(n, id, heading);
    NeighborIsAnotherPane(first, id, heading);
    CornersAreLeaves(second);
    RectInChild(n, id, r, rtl);
    RectInChild(n, corner, r, rtl);
    if inner.Some? {
      RectInChild(n, inner.value, r, rtl);
    }
  }

  lemma {:induction false} AcrossInSecond(n: Node, id: string, heading: Heading, r: Rect, rtl: bool)
    requires n.Split? && Sound(n) && Distinct(n) && r.Positive() && id in PaneIds(n.second)
    ensures Across(RectOf(n, id, r, rtl), r, NeighborRect(n, id, heading, r, rtl), heading, rtl)
    decreases n, 0
  {
    var first, second := n.first, n.second;
    var ra, rb := FirstRect(r, n.direction, n.ratio, rtl), SecondRect(r, n.direction, n.ratio, rtl);
    var inner, corner := Neighbor(second, id, heading), LastLeaf(first);
    ChildEdges(r, n.direction, n.ratio, rtl);
    NeighborLiesAcross(second, id, heading, rb, rtl);
    forall d ensures Begin(rb, d, rtl) <= Begin(RectOf(second, id, rb, rtl), d, rtl)
                     && End(RectOf(second, id, rb, rtl), d, rtl) <= End(rb, d, rtl) {
      PaneInside(second, id, rb, rtl, d);
    }
    forall d ensures End(RectOf(first, corner, ra, rtl), d, rtl) == End(ra, d, rtl) {
      LastLeafInCorner(first, ra, rtl, d);
    }
    AcrossFromSecond(RectOf(second, id, rb, rtl), ra, rb, r, n.direction, NeighborRect(second, id, heading, rb, rtl),
                     RectOf(first, corner, ra, rtl), heading, rtl);
    NeighborInChild(n, id, heading);
    NeighborIsAnotherPane(second, id, heading);
    CornersAreLeaves(first);
    RectInChild(n, id, r, rtl);
    RectInChild(n, corner, r, rtl);
    if inner.Some? {
      RectInChild(n, inner.value, r, rtl);
    }
  }

  // ---------- The named side of the screen ----------

  /** `q` starts on the edge line where `cur` ends on the side the heading names. */
  ghost predicate OnNamedSide(cur: Rect, q: Rect, heading: Heading) {
    match heading
    case Left => q.x + q.w == cur.x
    case Right => q.x == cur.x + cur.w
    case Up => q.y + q.h == cur.y
    case Down => q.y == cur.y + cur.h
  }

  ghost predicate TouchesNamedSide(cur: Rect, r: Rect, heading: Heading) {
    match heading
    case Left => cur.x == r.x
    case Right => cur.x + cur.w == r.x + r.w
    case Up => cur.y == r.y
    case Down => cur.y + cur.h == r.y + r.h
  }

  /** A row laid out right to left mirrors the two horizontal headings. */
  function OnScreen(heading: Heading, rtl: bool): Heading {
    if rtl && heading.Across() == Horizontal then heading.Reverse() else heading
  }

  /**
   The neighbour is geometrically right, for the side of the screen that the heading
   denotes in this writing direction: it starts on the edge line where the current
   pane ends, and there is none exactly at the edge of the workspace.
   */
  lemma NeighborIsGeometric(root: Node, id: string, heading: Heading, r: Rect, rtl: bool)
    requires Sound(root) && Distinct(root) && r.Positive() && id in PaneIds(root)
    ensures Neighbor(root, id, heading).None? <==>
            TouchesNamedSide(RectOf(root, id, r, rtl), r, OnScreen(heading, rtl))
    ensures Neighbor(root, id, heading).Some? ==>
              var q := Neighbor(root, id, heading).value;
              && q in PaneIds(root) && q != id
              && OnNamedSide(RectOf(root, id, r, rtl), RectOf(root, q, r, rtl), OnScreen(heading, rtl))
  {
    NeighborLiesAcross(root, id, heading, r, rtl);
    NeighborIsAnotherPane(root, id, heading);
  }

  /** So the arrow keys agree with the screen exactly when the row is not mirrored. */
  lemma ArrowKeysMatchScreenIff(root: Node, id: string, heading: Heading, r: Rect, rtl: bool)
    requires Sound(root) && Distinct(root) && r.Positive() && id in PaneIds(root)
    requires Neighbor(root, id, heading).Some?
    ensures OnNamedSide(RectOf(root, id, r, rtl), RectOf(root, Neighbor(root, id, heading).value, r, rtl), heading)
            <==> !(rtl && heading.Across() == Horizontal)
  {
    var q := Neighbor(root, id, heading).value;
    NeighborIsGeometric(root, id, heading, r, rtl);
    PaneInside(root, id, r, rtl, Horizontal);
    PaneInside(root, q, r, rtl, Horizontal);
  }

  /** The two panes share a stretch of the edge line, not just a point of it. */
  ghost predicate Faces(cur: Rect, q: Rect, heading: Heading, rtl: bool) {
    var cross := Other(heading.Across());
    Begin(q, cross, rtl) < End(cur, cross, rtl) && Begin(cur, cross, rtl) < End(q, cross, rtl)
  }

  /** On the side that is nearer to where the neighbour sits, the two always overlap. */
  lemma NeighborReachesBack(root: Node, id: string, heading: Heading, r: Rect, rtl: bool)
    requires Sound(root) && Distinct(root) && r.Positive() && id in PaneIds(root)
    requires Neighbor(root, id, heading).Some?
    ensures var cross := Other(heading.Across());
            var cur, q := RectOf(root, id, r, rtl), RectOf(root, Neighbor(root, id, heading).value, r, rtl);
            if heading.Forward() then Begin(q, cross, rtl) < End(cur, cross, rtl)
            else Begin(cur, cross, rtl) < End(q, cross, rtl)
  {
    var q := Neighbor(root, id, heading).value;
    NeighborLiesAcross(root, id, heading, r, rtl);
    PaneInside(root, id, r, rtl, Other(heading.Across()));
    PaneInside(root, q, r, rtl, Other(heading.Across()));
  }
}
