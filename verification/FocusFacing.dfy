/**
 The pane that directional focus returns always starts on the right edge line, but it
 need not face the current pane. Which of the two it is can be read off the two sides
 of the crossed split: how much of their common extent lies before the current pane,
 and how much of it the corner leaf takes.
 */
module FocusFacing {
  import opened Directional
  import opened FocusGeometry
  import opened FocusMoves
  import opened Geometry
  import opened Layout
  import opened Options

  // ---------- Shares of an extent ----------

  /** The share of the layout's extent in one direction that lies before a pane. */
  function ShareBefore(n: Node, id: string, d: Direction): real {
    match n
    case Pane(_) => 0.0
    case Split(_, direction, ratio, first, second) =>
      if FindPane(first, id).Some? then
        if direction == d then Share(ratio, ShareBefore(first, id, d)) else ShareBefore(first, id, d)
      else
        if direction == d then ratio + Share(1.0 - ratio, ShareBefore(second, id, d)) else ShareBefore(second, id, d)
  }

  /** The share that lies after it. */
  function ShareAfter(n: Node, id: string, d: Direction): real {
    match n
    case Pane(_) => 0.0
    case Split(_, direction, ratio, first, second) =>
      if FindPane(first, id).Some? then
        if direction == d then Share(ratio, ShareAfter(first, id, d)) + (1.0 - ratio) else ShareAfter(first, id, d)
      else
        if direction == d then Share(1.0 - ratio, ShareAfter(second, id, d)) else ShareAfter(second, id, d)
  }

  /** The share that the first leaf takes: the product of the ratios along the first children. */
  function FirstSpan(n: Node, d: Direction): real {
    match n
    case Pane(_) => 1.0
    case Split(_, direction, ratio, first, _) =>
      if direction == d then Share(ratio, FirstSpan(first, d)) else FirstSpan(first, d)
  }

  function LastSpan(n: Node, d: Direction): real {
    match n
    case Pane(_) => 1.0
    case Split(_, direction, ratio, _, second) =>
      if direction == d then Share(1.0 - ratio, LastSpan(second, d)) else LastSpan(second, d)
  }

  lemma ShareOfShare(length: real, a: real, b: real)
    ensures Share(Share(length, a), b) == Share(length, Share(a, b))
  {
  }

  lemma ShareOfSum(length: real, a: real, b: real)
    ensures Share(length, a + b) == Share(length, a) + Share(length, b)
  {
  }

  lemma ShareOrder(length: real, a: real, b: real)
    requires length > 0.0
    ensures Share(length, a) < Share(length, b) <==> a < b
  {
    ShareOfSum(length, a, b - a);
    if a < b {
      ProductPositive(length, b - a);
    } else {
      ShareOfSum(length, b, a - b);
      ProductNonNegative(length, a - b);
    }
  }

  lemma ChildExtents(r: Rect, direction: Direction, ratio: real, rtl: bool, d: Direction)
    ensures var a, b := FirstRect(r, direction, ratio, rtl), SecondRect(r, direction, ratio, rtl);
            && Begin(a, d, rtl) == Begin(r, d, rtl) && End(b, d, rtl) == End(r, d, rtl)
            && (d != direction ==> Begin(b, d, rtl) == Begin(r, d, rtl) && End(a, d, rtl) == End(r, d, rtl)
                                   && Length(a, d) == Length(b, d) == Length(r, d))
            && (d == direction ==> Length(a, d) == Share(Length(r, d), ratio)
                                   && Length(b, d) == Share(Length(r, d), 1.0 - ratio)
                                   && Begin(b, d, rtl) == Begin(r, d, rtl) + Share(Length(r, d), ratio)
                                   && End(a, d, rtl) == End(r, d, rtl) - Share(Length(r, d), 1.0 - ratio))
  {
    SharesAddUp(Length(r, direction), ratio);
  }

  lemma {:induction false} PaneBegins(n: Node, id: string, r: Rect, rtl: bool, d: Direction)
    ensures Begin(RectOf(n, id, r, rtl), d, rtl) == Begin(r, d, rtl) + Share(Length(r, d), ShareBefore(n, id, d))
  {
    if n.Split? {
      ChildExtents(r, n.direction, n.ratio, rtl, d);
      if FindPane(n.first, id).Some? {
        PaneBegins(n.first, id, FirstRect(r, n.direction, n.ratio, rtl), rtl, d);
        ShareOfShare(Length(r, d), n.ratio, ShareBefore(n.first, id, d));
      } else {
        PaneBegins(n.second, id, SecondRect(r, n.direction, n.ratio, rtl), rtl, d);
        ShareOfShare(Length(r, d), 1.0 - n.ratio, ShareBefore(n.second, id, d));
        ShareOfSum(Length(r, d), n.ratio, Share(1.0 - n.ratio, ShareBefore(n.second, id, d)));
      }
    }
  }

  lemma {:induction false} PaneEnds(n: Node, id: string, r: Rect, rtl: bool, d: Direction)
    ensures End(RectOf(n, id, r, rtl), d, rtl) == End(r, d, rtl) - Share(Length(r, d), ShareAfter(n, id, d))
  {
    if n.Split? {
      ChildExtents(r, n.direction, n.ratio, rtl, d);
      if FindPane(n.first, id).Some? {
        PaneEnds(n.first, id, FirstRect(r, n.direction, n.ratio, rtl), rtl, d);
        ShareOfShare(Length(r, d), n.ratio, ShareAfter(n.first, id, d));
        ShareOfSum(Length(r, d), Share(n.ratio, ShareAfter(n.first, id, d)), 1.0 - n.ratio);
      } else {
        PaneEnds(n.second, id, SecondRect(r, n.direction, n.ratio, rtl), rtl, d);
        ShareOfShare(Length(r, d), 1.0 - n.ratio, ShareAfter(n.second, id, d));
      }
    }
  }

  lemma {:induction false} FirstLeafEnds(n: Node, r: Rect, rtl: bool, d: Direction)
    ensures End(RectOf(n, FirstLeaf(n), r, rtl), d, rtl) == Begin(r, d, rtl) + Share(Length(r, d), FirstSpan(n, d))
  {
    if n.Split? {
      CornersAreLeaves(n.first);
      PaneIdsAreLeaves(n.first, FirstLeaf(n.first));
      ChildExtents(r, n.direction, n.ratio, rtl, d);
      FirstLeafEnds(n.first, FirstRect(r, n.direction, n.ratio, rtl), rtl, d);
      ShareOfShare(Length(r, d), n.ratio, FirstSpan(n.first, d));
    }
  }

  lemma {:induction false} LastLeafBegins(n: Node, r: Rect, rtl: bool, d: Direction)
    requires Distinct(n)
    ensures Begin(RectOf(n, LastLeaf(n), r, rtl), d, rtl) == End(r, d, rtl) - Share(Length(r, d), LastSpan(n, d))
  {
    if n.Split? {
      CornersAreLeaves(n.second);
      PaneIdsAreLeaves(n.first, LastLeaf(n.second));
      ChildExtents(r, n.direction, n.ratio, rtl, d);
      LastLeafBegins(n.second, SecondRect(r, n.direction, n.ratio, rtl), rtl, d);
      ShareOfShare(Length(r, d), 1.0 - n.ratio, LastSpan(n.second, d));
    }
  }

  // ---------- When the neighbour faces the current pane ----------

  /**
   Read off the crossed split: the corner leaf on the far side reaches further along the
   divider than the current pane is away from the end where that leaf sits.
   */
  predicate OpensOnto(crossed: Node, id: string, heading: Heading)
    requires crossed.Split?
  {
    var cross := Other(heading.Across());
    if heading.Forward() then ShareBefore(crossed.first, id, cross) < FirstSpan(crossed.second, cross)
    else ShareAfter(crossed.second, id, cross) < LastSpan(crossed.first, cross)
  }

  /** The far condition of `Faces`; `NeighborReachesBack` gives the near one. */
  ghost predicate ReachesAhead(n: Node, id: string, q: string, heading: Heading, r: Rect, rtl: bool) {
    var cross := Other(heading.Across());
    if heading.Forward() then Begin(RectOf(n, id, r, rtl), cross, rtl) < End(RectOf(n, q, r, rtl), cross, rtl)
    else Begin(RectOf(n, q, r, rtl), cross, rtl) < End(RectOf(n, id, r, rtl), cross, rtl)
  }

  lemma ReachesAtCrossing(n: Node, id: string, heading: Heading, r: Rect, rtl: bool)
    requires n.Split? && Sound(n) && Distinct(n) && r.Positive() && n.direction == heading.Across()
    requires id in PaneIds(if heading.Forward() then n.first else n.second)
    ensures ReachesAhead(n, id, if heading.Forward() then FirstLeaf(n.second) else LastLeaf(n.first), heading, r, rtl)
            <==> OpensOnto(n, id, heading)
  {
    var cross := Other(heading.Across());
    var ra, rb := FirstRect(r, n.direction, n.ratio, rtl), SecondRect(r, n.direction, n.ratio, rtl);
    ChildExtents(r, n.direction, n.ratio, rtl, cross);
    CornersAreLeaves(n.first);
    CornersAreLeaves(n.second);
    RectInChild(n, id, r, rtl);
    if heading.Forward() {
      RectInChild(n, FirstLeaf(n.second), r, rtl);
      PaneBegins(n.first, id, ra, rtl, cross);
      FirstLeafEnds(n.second, rb, rtl, cross);
      ShareOrder(Length(r, cross), ShareBefore(n.first, id, cross), FirstSpan(n.second, cross));
    } else {
      RectInChild(n, LastLeaf(n.first), r, rtl);
      PaneEnds(n.second, id, rb, rtl, cross);
      LastLeafBegins(n.first, ra, rtl, cross);
      ShareOrder(Length(r, cross), ShareAfter(n.second, id, cross), LastSpan(n.first, cross));
    }
  }

  lemma {:induction false} ReachesIff(n: Node, id: string, heading: Heading, r: Rect, rtl: bool)
    requires Sound(n) && Distinct(n) && r.Positive() && id in PaneIds(n) && Neighbor(n, id, heading).Some?
    ensures Crossing(n, id, heading).Some? && Crossing(n, id, heading).value.Split?
    ensures ReachesAhead(n, id, Neighbor(n, id, heading).value, heading, r, rtl)
            <==> OpensOnto(Crossing(n, id, heading).value, id, heading)
  {
    var inFirst := id in PaneIds(n.first);
    var child := if inFirst then n.first else n.second;
    PaneIdsAreLeaves(n.first, id);
    NeighborInChild(n, id, heading);
    if Neighbor(child, id, heading).Some? {
      var q := Neighbor(child, id, heading).value;
      SplitRects(r, n.direction, n.ratio, rtl);
      NeighborIsAnotherPane(child, id, heading);
      RectInChild(n, id, r, rtl);
      RectInChild(n, q, r, rtl);
      ReachesIff(child, id, heading, if inFirst then FirstRect(r, n.direction, n.ratio, rtl)
                                     else SecondRect(r, n.direction, n.ratio, rtl), rtl);
    } else {
      NoCrossing(child, id, heading);
      ReachesAtCrossing(n, id, heading, r, rtl);
    }
  }

  /** The neighbour in the layout shares a stretch of the edge line with the pane. */
  ghost predicate FacesNeighbor(n: Node, id: string, heading: Heading, r: Rect, rtl: bool) {
    var q := Neighbor(n, id, heading);
    q.Some? && Faces(RectOf(n, id, r, rtl), RectOf(n, q.value, r, rtl), heading, rtl)
  }

  /**
   Right or down, the neighbour faces the pane exactly when less of the crossed split's
   first side lies before the pane than the first leaf of its second side takes up, both
   as shares along the divider; left or up, the mirror image.
   */
  lemma NeighborFacesIff(n: Node, id: string, heading: Heading, r: Rect, rtl: bool)
    requires Sound(n) && Distinct(n) && r.Positive() && id in PaneIds(n) && Neighbor(n, id, heading).Some?
    ensures Crossing(n, id, heading).Some? && Crossing(n, id, heading).value.Split?
    ensures FacesNeighbor(n, id, heading, r, rtl) <==> OpensOnto(Crossing(n, id, heading).value, id, heading)
  {
    ReachesIff(n, id, heading, r, rtl);
    NeighborReachesBack(n, id, heading, r, rtl);
  }

  // ---------- Whatever the ratios ----------

  /** The same tree up to its ratios. */
  ghost predicate SameShape(n: Node, m: Node) {
    match n
    case Pane(_) => m == n
    case Split(splitId, direction, _, first, second) =>
      && m.Split? && m.splitId == splitId && m.direction == direction
      && SameShape(first, m.first) && SameShape(second, m.second)
  }

  /** No split of that direction has the pane on its second side. */
  predicate NeverSecond(n: Node, id: string, d: Direction) {
    match n
    case Pane(_) => true
    case Split(_, direction, _, first, second) =>
      if FindPane(first, id).Some? then NeverSecond(first, id, d) else direction != d && NeverSecond(second, id, d)
  }

  predicate NeverFirst(n: Node, id: string, d: Direction) {
    match n
    case Pane(_) => true
    case Split(_, direction, _, first, second) =>
      if FindPane(first, id).Some? then direction != d && NeverFirst(first, id, d) else NeverFirst(second, id, d)
  }

  /** No split of that direction lies on the way to the first leaf. */
  predicate FirstUncut(n: Node, d: Direction) {
    n.Split? ==> n.direction != d && FirstUncut(n.first, d)
  }

  predicate LastUncut(n: Node, d: Direction) {
    n.Split? ==> n.direction != d && LastUncut(n.second, d)
  }

  lemma {:induction false} BeforeBounds(n: Node, id: string, d: Direction)
    requires Sound(n)
    ensures 0.0 <= ShareBefore(n, id, d) < 1.0 && (ShareBefore(n, id, d) == 0.0 <==> NeverSecond(n, id, d))
    ensures 0.0 <= ShareAfter(n, id, d) < 1.0 && (ShareAfter(n, id, d) == 0.0 <==> NeverFirst(n, id, d))
  {
    if n.Split? {
      BeforeBounds(n.first, id, d);
      BeforeBounds(n.second, id, d);
      PartBounds(n.ratio, ShareBefore(n.first, id, d));
      PartBounds(1.0 - n.ratio, ShareBefore(n.second, id, d));
      PartBounds(n.ratio, ShareAfter(n.first, id, d));
      PartBounds(1.0 - n.ratio, ShareAfter(n.second, id, d));
    }
  }

  lemma {:induction false} SpanBounds(n: Node, d: Direction)
    requires Sound(n)
    ensures 0.0 < FirstSpan(n, d) <= 1.0 && (FirstSpan(n, d) == 1.0 <==> FirstUncut(n, d))
    ensures 0.0 < LastSpan(n, d) <= 1.0 && (LastSpan(n, d) == 1.0 <==> LastUncut(n, d))
  {
    if n.Split? {
      SpanBounds(n.first, d);
      SpanBounds(n.second, d);
      PartBounds(n.ratio, FirstSpan(n.first, d));
      PartBounds(1.0 - n.ratio, LastSpan(n.second, d));
    }
  }

  lemma PartBounds(whole: real, part: real)
    requires 0.0 < whole < 1.0 && 0.0 <= part <= 1.0
    ensures 0.0 <= Share(whole, part) <= whole && (Share(whole, part) == 0.0 <==> part == 0.0)
    ensures part < 1.0 ==> Share(whole, part) < whole
  {
    ShareOfSum(whole, part, 1.0 - part);
    ProductNonNegative(whole, 1.0 - part);
    ProductNonNegative(whole, part);
    if part > 0.0 {
      ProductPositive(whole, part);
    }
    if part < 1.0 {
      ProductPositive(whole, 1.0 - part);
    }
  }

  lemma {:induction false} ShapeDecides(n: Node, m: Node, id: string, heading: Heading)
    requires SameShape(n, m)
    ensures PaneIds(m) == PaneIds(n) && FindPane(m, id) == FindPane(n, id)
    ensures FirstLeaf(m) == FirstLeaf(n) && LastLeaf(m) == LastLeaf(n)
    ensures Distinct(m) <==> Distinct(n)
    ensures Neighbor(m, id, heading) == Neighbor(n, id, heading)
  {
    if n.Split? {
      ShapeDecides(n.first, m.first, id, heading);
      ShapeDecides(n.second, m.second, id, heading);
    }
  }

  lemma {:induction false} ShapeDecidesCuts(n: Node, m: Node, id: string, d: Direction)
    requires SameShape(n, m)
    ensures NeverSecond(m, id, d) == NeverSecond(n, id, d) && NeverFirst(m, id, d) == NeverFirst(n, id, d)
    ensures FirstUncut(m, d) == FirstUncut(n, d) && LastUncut(m, d) == LastUncut(n, d)
  {
    if n.Split? {
      ShapeDecides(n.first, m.first, id, Right);
      ShapeDecidesCuts(n.first, m.first, id, d);
      ShapeDecidesCuts(n.second, m.second, id, d);
    }
  }

  lemma {:induction false} CrossingKeepsShape(n: Node, m: Node, id: string, heading: Heading)
    requires SameShape(n, m) && Crossing(n, id, heading).Some?
    ensures Crossing(m, id, heading).Some? && SameShape(Crossing(n, id, heading).value, Crossing(m, id, heading).value)
    ensures Sound(m) ==> Sound(Crossing(m, id, heading).value)
  {
    if n.Split? {
      ShapeDecides(n.first, m.first, id, heading);
      var inFirst := FindPane(n.first, id).Some?;
      var a, b := if inFirst then n.first else n.second, if inFirst then m.first else m.second;
      if Crossing(a, id, heading).Some? {
        CrossingKeepsShape(a, b, id, heading);
      } else {
        NoCrossingByShape(a, b, id, heading);
      }
    }
  }

  lemma {:induction false} NoCrossingByShape(n: Node, m: Node, id: string, heading: Heading)
    requires SameShape(n, m) && Crossing(n, id, heading).None?
    ensures Crossing(m, id, heading).None?
  {
    if n.Split? {
      ShapeDecides(n.first, m.first, id, heading);
      var inFirst := FindPane(n.first, id).Some?;
      NoCrossingByShape(if inFirst then n.first else n.second, if inFirst then m.first else m.second, id, heading);
    }
  }

  lemma {:induction false} CrossedSides(n: Node, id: string, heading: Heading)
    requires Distinct(n) && id in PaneIds(n) && Crossing(n, id, heading).Some?
    ensures var c := Crossing(n, id, heading).value;
            && c.Split? && Distinct(c)
            && id in PaneIds(if heading.Forward() then c.first else c.second)
  {
    if n.Split? {
      PaneIdsAreLeaves(n.first, id);
      var child := if id in PaneIds(n.first) then n.first else n.second;
      if Crossing(child, id, heading).Some? {
        CrossedSides(child, id, heading);
      }
    }
  }

  /** The pane starts at the end of the divider where the corner leaf sits, or that leaf takes up all of it. */
  predicate OpensByShape(crossed: Node, id: string, heading: Heading)
    requires crossed.Split?
  {
    var cross := Other(heading.Across());
    if heading.Forward() then NeverSecond(crossed.first, id, cross) || FirstUncut(crossed.second, cross)
    else NeverFirst(crossed.second, id, cross) || LastUncut(crossed.first, cross)
  }

  lemma ShapeSuffices(crossed: Node, id: string, heading: Heading)
    requires crossed.Split? && Sound(crossed) && OpensByShape(crossed, id, heading)
    ensures OpensOnto(crossed, id, heading)
  {
    var cross := Other(heading.Across());
    BeforeBounds(crossed.first, id, cross);
    BeforeBounds(crossed.second, id, cross);
    SpanBounds(crossed.first, cross);
    SpanBounds(crossed.second, cross);
  }

  /** The side that holds `q` gets the share `b` at every split around `q`; all other splits are even. */
  function Squeezed(n: Node, q: string, b: real): Node {
    match n
    case Pane(_) => n
    case Split(_, _, _, first, second) =>
      n.(ratio := if FindPane(first, q).Some? then b else if FindPane(second, q).Some? then 1.0 - b else 0.5,
         first := Squeezed(first, q, b), second := Squeezed(second, q, b))
  }

  lemma {:induction false} SqueezedKeepsShape(n: Node, q: string, b: real)
    requires 0.0 < b < 1.0
    ensures SameShape(n, Squeezed(n, q, b)) && Sound(Squeezed(n, q, b))
  {
    if n.Split? {
      SqueezedKeepsShape(n.first, q, b);
      SqueezedKeepsShape(n.second, q, b);
    }
  }

  lemma {:induction false} SqueezedElsewhere(n: Node, q: string, b: real)
    requires q !in PaneIds(n)
    ensures Squeezed(n, q, b) == ResetRatios(n)
  {
    if n.Split? {
      PaneIdsAreLeaves(n.first, q);
      PaneIdsAreLeaves(n.second, q);
      SqueezedElsewhere(n.first, q, b);
      SqueezedElsewhere(n.second, q, b);
    }
  }

  lemma {:induction false} CrossingSqueezed(n: Node, id: string, heading: Heading, q: string, b: real)
    requires 0.0 < b < 1.0
    ensures Crossing(Squeezed(n, q, b), id, heading) ==
            if Crossing(n, id, heading).Some? then Some(Squeezed(Crossing(n, id, heading).value, q, b)) else None
  {
    if n.Split? {
      SqueezedKeepsShape(n.first, q, b);
      ShapeDecides(n.first, Squeezed(n.first, q, b), id, heading);
      CrossingSqueezed(n.first, id, heading, q, b);
      CrossingSqueezed(n.second, id, heading, q, b);
    }
  }

  /** Squeezed around its first leaf, a layout with a cut on the way there leaves it at most the share `b`. */
  lemma {:induction false} SqueezedFirstSpan(n: Node, b: real, d: Direction)
    requires 0.0 < b < 1.0 && !FirstUncut(n, d)
    ensures FirstSpan(Squeezed(n, FirstLeaf(n), b), d) <= b
  {
    CornersAreLeaves(n.first);
    PaneIdsAreLeaves(n.first, FirstLeaf(n));
    SqueezedKeepsShape(n.first, FirstLeaf(n), b);
    SpanBounds(Squeezed(n.first, FirstLeaf(n), b), d);
    if n.direction == d {
      PartBounds(b, FirstSpan(Squeezed(n.first, FirstLeaf(n), b), d));
    } else {
      SqueezedFirstSpan(n.first, b, d);
    }
  }

  lemma {:induction false} SqueezedLastSpan(n: Node, b: real, d: Direction)
    requires 0.0 < b < 1.0 && !LastUncut(n, d) && Distinct(n)
    ensures LastSpan(Squeezed(n, LastLeaf(n), b), d) <= b
  {
    CornersAreLeaves(n.second);
    PaneIdsAreLeaves(n.first, LastLeaf(n));
    PaneIdsAreLeaves(n.second, LastLeaf(n));
    SqueezedKeepsShape(n.second, LastLeaf(n), b);
    SpanBounds(Squeezed(n.second, LastLeaf(n), b), d);
    if n.direction == d {
      PartBounds(b, LastSpan(Squeezed(n.second, LastLeaf(n), b), d));
    } else {
      SqueezedLastSpan(n.second, b, d);
    }
  }

  /** Otherwise some ratios make the leaf too short: those that leave it what lies before the pane. */
  lemma ShapeNeeded(crossed: Node, id: string, heading: Heading)
    requires crossed.Split? && Distinct(crossed) && !OpensByShape(crossed, id, heading)
    ensures exists q, b :: 0.0 < b < 1.0 && !OpensOnto(Squeezed(crossed, q, b), id, heading)
  {
    var cross := Other(heading.Across());
    var near := if heading.Forward() then crossed.first else crossed.second;
    CornersAreLeaves(crossed.first);
    CornersAreLeaves(crossed.second);
    LeavesOfReset(near);
    ResetKeepsShape(near);
    ShapeDecidesCuts(near, ResetRatios(near), id, cross);
    BeforeBounds(ResetRatios(near), id, cross);
    if heading.Forward() {
      var q, b := FirstLeaf(crossed.second), ShareBefore(ResetRatios(near), id, cross);
      SqueezedElsewhere(near, q, b);
      SqueezedFirstSpan(crossed.second, b, cross);
      assert !OpensOnto(Squeezed(crossed, q, b), id, heading);
    } else {
      var q, b := LastLeaf(crossed.first), ShareAfter(ResetRatios(near), id, cross);
      SqueezedElsewhere(near, q, b);
      SqueezedLastSpan(crossed.first, b, cross);
      assert !OpensOnto(Squeezed(crossed, q, b), id, heading);
    }
  }

  lemma {:induction false} ResetKeepsShape(n: Node)
    ensures SameShape(n, ResetRatios(n))
  {
    if n.Split? {
      ResetKeepsShape(n.first);
      ResetKeepsShape(n.second);
    }
  }

  /**
   Whatever the ratios, the neighbour faces the pane exactly when the shape says so: on
   the pane's side no split along the divider has it on the far side, or none lies on
   the way to the corner leaf.
   */
  lemma FacesForAllRatiosIff(n: Node, id: string, heading: Heading, r: Rect, rtl: bool)
    requires Distinct(n) && r.Positive() && id in PaneIds(n) && Neighbor(n, id, heading).Some?
    ensures Crossing(n, id, heading).Some? && Crossing(n, id, heading).value.Split?
    ensures (forall m :: SameShape(n, m) && Sound(m) ==> FacesNeighbor(m, id, heading, r, rtl))
            <==> OpensByShape(Crossing(n, id, heading).value, id, heading)
  {
    BackFromNeighbor(n, id, heading);
    CrossedSides(n, id, heading);
    var c := Crossing(n, id, heading).value;
    if OpensByShape(c, id, heading) {
      forall m | SameShape(n, m) && Sound(m) ensures FacesNeighbor(m, id, heading, r, rtl) {
        FacesByShape(n, m, id, heading, r, rtl);
      }
    } else {
      ShapeNeeded(c, id, heading);
      var q, b :| 0.0 < b < 1.0 && !OpensOnto(Squeezed(c, q, b), id, heading);
      SqueezedDoesNotFace(n, id, heading, q, b, r, rtl);
    }
  }

  lemma FacesByShape(n: Node, m: Node, id: string, heading: Heading, r: Rect, rtl: bool)
    requires Distinct(n) && r.Positive() && id in PaneIds(n) && Neighbor(n, id, heading).Some?
    requires Crossing(n, id, heading).Some? && Crossing(n, id, heading).value.Split?
    requires OpensByShape(Crossing(n, id, heading).value, id, heading) && SameShape(n, m) && Sound(m)
    ensures FacesNeighbor(m, id, heading, r, rtl)
  {
    var c := Crossing(n, id, heading).value;
    ShapeDecides(n, m, id, heading);
    CrossingKeepsShape(n, m, id, heading);
    var d := Crossing(m, id, heading).value;
    ShapeDecidesCuts(c.first, d.first, id, Other(heading.Across()));
    ShapeDecidesCuts(c.second, d.second, id, Other(heading.Across()));
    ShapeSuffices(d, id, heading);
    NeighborFacesIff(m, id, heading, r, rtl);
  }

  lemma SqueezedDoesNotFace(n: Node, id: string, heading: Heading, q: string, b: real, r: Rect, rtl: bool)
    requires Distinct(n) && r.Positive() && id in PaneIds(n) && Neighbor(n, id, heading).Some? && 0.0 < b < 1.0
    requires Crossing(n, id, heading).Some? && Crossing(n, id, heading).value.Split?
    requires !OpensOnto(Squeezed(Crossing(n, id, heading).value, q, b), id, heading)
    ensures exists m :: SameShape(n, m) && Sound(m) && !FacesNeighbor(m, id, heading, r, rtl)
  {
    var m := Squeezed(n, q, b);
    SqueezedKeepsShape(n, q, b);
    ShapeDecides(n, m, id, heading);
    CrossingSqueezed(n, id, heading, q, b);
    NeighborFacesIff(m, id, heading, r, rtl);
    assert SameShape(n, m) && Sound(m) && !FacesNeighbor(m, id, heading, r, rtl);
  }

  // ---------- An example ----------

  /** Two columns, each cut in two at its own height. */
  function Grid(left: real, right: real): Node {
    Split("s", Horizontal, 0.5, Column("l", left, "a", "b"), Column("r", right, "c", "d"))
  }

  function Column(splitId: string, ratio: real, top: string, bottom: string): Node {
    Split(splitId, Vertical, ratio, Pane(top), Pane(bottom))
  }

  /**
   Moving right from the lower left pane always leads to the upper right one; but the two
   face each other exactly when the left column is cut higher up than the right one.
   */
  lemma GridNeighborFacesIff(left: real, right: real, r: Rect)
    requires 0.0 < left < 1.0 && 0.0 < right < 1.0 && r.Positive()
    ensures Neighbor(Grid(left, right), "b", Right) == Some("c")
    ensures FacesNeighbor(Grid(left, right), "b", Right, r, false) <==> left < right
  {
    var l, rr := Column("l", left, "a", "b"), Column("r", right, "c", "d");
    assert FindPane(l.first, "b").None? && FindPane(l, "b").Some?;
    assert FirstLeaf(rr.first) == "c" && FirstLeaf(rr) == "c";
    assert Neighbor(l.second, "b", Right).None?;
    assert Neighbor(l, "b", Right).None?;
    assert Crossing(l.second, "b", Right).None?;
    assert Crossing(l, "b", Right).None?;
    NeighborFacesIff(Grid(left, right), "b", Right, r, false);
    assert ShareBefore(l.second, "b", Vertical) == 0.0;
    assert ShareBefore(l, "b", Vertical) == left + Share(1.0 - left, 0.0) == left;
    assert FirstSpan(rr.first, Vertical) == 1.0;
    assert FirstSpan(rr, Vertical) == Share(right, 1.0) == right;
  }
}
