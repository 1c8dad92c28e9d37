/**
 Directional focus: which pane the arrow keys move to. The search reads only the
 shape of the tree; the theorems say what it means on the screen.
 */
module Directional {
  import opened Geometry
  import opened Layout
  import opened Options

  datatype Heading = Left | Right | Up | Down {
    /** The split direction this heading crosses. */
    function Across(): Direction {
      if this == Left || this == Right then Horizontal else Vertical
    }

    /** Right and down leave a split's first child, left and up its second. */
    predicate Forward() {
      this == Right || this == Down
    }

    function Reverse(): Heading {
      match this
      case Left => Right
      case Right => Left
      case Up => Down
      case Down => Up
    }
  }

  datatype Side = First | Second

  /** One ancestor of the pane being searched for, and the side the pane is on. */
  datatype Step = Step(node: Node, side: Side) {
    ghost predicate Valid() { node.Split? }

    function Sibling(): Node
      requires node.Split?
    {
      if side == First then node.second else node.first
    }
  }

  function FirstLeaf(n: Node): string {
    match n
    case Pane(id) => id
    case Split(_, _, _, first, _) => FirstLeaf(first)
  }

  function LastLeaf(n: Node): string {
    match n
    case Pane(id) => id
    case Split(_, _, _, _, second) => LastLeaf(second)
  }

  lemma {:induction false} CornersAreLeaves(n: Node)
    ensures FirstLeaf(n) in PaneIds(n) && LastLeaf(n) in PaneIds(n)
  {
    if n.Split? {
      CornersAreLeaves(n.first);
      CornersAreLeaves(n.second);
    }
  }

  // ---------- What the search computes ----------

  /** The neighbour by recursion on the tree: the innermost split crossed by the heading decides. */
  function Neighbor(n: Node, id: string, heading: Heading): Option<string> {
    match n
    case Pane(_) => None
    case Split(_, direction, _, first, second) =>
      if FindPane(first, id).Some? then
        var inner := Neighbor(first, id, heading);
        if inner.Some? then inner
        else if direction == heading.Across() && heading.Forward() then Some(FirstLeaf(second))
        else None
      else
        var inner := Neighbor(second, id, heading);
        if inner.Some? then inner
        else if FindPane(second, id).Some? && direction == heading.Across() && !heading.Forward() then
          Some(LastLeaf(first))
        else None
  }

  ghost function PathTo(n: Node, id: string): seq<Step> {
    match n
    case Pane(_) => []
    case Split(_, _, _, first, second) =>
      if FindPane(first, id).Some? then PathTo(first, id) + [Step(n, First)]
      else if FindPane(second, id).Some? then PathTo(second, id) + [Step(n, Second)]
      else []
  }

  predicate Crosses(step: Step, heading: Heading)
    requires step.node.Split?
  {
    step.node.direction == heading.Across() && step.side == (if heading.Forward() then First else Second)
  }

  ghost predicate ValidPath(path: seq<Step>) {
    forall i :: 0 <= i < |path| ==> path[i].Valid()
  }

  /** The leaf that the first crossing step of a path leads to. */
  ghost function Scan(path: seq<Step>, heading: Heading): Option<string>
    requires ValidPath(path)
  {
    if path == [] then None
    else if Crosses(path[0], heading) then
      Some(if heading.Forward() then FirstLeaf(path[0].Sibling()) else LastLeaf(path[0].Sibling()))
    else Scan(path[1..], heading)
  }

  lemma {:induction false} ScanAppend(a: seq<Step>, b: seq<Step>, heading: Heading)
    requires ValidPath(a) && ValidPath(b)
    ensures Scan(a + b, heading) == if Scan(a, heading).Some? then Scan(a, heading) else Scan(b, heading)
  {
    if a == [] {
      assert a + b == b;
    } else {
      assert (a + b)[1..] == a[1..] + b;
      ScanAppend(a[1..], b, heading);
    }
  }

  lemma {:induction false} ScanFindsNeighbor(n: Node, id: string, heading: Heading)
    ensures ValidPath(PathTo(n, id))
    ensures Scan(PathTo(n, id), heading) == Neighbor(n, id, heading)
  {
    match n
    case Pane(_) =>
    case Split(_, _, _, first, second) =>
      ScanFindsNeighbor(first, id, heading);
      ScanFindsNeighbor(second, id, heading);
      if FindPane(first, id).Some? {
        ScanAppend(PathTo(first, id), [Step(n, First)], heading);
      } else if FindPane(second, id).Some? {
        ScanAppend(PathTo(second, id), [Step(n, Second)], heading);
      } else {
        NoPaneNoNeighbor(second, id, heading);
      }
  }

  lemma {:induction false} NoPaneNoNeighbor(n: Node, id: string, heading: Heading)
    requires FindPane(n, id).None?
    ensures Neighbor(n, id, heading).None?
  {
    if n.Split? {
      NoPaneNoNeighbor(n.second, id, heading);
    }
  }

  // ---------- The search as it is written ----------

  /** The path array that the recursive walk fills on its way back up. */
  class PathRecorder {
    var path: seq<Step>

    constructor ()
      ensures path == []
    {
      path := [];
    }

    method Walk(n: Node, id: string) returns (found: bool)
      modifies this
      ensures found <==> FindPane(n, id).Some?
      ensures path == old(path) + PathTo(n, id)
      decreases n
    {
      if n.Pane? {
        return n.paneId == id;
      }
      found := Walk(n.first, id);
      if found {
        path := path + [Step(n, First)];
        return;
      }
      found := Walk(n.second, id);
      if found {
        path := path + [Step(n, Second)];
        return;
      }
    }
  }

  method Descend(n: Node, side: Side) returns (id: string)
    ensures id == if side == First then FirstLeaf(n) else LastLeaf(n)
  {
    var cur := n;
    while cur.Split?
      invariant FirstLeaf(n) == FirstLeaf(cur) || side == Second
      invariant LastLeaf(n) == LastLeaf(cur) || side == First
      decreases cur
    {
      cur := if side == First then cur.first else cur.second;
    }
    return cur.paneId;
  }

  method FirstCrossing(path: seq<Step>, heading: Heading) returns (r: Option<string>)
    requires ValidPath(path)
    ensures r == Scan(path, heading)
  {
    var needed := heading.Across();
    var seekSide := if heading.Forward() then First else Second;
    for i := 0 to |path|
      invariant Scan(path[i..], heading) == Scan(path, heading)
    {
      var step := path[i];
      assert step.Valid() && path[i..][1..] == path[i + 1..];
      if step.node.direction == needed && step.side == seekSide {
        var leaf := Descend(step.Sibling(), seekSide);
        return Some(leaf);
      }
    }
    return None;
  }

  method FindDirectionalNeighbor(root: Node, id: string, heading: Heading) returns (r: Option<string>)
    ensures r == Neighbor(root, id, heading)
  {
    var recorder := new PathRecorder();
    var found := recorder.Walk(root, id);
    if !found {
      NoPaneNoNeighbor(root, id, heading);
      return None;
    }
    assert recorder.path == PathTo(root, id);
    ScanFindsNeighbor(root, id, heading);
    r := FirstCrossing(recorder.path, heading);
  }
}
