/**
 Walks over the workspace forest. Parent links come from a file, so they may dangle
 or form cycles; both walks must end all the same.
 */
module Workspaces {
  import opened Options
  import opened Sequences

  datatype Workspace = Workspace(id: string, parentId: Option<string>, isProjectRoot: bool)

  /** The first workspace with that id. */
  function Find(all: seq<Workspace>, id: string): (w: Option<Workspace>)
    ensures w.Some? ==> w.value in all && w.value.id == id
    ensures w.None? ==> forall x :: x in all ==> x.id != id
  {
    if all == [] then None
    else if all[0].id == id then Some(all[0])
    else Find(all[1..], id)
  }

  /** The workspace at `k` is the first with its id. */
  ghost predicate FirstWithId(all: seq<Workspace>, k: nat) {
    k < |all| && forall j :: 0 <= j < k ==> all[j].id != all[k].id
  }

  lemma {:induction false} FindIsFirst(all: seq<Workspace>, k: nat)
    requires FirstWithId(all, k)
    ensures Find(all, all[k].id) == Some(all[k])
  {
    if k > 0 {
      assert forall j :: 0 <= j < k - 1 ==> all[1..][j].id == all[j + 1].id;
      FindIsFirst(all[1..], k - 1);
    }
  }

  // ---------- The subtree under a workspace ----------

  ghost predicate ChildOf(all: seq<Workspace>, parent: string, child: string) {
    exists w :: w in all && w.id == child && w.parentId == Some(parent)
  }

  /** A walk down the links from the first id to the last. */
  ghost predicate Walk(all: seq<Workspace>, path: seq<string>) {
    path != [] && forall i :: 0 < i < |path| ==> ChildOf(all, path[i - 1], path[i])
  }

  ghost predicate Reachable(all: seq<Workspace>, root: string, id: string) {
    exists path :: Walk(all, path) && path[0] == root && path[|path| - 1] == id
  }

  lemma ReachableSelf(all: seq<Workspace>, root: string)
    ensures Reachable(all, root, root)
  {
    assert Walk(all, [root]);
  }

  lemma ReachableStep(all: seq<Workspace>, root: string, id: string, child: string)
    requires Reachable(all, root, id) && ChildOf(all, id, child)
    ensures Reachable(all, root, child)
  {
    var path :| Walk(all, path) && path[0] == root && path[|path| - 1] == id;
    var longer := path + [child];
    assert Walk(all, longer) && longer[0] == root && longer[|longer| - 1] == child;
  }

  /** A set that holds the root and is closed under child links holds everything reachable. */
  lemma {:induction false} ClosedHoldsReachable(all: seq<Workspace>, root: string, s: set<string>, path: seq<string>)
    requires root in s && forall p, c :: p in s && ChildOf(all, p, c) ==> c in s
    requires Walk(all, path) && path[0] == root
    ensures path[|path| - 1] in s
    decreases |path|
  {
    if |path| > 1 {
      var shorter := path[..|path| - 1];
      assert Walk(all, shorter);
      ClosedHoldsReachable(all, root, s, shorter);
      assert ChildOf(all, shorter[|shorter| - 1], path[|path| - 1]);
    }
  }

  ghost function Ids(ws: seq<Workspace>): set<string> {
    set w | w in ws :: w.id
  }

  ghost predicate DistinctIds(ws: seq<Workspace>) {
    forall i, j :: 0 <= i < j < |ws| ==> ws[i].id != ws[j].id
  }

  ghost function Elements(queue: seq<string>): set<string> {
    set id | id in queue
  }

  lemma ElementsOfLast(queue: seq<string>)
    requires queue != [] && NoRepeat(queue)
    ensures Elements(queue[..|queue| - 1]) == Elements(queue) - {queue[|queue| - 1]}
  {
    assert queue == queue[..|queue| - 1] + [queue[|queue| - 1]];
  }

  lemma ElementsAppend(queue: seq<string>, id: string)
    ensures Elements(queue + [id]) == Elements(queue) + {id}
  {
  }

  /** Adds the unseen children of one workspace to the seen ids and to the queue. */
  method PushChildren(all: seq<Workspace>, cur: string, seen0: set<string>, queue0: seq<string>)
    returns (seen: set<string>, queue: seq<string>)
    ensures seen == seen0 + (set w | w in all && w.parentId == Some(cur) :: w.id)
    ensures queue0 <= queue
    ensures Elements(queue) == Elements(queue0) + (seen - seen0)
    ensures NoRepeat(queue0) && Elements(queue0) <= seen0 ==> NoRepeat(queue)
  {
    seen, queue := seen0, queue0;
    for i := 0 to |all|
      invariant seen == seen0 + (set w | w in all[..i] && w.parentId == Some(cur) :: w.id)
      invariant queue0 <= queue
      invariant Elements(queue) == Elements(queue0) + (seen - seen0)
      invariant NoRepeat(queue0) && Elements(queue0) <= seen0 ==> NoRepeat(queue)
    {
      var c := all[i];
      assert all[..i + 1] == all[..i] + [c];
      if c.parentId == Some(cur) && c.id !in seen {
        ElementsAppend(queue, c.id);
        seen := seen + {c.id};
        queue := queue + [c.id];
      }
    }
    assert all[..|all|] == all;
  }

  /**
   The clicked workspace and everything below it: exactly the existing workspaces
   reachable over parent links, each once, the clicked one first.
   */
  method SubtreeOf(all: seq<Workspace>, id: string) returns (out: seq<Workspace>)
    ensures Ids(out) == set w | w in all && Reachable(all, id, w.id) :: w.id
    ensures DistinctIds(out)
    ensures forall w :: w in out ==> Find(all, w.id) == Some(w)
    ensures Find(all, id).Some? ==> out != [] && out[0] == Find(all, id).value
  {
    out := [];
    var seen, queue := {id}, [id];
    ghost var done: set<string> := {};
    ReachableSelf(all, id);
    while queue != []
      invariant id in seen && done <= seen <= Ids(all) + {id}
      invariant seen == done + Elements(queue) && done !! Elements(queue)
      invariant NoRepeat(queue)
      invariant forall x :: x in seen ==> Reachable(all, id, x)
      invariant forall p, c :: p in done && ChildOf(all, p, c) ==> c in seen
      invariant Listed(all, id, done, out)
      invariant done == {} ==> queue == [id]
      decreases Ids(all) + {id} - done
    {
      ElementsOfLast(queue);
      var cur := queue[|queue| - 1];
      queue := queue[..|queue| - 1];
      VisitLists(all, id, done, out, cur);
      done := done + {cur};
      var w := Find(all, cur);
      if w.Some? {
        out := out + [w.value];
      }
      ghost var before := seen;
      seen, queue := PushChildren(all, cur, seen, queue);
      ChildrenAreReachable(all, id, cur, before, seen);
    }
    ReachableAreListed(all, id, seen, out);
  }

  /** The workspaces found for the ids visited so far, each once, the root's first. */
  ghost predicate Listed(all: seq<Workspace>, root: string, done: set<string>, out: seq<Workspace>) {
    && (forall w :: w in out ==> w.id in done && Find(all, w.id) == Some(w))
    && (forall x :: x in done && Find(all, x).Some? ==> Find(all, x).value in out)
    && DistinctIds(out)
    && (done == {} ==> out == [])
    && (done != {} && Find(all, root).Some? ==> out != [] && out[0] == Find(all, root).value)
  }

  lemma VisitLists(all: seq<Workspace>, root: string, done: set<string>, out: seq<Workspace>, cur: string)
    requires Listed(all, root, done, out) && cur !in done && (done == {} ==> cur == root)
    ensures Listed(all, root, done + {cur}, if Find(all, cur).Some? then out + [Find(all, cur).value] else out)
  {
    var found := Find(all, cur);
    var out' := if found.Some? then out + [found.value] else out;
    assert forall w :: w in out' <==> w in out || found == Some(w);
  }

  lemma ChildrenAreReachable(all: seq<Workspace>, root: string, cur: string, before: set<string>, seen: set<string>)
    requires Reachable(all, root, cur) && forall x :: x in before ==> Reachable(all, root, x)
    requires seen == before + (set w | w in all && w.parentId == Some(cur) :: w.id)
    ensures forall x :: x in seen ==> Reachable(all, root, x)
    ensures forall c :: ChildOf(all, cur, c) ==> c in seen
  {
    forall x | x in seen && x !in before ensures Reachable(all, root, x) {
      assert ChildOf(all, cur, x);
      ReachableStep(all, root, cur, x);
    }
  }

  lemma ReachableAreListed(all: seq<Workspace>, root: string, seen: set<string>, out: seq<Workspace>)
    requires root in seen && forall p, c :: p in seen && ChildOf(all, p, c) ==> c in seen
    requires forall x :: x in seen && Find(all, x).Some? ==> Find(all, x).value in out
    requires forall w :: w in out ==> w in all && Reachable(all, root, w.id)
    ensures Ids(out) == set w | w in all && Reachable(all, root, w.id) :: w.id
  {
    forall w | w in all && Reachable(all, root, w.id) ensures w.id in Ids(out) {
      var path :| Walk(all, path) && path[0] == root && path[|path| - 1] == w.id;
      ClosedHoldsReachable(all, root, seen, path);
      assert Find(all, w.id).Some? && Find(all, w.id).value in out;
    }
  }

  // ---------- The nearest project root ----------

  /** The workspace `k` links above the one with that id, if the links go that far. */
  ghost function Ancestor(all: seq<Workspace>, id: string, k: nat): Option<Workspace> {
    if k == 0 then Find(all, id)
    else
      var below := Ancestor(all, id, k - 1);
      if below.None? || below.value.parentId.None? || below.value.parentId.value == "" then None
      else Find(all, below.value.parentId.value)
  }

  ghost predicate Flagged(all: seq<Workspace>, id: string, k: nat) {
    Ancestor(all, id, k).Some? && Ancestor(all, id, k).value.isProjectRoot
  }

  ghost predicate NearestFlagged(all: seq<Workspace>, id: string, k: nat) {
    Flagged(all, id, k) && forall j :: 0 <= j < k ==> !Flagged(all, id, j)
  }

  lemma {:induction false} AncestorsRepeat(all: seq<Workspace>, id: string, i: nat, j: nat, k: nat)
    requires Ancestor(all, id, i) == Ancestor(all, id, j)
    ensures Ancestor(all, id, i + k) == Ancestor(all, id, j + k)
  {
    if k > 0 {
      AncestorsRepeat(all, id, i, j, k - 1);
    }
  }

  lemma {:induction false} AncestorsUpTo(all: seq<Workspace>, id: string, j: nat, k: nat)
    requires j <= k && Ancestor(all, id, k).Some?
    ensures Ancestor(all, id, j).Some?
    decreases k - j
  {
    if j < k {
      AncestorsUpTo(all, id, j + 1, k);
    }
  }

  /** The ids of the first `k` ancestors. */
  ghost function AncestorIds(all: seq<Workspace>, id: string, k: nat): seq<string>
    requires forall j :: 0 <= j < k ==> Ancestor(all, id, j).Some?
  {
    seq(k, j requires 0 <= j < k => Ancestor(all, id, j).value.id)
  }

  lemma {:induction false} IdsFit(all: seq<Workspace>)
    ensures |Ids(all)| <= |all|
  {
    if all != [] {
      IdsFit(all[1..]);
      assert Ids(all) == Ids(all[1..]) + {all[0].id};
    }
  }

  lemma AncestorsAreFound(all: seq<Workspace>, id: string, k: nat)
    requires Ancestor(all, id, k).Some?
    ensures Ancestor(all, id, k) == Find(all, Ancestor(all, id, k).value.id)
  {
  }

  /** Where the chain repeats, a flag further on was met before. */
  lemma RepeatedFlag(all: seq<Workspace>, id: string, i: nat, j: nat, further: nat)
    requires Ancestor(all, id, i).Some? && Ancestor(all, id, j).Some?
    requires Ancestor(all, id, i).value.id == Ancestor(all, id, j).value.id
    ensures Flagged(all, id, j + further) ==> Flagged(all, id, i + further)
  {
    AncestorsAreFound(all, id, i);
    AncestorsAreFound(all, id, j);
    AncestorsRepeat(all, id, i, j, further);
  }

  lemma AncestorsDiffer(all: seq<Workspace>, id: string, i: nat, j: nat, k: nat)
    requires NearestFlagged(all, id, k) && i < j <= k
    requires Ancestor(all, id, i).Some? && Ancestor(all, id, j).Some?
    ensures Ancestor(all, id, i).value.id != Ancestor(all, id, j).value.id
  {
    var further := k - j;
    if Ancestor(all, id, i).value.id == Ancestor(all, id, j).value.id {
      RepeatedFlag(all, id, i, j, further);
    }
  }

  /** The first flagged ancestor is fewer links away than there are workspaces, cycles or not. */
  lemma NearestFlaggedIsNear(all: seq<Workspace>, id: string, k: nat)
    requires NearestFlagged(all, id, k)
    ensures k < |all|
  {
    forall j | 0 <= j <= k ensures Ancestor(all, id, j).Some? { AncestorsUpTo(all, id, j, k); }
    var ids := AncestorIds(all, id, k + 1);
    forall i, j | 0 <= i < j < |ids| ensures ids[i] != ids[j] {
      AncestorsDiffer(all, id, i, j, k);
    }
    DistinctFits(ids, Ids(all));
    IdsFit(all);
  }

  /** Where a new worktree hangs: the nearest flagged ancestor-or-self, otherwise the workspace itself. */
  method ProjectRootOf(all: seq<Workspace>, id: string) returns (root: string)
    ensures forall k :: NearestFlagged(all, id, k) ==> root == Ancestor(all, id, k).value.id
    ensures (forall k :: !Flagged(all, id, k)) ==> root == id
  {
    var cur := Find(all, id);
    var hops := 0;
    while cur.Some? && hops < |all|
      invariant hops <= |all| && cur == Ancestor(all, id, hops)
      invariant forall j :: 0 <= j < hops ==> !Flagged(all, id, j)
      decreases |all| - hops
    {
      if cur.value.isProjectRoot {
        assert Flagged(all, id, hops);
        return cur.value.id;
      }
      if cur.value.parentId.None? || cur.value.parentId.value == "" {
        break;
      }
      cur := Find(all, cur.value.parentId.value);
      hops := hops + 1;
    }
    forall k ensures !NearestFlagged(all, id, k) {
      if NearestFlagged(all, id, k) {
        NearestFlaggedIsNear(all, id, k);
        if hops < k {
          AncestorsUpTo(all, id, hops + 1, k);
        }
      }
    }
    return id;
  }
}
