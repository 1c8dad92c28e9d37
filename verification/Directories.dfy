/**
 The directory picker: going up and down a remote path, and the list of recently
 chosen directories, which is cut to eight entries every time it is stored.
 */
module Directories {
  import opened Options
  import opened Sequences

  // ---------- Paths ----------

  function StripSlashes(path: string): (s: string)
    ensures s <= path
    ensures s == "" || s[|s| - 1] != '/'
    ensures forall k :: |s| <= k < |path| ==> path[k] == '/'
  {
    if path != "" && path[|path| - 1] == '/' then StripSlashes(path[..|path| - 1]) else path
  }

  /** The position of the last slash, or -1. */
  function LastSlash(s: string): (i: int)
    ensures -1 <= i < |s|
    ensures i >= 0 ==> s[i] == '/'
    ensures forall k :: i < k < |s| ==> s[k] != '/'
  {
    if s == "" then -1
    else if s[|s| - 1] == '/' then |s| - 1
    else LastSlash(s[..|s| - 1])
  }

  function ParentDir(path: string): string {
    var trimmed := StripSlashes(path);
    var idx := LastSlash(trimmed);
    if idx <= 0 then "/" else trimmed[..idx]
  }

  function JoinDir(path: string, name: string): string {
    if path == "/" then "/" + name else StripSlashes(path) + "/" + name
  }

  /** A path in the form the picker shows: no slash at the end, except for the root. */
  function Canonical(path: string): string {
    if StripSlashes(path) == "" then "/" else StripSlashes(path)
  }

  /** The name of a directory entry. */
  predicate EntryName(name: string) {
    name != "" && '/' !in name
  }

  lemma {:induction false} LastSlashOfJoin(a: string, name: string)
    requires '/' !in name
    ensures LastSlash(a + "/" + name) == |a|
    decreases |name|
  {
    var s := a + "/" + name;
    if name == "" {
      assert s == a + "/";
    } else {
      var init := name[..|name| - 1];
      assert s[..|s| - 1] == a + "/" + init;
      assert s[|s| - 1] == name[|name| - 1] && name[|name| - 1] in name;
      LastSlashOfJoin(a, init);
    }
  }

  /** What a joined path is up to its last slash. */
  function Base(path: string): string {
    if path == "/" then "" else StripSlashes(path)
  }

  lemma JoinedParts(base: string, name: string)
    requires EntryName(name)
    ensures var joined := base + "/" + name;
            && StripSlashes(joined) == joined && LastSlash(joined) == |base| && joined[..|base|] == base
            && joined[|base|..] == "/" + name
  {
    var joined := base + "/" + name;
    assert joined[|joined| - 1] == name[|name| - 1] && name[|name| - 1] in name;
    LastSlashOfJoin(base, name);
  }

  /** Entering a directory leads to a path that ends in a slash and its name; going up returns to where one was. */
  lemma UpUndoesDown(path: string, name: string)
    requires EntryName(name)
    ensures var joined := JoinDir(path, name);
            |joined| > |name| && joined[|joined| - |name| - 1..] == "/" + name && ParentDir(joined) == Canonical(path)
  {
    JoinedParts(Base(path), name);
    assert JoinDir(path, name) == Base(path) + "/" + name;
    if path == "/" {
      assert StripSlashes(path) == StripSlashes("/"[..0]) == "";
    }
  }

  /** The path is the name in that directory; a name without a directory counts as one in the root. */
  ghost predicate NamedIn(path: string, up: string, name: string) {
    && '/' !in name
    && (path == up + "/" + name || (up == "/" && (path == name || path == "/" + name)))
  }

  /** Going up from any path cuts off its last name. */
  lemma UpCutsLastName(path: string)
    ensures exists name :: NamedIn(StripSlashes(path), ParentDir(path), name)
  {
    var trimmed := StripSlashes(path);
    var idx := LastSlash(trimmed);
    var name := trimmed[idx + 1..];
    if idx > 0 {
      assert trimmed == trimmed[..idx] + "/" + name;
    } else if idx == 0 {
      assert trimmed == "/" + name;
    }
    assert NamedIn(trimmed, ParentDir(path), name);
  }

  function Ups(path: string, k: nat): string {
    if k == 0 then path else ParentDir(Ups(path, k - 1))
  }

  lemma {:induction false} UpsShorten(path: string, k: nat)
    ensures Ups(path, k + 1) == "/" || |Ups(path, k + 1)| + k + 1 <= |path|
  {
    if k > 0 {
      UpsShorten(path, k - 1);
      if Ups(path, k) == "/" {
        assert StripSlashes("/") == StripSlashes("/"[..0]) == "";
        assert ParentDir("/") == "/";
      }
    }
  }

  /** The root is reached after at most as many steps as the path has characters. */
  lemma UpReachesRoot(path: string, k: nat)
    requires k > |path|
    ensures Ups(path, k) == "/"
  {
    UpsShorten(path, k - 1);
  }

  // ---------- Recent directories ----------

  const LIMIT: nat := 8

  function Dropping(dirs: seq<string>, dir: string): seq<string> {
    if dirs == [] then []
    else if dirs[0] == dir then Dropping(dirs[1..], dir)
    else [dirs[0]] + Dropping(dirs[1..], dir)
  }

  function Truncated(dirs: seq<string>, n: nat): (r: seq<string>)
    ensures r <= dirs && |r| <= n && (|r| < n ==> r == dirs)
  {
    if |dirs| <= n then dirs else dirs[..n]
  }

  /** One push as it is stored. */
  function Pushed(dirs: seq<string>, dir: string): seq<string> {
    Truncated([dir] + Dropping(dirs, dir), LIMIT)
  }

  /** The stored list after a history of pushes, oldest first. */
  function Stored(history: seq<string>): seq<string> {
    if history == [] then [] else Pushed(Stored(history[..|history| - 1]), history[|history| - 1])
  }

  /** The same without ever cutting the list. */
  function Recency(history: seq<string>): seq<string> {
    if history == [] then []
    else [history[|history| - 1]] + Dropping(Recency(history[..|history| - 1]), history[|history| - 1])
  }

  /** When a directory was pushed last; -1 if never. */
  function LastPush(history: seq<string>, dir: string): (i: int)
    ensures -1 <= i < |history|
    ensures i >= 0 ==> history[i] == dir
    ensures forall k :: i < k < |history| ==> history[k] != dir
  {
    if history == [] then -1
    else if history[|history| - 1] == dir then |history| - 1
    else LastPush(history[..|history| - 1], dir)
  }

  ghost predicate Descending(history: seq<string>, dirs: seq<string>) {
    forall j, k :: 0 <= j < k < |dirs| ==> LastPush(history, dirs[j]) > LastPush(history, dirs[k])
  }

  /** All pushed directories, each once, the most recently pushed first. */
  ghost predicate MostRecentFirst(history: seq<string>, dirs: seq<string>) {
    (forall d :: d in dirs <==> d in history) && Descending(history, dirs)
  }

  lemma {:induction false} DroppingMembers(dirs: seq<string>, dir: string)
    ensures forall d :: d in Dropping(dirs, dir) <==> d in dirs && d != dir
  {
    if dirs != [] {
      DroppingMembers(dirs[1..], dir);
    }
  }

  lemma {:induction false} DroppingKeepsOrder(history: seq<string>, dirs: seq<string>, dir: string)
    requires Descending(history, dirs)
    ensures Descending(history, Dropping(dirs, dir))
  {
    if dirs != [] {
      var rest := Dropping(dirs[1..], dir);
      DroppingKeepsOrder(history, dirs[1..], dir);
      DroppingMembers(dirs[1..], dir);
      forall d | d in rest ensures LastPush(history, dirs[0]) > LastPush(history, d) {
        var k :| 0 <= k < |dirs[1..]| && dirs[1..][k] == d;
        assert dirs[k + 1] == d;
      }
    }
  }

  lemma {:induction false} RecencyIsMostRecentFirst(history: seq<string>)
    ensures MostRecentFirst(history, Recency(history))
  {
    if history != [] {
      var init, last := history[..|history| - 1], history[|history| - 1];
      var before := Recency(init);
      RecencyIsMostRecentFirst(init);
      DroppingMembers(before, last);
      DroppingKeepsOrder(init, before, last);
      assert history == init + [last];
      var rest := Dropping(before, last);
      forall d | d in rest ensures LastPush(history, d) == LastPush(init, d) {}
      assert Descending(history, rest);
      assert Descending(history, [last] + rest);
    }
  }

  // ---------- Cutting loses nothing ----------

  lemma {:induction false} DroppingAbsent(dirs: seq<string>, dir: string)
    requires dir !in dirs
    ensures Dropping(dirs, dir) == dirs
  {
    if dirs != [] {
      DroppingAbsent(dirs[1..], dir);
    }
  }

  /** Cutting to one entry more before dropping a directory gives the same first entries. */
  lemma {:induction false} DropOfCut(dirs: seq<string>, dir: string, n: nat)
    requires NoRepeat(dirs)
    ensures Truncated(Dropping(Truncated(dirs, n + 1), dir), n) == Truncated(Dropping(dirs, dir), n)
    decreases |dirs|
  {
    if |dirs| > n + 1 {
      var rest := dirs[1..];
      assert NoRepeat(rest);
      assert Truncated(dirs, n + 1)[1..] == Truncated(rest, n);
      if dirs[0] == dir {
        assert dir !in rest by {
          forall d | d in rest ensures d != dir {
            var k :| 0 <= k < |rest| && rest[k] == d;
            assert dirs[k + 1] == d;
          }
        }
        DroppingAbsent(rest, dir);
        DroppingAbsent(Truncated(rest, n), dir);
      } else if n > 0 {
        DropOfCut(rest, dir, n - 1);
      }
    }
  }

  lemma {:induction false} StoredIsTruncated(history: seq<string>)
    ensures Stored(history) == Truncated(Recency(history), LIMIT)
  {
    if history != [] {
      var init, last := history[..|history| - 1], history[|history| - 1];
      RecencyIsMostRecentFirst(init);
      StoredIsTruncated(init);
      DropOfCut(Recency(init), last, LIMIT - 1);
    }
  }

  /**
   Cutting at every push agrees with never cutting: what is stored is always the eight
   most recently pushed distinct directories of the whole history.
   */
  lemma StoredIsRecencyCut(history: seq<string>)
    ensures MostRecentFirst(history, Recency(history)) && Stored(history) <= Recency(history)
    ensures |Stored(history)| == if |Recency(history)| < 8 then |Recency(history)| else 8
  {
    RecencyIsMostRecentFirst(history);
    StoredIsTruncated(history);
  }

  /** The picker's storage: one list per workspace. */
  class RecentDirs {
    var storage: map<string, seq<string>>

    constructor ()
      ensures storage == map[]
    {
      storage := map[];
    }

    /** The stored list of a workspace, empty when nothing has been stored. */
    function Load(workspaceId: string): seq<string>
      reads this
    {
      if workspaceId in storage then storage[workspaceId] else []
    }

    /** Stores the list with the directory in front; a full storage refuses and changes nothing. */
    method Push(workspaceId: string, dir: string, accepted: bool)
      modifies this
      ensures forall w :: w != workspaceId ==> Load(w) == old(Load(w))
      ensures Load(workspaceId) == if accepted then Pushed(old(Load(workspaceId)), dir) else old(Load(workspaceId))
      ensures forall history :: accepted && old(Load(workspaceId)) == Stored(history) ==>
                                  Load(workspaceId) == Stored(history + [dir])
    {
      ghost var before := Load(workspaceId);
      var next := [dir] + Dropping(Load(workspaceId), dir);
      if |next| > LIMIT {
        next := next[..LIMIT];
      }
      if accepted {
        storage := storage[workspaceId := next];
      }
      forall history | accepted && before == Stored(history) ensures Load(workspaceId) == Stored(history + [dir]) {
        assert (history + [dir])[..|history|] == history;
      }
    }
  }
}
