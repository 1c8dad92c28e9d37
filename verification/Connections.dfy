/**
 What a connection can do, and which host it leads to. A pane may carry a connection of
 its own; without one it uses its workspace's, and without any it is a local shell.
 */
module Connections {
  import opened Options

  datatype Connection =
    | Local(shell: Option<string>)
    | Ssh(host: string, user: string, port: int, keyPath: Option<string>)
    | Wsl(distro: Option<string>)

  datatype Platform = Windows | Unix

  /** The capabilities that the restore of sessions asks about. */
  datatype Caps = Caps(posixExec: bool, sessionPersistence: bool, sessionBound: bool)

  const LOCAL_CAPS := Caps(false, true, false)
  const LOCAL_UNIX_CAPS := Caps(true, true, false)
  const SSH_CAPS := Caps(true, true, true)
  const WSL_CAPS := Caps(true, true, false)

  function CapsOf(c: Option<Connection>, platform: Platform): Caps {
    var local := if platform == Windows then LOCAL_CAPS else LOCAL_UNIX_CAPS;
    match c
    case None => local
    case Some(Local(_)) => local
    case Some(Ssh(_, _, _, _)) => SSH_CAPS
    case Some(Wsl(_)) => WSL_CAPS
  }

  function Effective(own: Option<Connection>, workspace: Option<Connection>): Option<Connection> {
    if own.Some? then own else workspace
  }

  function PaneCaps(own: Option<Connection>, workspace: Option<Connection>, platform: Platform): Caps {
    CapsOf(Effective(own, workspace), platform)
  }

  /** The capabilities of the first pane in the layout whose own connection runs POSIX commands. */
  function FirstPosix(panes: seq<Option<Connection>>, platform: Platform): Option<Caps> {
    if panes == [] then None
    else if CapsOf(panes[0], platform).posixExec then Some(CapsOf(panes[0], platform))
    else FirstPosix(panes[1..], platform)
  }

  /** The workspace's own capabilities, widened by a pane if its own connection runs no POSIX commands. */
  function WsCaps(own: Option<Connection>, panes: Option<seq<Option<Connection>>>, platform: Platform): Caps {
    var caps := CapsOf(own, platform);
    if caps.posixExec || panes.None? then caps else FirstPosix(panes.value, platform).Or(caps)
  }

  /** The machine a connection leads to, as far as sessions are concerned. */
  datatype Host = ThisMachine | Server(user: string, host: string, port: int) | Distro(name: Option<string>)

  function HostOf(c: Option<Connection>): Host {
    match c
    case None => ThisMachine
    case Some(Local(_)) => ThisMachine
    case Some(Ssh(host, user, port, _)) => Server(user, host, port)
    case Some(Wsl(distro)) => Distro(distro)
  }

  predicate IsSsh(c: Option<Connection>) {
    c.Some? && c.value.Ssh?
  }

  predicate IsLocal(c: Option<Connection>) {
    c.None? || c.value.Local?
  }

  /**
   Two connections lead to the same host exactly when both are local, both go to the same
   server as the same user over the same port, with whatever key, or both to the same
   distribution.
   */
  lemma SameHostIff(a: Option<Connection>, b: Option<Connection>)
    ensures HostOf(a) == HostOf(b) <==>
            if IsLocal(a) || IsLocal(b) then IsLocal(a) && IsLocal(b)
            else if IsSsh(a) && IsSsh(b) then
              a.value.host == b.value.host && a.value.user == b.value.user && a.value.port == b.value.port
            else a == b
  {
  }

  /** The pane at k is the first that is not a local shell. */
  ghost predicate FirstRemote(panes: seq<Option<Connection>>, k: nat) {
    k < |panes| && !IsLocal(panes[k]) && forall j :: 0 <= j < k ==> IsLocal(panes[j])
  }

  /**
   A workspace must be connected first exactly when its own connection is SSH or, on
   Windows, when it is a local shell and its first pane with another connection has SSH.
   */
  lemma SessionBoundIff(own: Option<Connection>, panes: Option<seq<Option<Connection>>>, platform: Platform)
    ensures WsCaps(own, panes, platform).sessionBound <==>
            || IsSsh(own)
            || (platform == Windows && IsLocal(own) && panes.Some?
                && exists k: nat :: FirstRemote(panes.value, k) && IsSsh(panes.value[k]))
  {
    if panes.Some? && platform == Windows {
      FirstPosixIsFirstRemote(panes.value);
    }
  }

  lemma {:induction false} FirstPosixIsFirstRemote(panes: seq<Option<Connection>>)
    ensures FirstPosix(panes, Windows).None? ==> forall j :: 0 <= j < |panes| ==> IsLocal(panes[j])
    ensures FirstPosix(panes, Windows).Some? ==>
              exists k: nat :: FirstRemote(panes, k) && FirstPosix(panes, Windows) == Some(CapsOf(panes[k], Windows))
  {
    if panes != [] {
      FirstPosixIsFirstRemote(panes[1..]);
      if !IsLocal(panes[0]) {
        assert FirstRemote(panes, 0);
      } else if FirstPosix(panes, Windows).Some? {
        var k: nat :| FirstRemote(panes[1..], k) && FirstPosix(panes, Windows) == Some(CapsOf(panes[1..][k], Windows));
        assert FirstRemote(panes, k + 1);
      }
    }
  }

  lemma {:induction false} FirstPosixPersists(panes: seq<Option<Connection>>, platform: Platform)
    ensures FirstPosix(panes, platform).Some? ==> FirstPosix(panes, platform).value.sessionPersistence
  {
    if panes != [] {
      FirstPosixPersists(panes[1..], platform);
    }
  }

  /**
   Sessions outlive the application over every kind of connection, so every workspace is
   taken to have a list of its own.
   */
  lemma EveryWorkspacePersists(own: Option<Connection>, panes: Option<seq<Option<Connection>>>, platform: Platform)
    ensures WsCaps(own, panes, platform).sessionPersistence
  {
    if panes.Some? {
      FirstPosixPersists(panes.value, platform);
    }
  }
}
