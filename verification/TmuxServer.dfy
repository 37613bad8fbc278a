/** The tmux server as far as restoring uses it: sessions map indexes to
    windows, windows hold panes, and each command is a step on that state. */
module TmuxServer {
  import opened Wrappers
  import opened Inventory

  /** `pending`: the pane option `@sessionizer_restore`. */
  datatype TPane = TPane(id: PaneId, cwd: string, pending: Option<Pending>)

  datatype TWindow = TWindow(
    name: string,
    automaticRename: bool,
    autonameOff: bool,
    lastAutoname: string,
    layout: string,
    panes: seq<TPane>,
    activePane: PaneId)

  datatype TSession = TSession(category: string, env: map<string, string>, slots: map<nat, WindowId>, current: nat)

  /** `home`: the window of each pane. `shell`: the name a window running a plain
      shell gets. `indexLimit`: window indexes are below it. Ids are never reused. */
  datatype Server = Server(
    sessions: map<string, TSession>,
    windows: map<WindowId, TWindow>,
    home: map<PaneId, WindowId>,
    nextWindow: WindowId,
    nextPane: PaneId,
    baseIndex: nat,
    paneBase: nat,
    indexLimit: nat,
    shell: string)

  datatype Fault = Exists | IndexTaken | NoTarget

  ghost predicate Valid(s: Server) {
    && (forall id :: id in s.windows ==> id < s.nextWindow)
    && (forall p :: p in s.home ==> p < s.nextPane)
    && (forall n, i :: n in s.sessions && i in s.sessions[n].slots ==> s.sessions[n].slots[i] in s.windows)
  }

  /** The first index from `from` on that is not taken. */
  function FirstUnused(taken: set<nat>, from: nat): (x: nat)
    ensures from <= x && x !in taken && forall y: nat :: from <= y < x ==> y in taken
    decreases AtLeast(taken, from)
  {
    if from in taken then
      assert from in AtLeast(taken, from) - AtLeast(taken, from + 1);
      FirstUnused(taken, from + 1)
    else from
  }

  function AtLeast(taken: set<nat>, from: nat): set<nat> {
    set y | y in taken && y >= from
  }

  function FreshWindow(s: Server, cwd: string): TWindow {
    TWindow(s.shell, true, false, "", "", [TPane(s.nextPane, cwd, None)], s.nextPane)
  }

  /** A new window with one pane at a free index. */
  function WithWindow(s: Server, session: string, index: nat, cwd: string): Server
    requires session in s.sessions
  {
    var t := s.sessions[session];
    s.(sessions := s.sessions[session := t.(slots := t.slots[index := s.nextWindow])],
       windows := s.windows[s.nextWindow := FreshWindow(s, cwd)],
       home := s.home[s.nextPane := s.nextWindow],
       nextWindow := s.nextWindow + 1,
       nextPane := s.nextPane + 1)
  }

  /** `new-session`: its one window is at the base index. */
  function NewSession(s: Server, name: string, cwd: string): Result<Server, Fault> {
    if name in s.sessions then Err(Exists)
    else
      var t := TSession("", map[], map[], s.baseIndex);
      Ok(WithWindow(s.(sessions := s.sessions[name := t]), name, s.baseIndex, cwd))
  }

  /** `new-window -d`, at an index or at the first unused one. */
  function NewWindow(s: Server, session: string, at: Option<nat>, cwd: string): Result<Server, Fault> {
    if session !in s.sessions then Err(NoTarget) else
    var slots := s.sessions[session].slots;
    var index := if at.Some? then at.value else FirstUnused(slots.Keys, s.baseIndex);
    if index in slots then Err(IndexTaken) else Ok(WithWindow(s, session, index, cwd))
  }

  /** `move-window` within a session; the moved window becomes the current one. */
  function MoveWindow(s: Server, session: string, source: nat, target: nat): Server {
    if session !in s.sessions then s else
    var t := s.sessions[session];
    if source !in t.slots || target in t.slots then s else
    var slots := (t.slots - {source})[target := t.slots[source]];
    s.(sessions := s.sessions[session := t.(slots := slots, current := target)])
  }

  function SelectWindow(s: Server, session: string, index: nat): Server {
    if session !in s.sessions || index !in s.sessions[session].slots then s else
    s.(sessions := s.sessions[session := s.sessions[session].(current := index)])
  }

  function SetCategory(s: Server, session: string, category: string): Server {
    if session !in s.sessions then s else
    s.(sessions := s.sessions[session := s.sessions[session].(category := category)])
  }

  function SetEnvironment(s: Server, session: string, name: string, value: string): Server {
    if session !in s.sessions then s else
    var t := s.sessions[session];
    s.(sessions := s.sessions[session := t.(env := t.env[name := value])])
  }

  // ---- Commands on the window of a pane ------------------------------------

  predicate Hosted(s: Server, pane: PaneId) {
    pane in s.home && s.home[pane] in s.windows
  }

  function HostOf(s: Server, pane: PaneId): TWindow
    requires Hosted(s, pane)
  {
    s.windows[s.home[pane]]
  }

  function PutWindow(s: Server, pane: PaneId, w: TWindow): Server
    requires Hosted(s, pane)
  {
    s.(windows := s.windows[s.home[pane] := w])
  }

  function PaneAt(panes: seq<TPane>, id: PaneId): (i: nat)
    ensures i <= |panes| && (i < |panes| ==> panes[i].id == id)
    ensures forall k :: 0 <= k < i ==> panes[k].id != id
  {
    if panes == [] then 0 else if panes[0].id == id then 0 else 1 + PaneAt(panes[1..], id)
  }

  /** `split-window -d`: the new pane comes right after its target. */
  function SplitWindow(s: Server, target: PaneId, cwd: string): Result<Server, Fault> {
    if !Hosted(s, target) then Err(NoTarget) else
    var w := HostOf(s, target);
    var i := PaneAt(w.panes, target);
    if i == |w.panes| then Err(NoTarget) else
    Ok(PutWindow(s, target, w.(panes := w.panes[..i + 1] + [TPane(s.nextPane, cwd, None)] + w.panes[i + 1..]))
       .(home := s.home[s.nextPane := s.home[target]], nextPane := s.nextPane + 1))
  }

  function SelectLayout(s: Server, pane: PaneId, layout: string): Server {
    if !Hosted(s, pane) then s else PutWindow(s, pane, HostOf(s, pane).(layout := layout))
  }

  /** `rename-window` also turns automatic renaming off for the window. */
  function RenameWindow(s: Server, pane: PaneId, name: string): Server {
    if !Hosted(s, pane) then s else PutWindow(s, pane, HostOf(s, pane).(name := name, automaticRename := false))
  }

  function SetLastAutoname(s: Server, pane: PaneId, name: string): Server {
    if !Hosted(s, pane) then s else PutWindow(s, pane, HostOf(s, pane).(lastAutoname := name))
  }

  function SetAutonameOff(s: Server, pane: PaneId): Server {
    if !Hosted(s, pane) then s else PutWindow(s, pane, HostOf(s, pane).(autonameOff := true))
  }

  function SelectPane(s: Server, pane: PaneId): Server {
    if !Hosted(s, pane) then s else PutWindow(s, pane, HostOf(s, pane).(activePane := pane))
  }

  function SetPending(s: Server, pane: PaneId, pending: Pending): Server {
    if !Hosted(s, pane) then s else
    var w := HostOf(s, pane);
    var i := PaneAt(w.panes, pane);
    if i == |w.panes| then s else
    PutWindow(s, pane, w.(panes := w.panes[i := w.panes[i].(pending := Some(pending))]))
  }

  /** The server, changed one command at a time. */
  class Tmux {
    var server: Server

    constructor (server: Server)
      ensures this.server == server
    {
      this.server := server;
    }

    /** Indexes of a session's windows; `None` when it doesn't exist. */
    method ListWindows(session: string) returns (taken: Option<set<nat>>)
      ensures taken == if session in server.sessions then Some(server.sessions[session].slots.Keys) else None
    {
      taken := if session in server.sessions then Some(server.sessions[session].slots.Keys) else None;
    }

    method DoNewSession(name: string, cwd: string) returns (r: Result<(nat, PaneId), Fault>)
      modifies this
      ensures match NewSession(old(server), name, cwd)
              case Ok(s) => server == s && r == Ok((old(server).baseIndex, old(server).nextPane))
              case Err(e) => server == old(server) && r == Err(e)
    {
      match NewSession(server, name, cwd) {
        case Ok(s) =>
          r := Ok((server.baseIndex, server.nextPane));
          server := s;
        case Err(e) => r := Err(e);
      }
    }

    method DoNewWindow(session: string, at: Option<nat>, cwd: string) returns (r: Result<PaneId, Fault>)
      modifies this
      ensures match NewWindow(old(server), session, at, cwd)
              case Ok(s) => server == s && r == Ok(old(server).nextPane)
              case Err(e) => server == old(server) && r == Err(e)
    {
      match NewWindow(server, session, at, cwd) {
        case Ok(s) =>
          r := Ok(server.nextPane);
          server := s;
        case Err(e) => r := Err(e);
      }
    }

    method DoSplitWindow(target: PaneId, cwd: string) returns (r: Result<PaneId, Fault>)
      modifies this
      ensures match SplitWindow(old(server), target, cwd)
              case Ok(s) => server == s && r == Ok(old(server).nextPane)
              case Err(e) => server == old(server) && r == Err(e)
    {
      match SplitWindow(server, target, cwd) {
        case Ok(s) =>
          r := Ok(server.nextPane);
          server := s;
        case Err(e) => r := Err(e);
      }
    }
  }
}
