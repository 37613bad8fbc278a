/** Restoring sessions (src/restore.rs): a session's missing windows, and a whole
    snapshot merged into the server. */
module RestoreSessions {
  import opened Wrappers
  import opened Inventory
  import opened Snapshots
  import opened TmuxServer
  import opened RestoreWindow

  // ---- One window ----------------------------------------------------------

  /** The server with a window for `w` opened in the session, at its own index
      unless that was taken when the restore began. */
  function Opened(s: Server, name: string, taken: set<nat>, w: WindowSnap): Result<Server, Fault>
    requires w.panes != []
  {
    if name in s.sessions then
      NewWindow(s, name, if w.index in taken then None else Some(w.index), w.panes[0].cwd)
    else
      match NewSession(s, name, w.panes[0].cwd)
      case Err(e) => Err(e)
      case Ok(t) => Ok(if s.baseIndex == w.index then t else MoveWindow(t, name, s.baseIndex, w.index))
  }

  lemma {:induction false} OpenedForFilling(s: Server, name: string, taken: set<nat>, w: WindowSnap)
    requires w.panes != [] && Opened(s, name, taken, w).Ok?
    ensures JustOpened(Opened(s, name, taken, w).value, w, s.nextPane)
  {
  }

  function Wanted(taken: set<nat>, w: WindowSnap, o: Options): bool {
    w.panes != [] && (w.index !in taken || o.force)
  }

  datatype Progress = Progress(server: Server, created: nat, pastes: seq<Paste>, fault: Option<Fault>)

  /** One more window of the snapshot, once the previous ones are done. */
  function AddWindow(p: Progress, name: string, taken: set<nat>, w: WindowSnap, o: Options): Progress {
    if p.fault.Some? || !Wanted(taken, w, o) then p else
    match Opened(p.server, name, taken, w)
    case Err(e) => p.(fault := Some(e))
    case Ok(s) =>
      OpenedForFilling(p.server, name, taken, w);
      var filled := FilledServer(s, w, p.server.nextPane);
      Progress(if w.active then SelectWindow(filled, name, w.index) else filled,
               p.created + 1, p.pastes + PastesAmong(w, p.server.nextPane, s.nextPane, o, |w.panes|), None)
  }

  function AddWindows(s: Server, name: string, taken: set<nat>, ws: seq<WindowSnap>, o: Options): Progress {
    if ws == [] then Progress(s, 0, [], None)
    else AddWindow(AddWindows(s, name, taken, Front(ws), o), name, taken, Last(ws), o)
  }

  // ---- One session ---------------------------------------------------------

  function TakenIn(s: Server, name: string): set<nat> {
    if name in s.sessions then s.sessions[name].slots.Keys else {}
  }

  function WithEnv(s: Server, name: string, env: Env): Server {
    if env == [] then s else SetEnvironment(WithEnv(s, name, Front(env)), name, Last(env).0, Last(env).1)
  }

  function Configured(s: Server, session: SessionSnap): Server {
    WithEnv(if session.name in s.sessions && session.category != ""
            then SetCategory(s, session.name, session.category) else s,
            session.name, session.env)
  }

  /** Everything restoring one session does. */
  function SessionRestored(s: Server, session: SessionSnap, o: Options): Progress {
    var p := AddWindows(s, session.name, TakenIn(s, session.name), session.windows, o);
    if p.fault.Some? then p else p.(server := Configured(p.server, session))
  }

  method OpenWindow(t: Tmux, name: string, present: bool, free: bool, w: WindowSnap) returns (r: Result<PaneId, Fault>)
    requires w.panes != []
    modifies t
    ensures present == (name in old(t.server).sessions) ==>
              match Opened(old(t.server), name, if free then {} else {w.index}, w)
              case Ok(s) => t.server == s && r == Ok(old(t.server).nextPane)
              case Err(e) => t.server == old(t.server) && r == Err(e)
  {
    hide WithWindow;
    if !present {
      var made := t.DoNewSession(name, w.panes[0].cwd);
      if made.Err? {
        return Err(made.error);
      }
      var (index, pane) := made.value;
      if index != w.index {
        t.server := MoveWindow(t.server, name, index, w.index);
      }
      r := Ok(pane);
    } else {
      r := t.DoNewWindow(name, if free then Some(w.index) else None, w.panes[0].cwd);
    }
  }

  lemma {:induction false} OpenedByFree(s: Server, name: string, taken: set<nat>, w: WindowSnap)
    requires w.panes != []
    ensures Opened(s, name, taken, w) == Opened(s, name, if w.index !in taken then {} else {w.index}, w)
  {
  }

  lemma {:induction false} FilledSessions(s: Server, w: WindowSnap, first: PaneId)
    requires w.panes != [] && Hosted(s, first)
    ensures FilledServer(s, w, first).sessions == s.sessions
  {
  }

  lemma {:induction false} OpenedSession(s: Server, name: string, taken: set<nat>, w: WindowSnap)
    requires w.panes != [] && Opened(s, name, taken, w).Ok?
    ensures name in Opened(s, name, taken, w).value.sessions
  {
  }

  lemma {:induction false} NotWanted(p: Progress, name: string, taken: set<nat>, w: WindowSnap, o: Options)
    requires !Wanted(taken, w, o)
    ensures AddWindow(p, name, taken, w, o) == p
  {
  }

  /** Adding a window doesn't depend on what was created before it. */
  lemma {:induction false} AddWindowFrom(p: Progress, name: string, taken: set<nat>, w: WindowSnap, o: Options)
    requires p.fault.None? && Wanted(taken, w, o)
    ensures var q, r := AddWindow(Progress(p.server, 0, [], None), name, taken, w, o),
                        AddWindow(p, name, taken, w, o);
            && r.server == q.server && r.fault == q.fault && r.pastes == p.pastes + q.pastes
            && r.created == p.created + if q.fault.None? then 1 else 0
  {
    hide Opened, FilledServer, PastesAmong;
    assert p.pastes + [] == p.pastes;
    if Opened(p.server, name, taken, w).Ok? {
      var s := Opened(p.server, name, taken, w).value;
      var more := PastesAmong(w, p.server.nextPane, s.nextPane, o, |w.panes|);
      assert [] + more == more;
    }
  }

  /** Open and fill one window that is wanted. */
  method RestoreOne(t: Tmux, name: string, present: bool, taken: set<nat>, w: WindowSnap, o: Options)
    returns (r: Result<seq<Paste>, Fault>)
    requires Wanted(taken, w, o) && present == (name in t.server.sessions)
    modifies t
    ensures var q := AddWindow(Progress(old(t.server), 0, [], None), name, taken, w, o);
            && t.server == q.server
            && (r.Ok? ==> q.fault == None && q.pastes == r.value && name in t.server.sessions)
            && (r.Err? ==> q.fault == Some(r.error) && q.pastes == [])
  {
    hide Opened, FilledServer, JustOpened, PastesFit, SelectWindow;
    OpenedByFree(t.server, name, taken, w);
    ghost var before := t.server;
    var pane := OpenWindow(t, name, present, w.index !in taken, w);
    if pane.Err? {
      return Err(pane.error);
    }
    OpenedSession(before, name, taken, w);
    OpenedForFilling(before, name, taken, w);
    FilledSessions(t.server, w, pane.value);
    var pastes := FillWindow(t, w, pane.value, o);
    assert [] + pastes == pastes;
    if w.active {
      SelectedSessions(t.server, name, w.index);
      t.server := SelectWindow(t.server, name, w.index);
    }
    r := Ok(pastes);
  }

  lemma {:induction false} SelectedSessions(s: Server, name: string, index: nat)
    ensures SelectWindow(s, name, index).sessions.Keys == s.sessions.Keys
  {
  }

  /** Restore a session's missing windows, creating the session if needed. */
  method RestoreSession(t: Tmux, session: SessionSnap, o: Options) returns (r: Result<nat, Fault>, pastes: seq<Paste>)
    modifies t
    ensures var p := SessionRestored(old(t.server), session, o);
            && t.server == p.server && pastes == p.pastes
            && r == if p.fault.Some? then Err(p.fault.value) else Ok(p.created)
  {
    hide AddWindow, SetEnvironment, WithEnv, SetCategory;
    ghost var s := t.server;
    var name, ws := session.name, session.windows;
    var existing := t.ListWindows(name);
    var present := existing.Some?;
    var taken := if existing.Some? then existing.value else {};
    var created := 0;
    pastes := [];
    for i := 0 to |ws|
      invariant present == (name in t.server.sessions)
      invariant AddWindows(s, name, taken, ws[..i], o) == Progress(t.server, created, pastes, None)
    {
      assert Front(ws[..i + 1]) == ws[..i] && Last(ws[..i + 1]) == ws[i];
      FaultStays(s, name, taken, ws, i + 1, o);
      var w := ws[i];
      if w.panes == [] {
        NotWanted(Progress(t.server, created, pastes, None), name, taken, w, o);
        continue;
      }
      if w.index in taken && !o.force {
        NotWanted(Progress(t.server, created, pastes, None), name, taken, w, o);
        continue;
      }
      AddWindowFrom(Progress(t.server, created, pastes, None), name, taken, w, o);
      var more := RestoreOne(t, name, present, taken, w, o);
      if more.Err? {
        return Err(more.error), pastes;
      }
      present := true;
      pastes := pastes + more.value;
      created := created + 1;
    }
    assert ws[..|ws|] == ws;
    if present && session.category != "" {
      t.server := SetCategory(t.server, name, session.category);
    }
    RestoreEnv(t, name, session.env);
    r := Ok(created);
  }

  method RestoreEnv(t: Tmux, name: string, env: Env)
    modifies t
    ensures t.server == WithEnv(old(t.server), name, env)
  {
    hide SetEnvironment;
    for i := 0 to |env|
      invariant t.server == WithEnv(old(t.server), name, env[..i])
    {
      assert Front(env[..i + 1]) == env[..i] && Last(env[..i + 1]) == env[i];
      t.server := SetEnvironment(t.server, name, env[i].0, env[i].1);
    }
    assert env[..|env|] == env;
  }

  /** After a fault the rest of the session is given up. */
  lemma {:induction false} FaultStays(s: Server, name: string, taken: set<nat>, ws: seq<WindowSnap>, i: nat, o: Options)
    requires i <= |ws|
    ensures AddWindows(s, name, taken, ws[..i], o).fault.Some? ==>
              AddWindows(s, name, taken, ws, o) == AddWindows(s, name, taken, ws[..i], o)
    decreases |ws|
  {
    if i < |ws| {
      FaultStays(s, name, taken, Front(ws), i, o);
      assert Front(ws)[..i] == ws[..i];
    } else {
      assert ws[..i] == ws;
    }
  }

  // ---- A snapshot ----------------------------------------------------------

  datatype Report = Report(windows: nat, pasted: nat, errors: seq<(string, Fault)>)

  datatype Outcome = Outcome(server: Server, windows: nat, pastes: seq<Paste>, errors: seq<(string, Fault)>)

  /** Each session in turn; one that fails is reported and the next one tried. */
  function Restored(s: Server, sessions: seq<SessionSnap>, o: Options): Outcome {
    if sessions == [] then Outcome(s, 0, [], []) else
    var before := Restored(s, Front(sessions), o);
    var p := SessionRestored(before.server, Last(sessions), o);
    Outcome(p.server, before.windows + (if p.fault.None? then p.created else 0), before.pastes + p.pastes,
            before.errors + if p.fault.Some? then [(Last(sessions).name, p.fault.value)] else [])
  }

  method Restore(t: Tmux, snap: Snapshot, o: Options) returns (report: Report, pastes: seq<Paste>)
    modifies t
    ensures var r := Restored(old(t.server), snap.sessions, o);
            && t.server == r.server && pastes == r.pastes && report == Report(r.windows, |r.pastes|, r.errors)
  {
    hide SessionRestored;
    ghost var s := t.server;
    var windows, errors := 0, [];
    pastes := [];
    for i := 0 to |snap.sessions|
      invariant Restored(s, snap.sessions[..i], o) == Outcome(t.server, windows, pastes, errors)
    {
      assert Front(snap.sessions[..i + 1]) == snap.sessions[..i] && Last(snap.sessions[..i + 1]) == snap.sessions[i];
      var r, more := RestoreSession(t, snap.sessions[i], o);
      pastes := pastes + more;
      match r {
        case Ok(n) => windows := windows + n;
        case Err(e) => errors := errors + [(snap.sessions[i].name, e)];
      }
    }
    assert snap.sessions[..|snap.sessions|] == snap.sessions;
    report := Report(windows, |pastes|, errors);
  }
}
