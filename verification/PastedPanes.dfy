/** Which pane gets which command when sessions are restored (src/restore.rs):
    one paste for each pane of a new window with a pending option, in order. */
module PastedPanes {
  import opened Inventory
  import opened Snapshots
  import opened TmuxServer
  import opened RestoreWindow
  import opened RestoreSessions

  /** The panes with a pending option in the windows with these ids, in order. */
  function NewPanes(windows: map<WindowId, TWindow>, from: WindowId, to: WindowId): seq<TPane> {
    if to <= from then [] else
    NewPanes(windows, from, to - 1) + if to - 1 in windows then Awaiting(windows[to - 1].panes) else []
  }

  /** The pastes answer the panes of the windows made since `s`. */
  ghost predicate PastedInto(s: Server, after: Server, pastes: seq<Paste>, o: Options) {
    s.nextWindow <= after.nextWindow
    && Answered(pastes, NewPanes(after.windows, s.nextWindow, after.nextWindow), o)
  }

  lemma {:induction false} SamePanes(a: map<WindowId, TWindow>, b: map<WindowId, TWindow>, from: WindowId, to: WindowId)
    requires forall id :: from <= id < to ==> (id in a <==> id in b) && (id in a ==> a[id] == b[id])
    ensures NewPanes(a, from, to) == NewPanes(b, from, to)
  {
    if from < to {
      SamePanes(a, b, from, to - 1);
    }
  }

  lemma {:induction false} AnsweredBoth(a: seq<Paste>, b: seq<Paste>, x: seq<TPane>, y: seq<TPane>, o: Options)
    requires Answered(a, x, o) && Answered(b, y, o)
    ensures Answered(a + b, x + y, o)
  {
    hide Answers;
  }

  /** What opening a window changes: one new window, whose pane is new. */
  lemma {:induction false} OpenedNew(s: Server, name: string, taken: set<nat>, w: WindowSnap)
    requires w.panes != [] && Opened(s, name, taken, w).Ok?
    ensures var n, first := Opened(s, name, taken, w).value, s.nextPane;
            && Hosted(n, first) && n.home[first] == s.nextWindow && first < n.nextPane
            && n.nextWindow == s.nextWindow + 1
            && forall id :: id != s.nextWindow ==> (id in n.windows <==> id in s.windows)
                                                   && (id in n.windows ==> n.windows[id] == s.windows[id])
  {
  }

  lemma {:induction false} FilledOthers(s: Server, w: WindowSnap, first: PaneId)
    requires w.panes != [] && Hosted(s, first)
    ensures var n := FilledServer(s, w, first);
            && n.nextWindow == s.nextWindow && n.sessions == s.sessions
            && s.home[first] in n.windows
            && forall id :: id != s.home[first] ==> (id in n.windows <==> id in s.windows)
                                                    && (id in n.windows ==> n.windows[id] == s.windows[id])
  {
    hide Homes, FilledWindow;
  }

  lemma {:induction false} FitsAtHome(s: Server, w: WindowSnap, first: PaneId, pastes: seq<Paste>, o: Options)
    requires w.panes != [] && Hosted(s, first) && s.home[first] in FilledServer(s, w, first).windows
    requires PastesFit(FilledServer(s, w, first), w, first, pastes, o)
    ensures Answered(pastes, Awaiting(FilledServer(s, w, first).windows[s.home[first]].panes), o)
  {
    HomeOf(s.home, s.nextPane, |w.panes| - 1, s.home[first], first);
    hide Answered, Awaiting, Recalls, FilledWindow;
  }

  /** One more window, its pastes after the others. */
  lemma {:induction false} OneMoreAnswered(s0: Server, s: Server, n: Server, pastes: seq<Paste>, more: seq<Paste>,
        o: Options)
    requires PastedInto(s0, s, pastes, o) && n.nextWindow == s.nextWindow + 1 && s.nextWindow in n.windows
    requires forall id :: id != s.nextWindow ==> (id in n.windows <==> id in s.windows)
                                                 && (id in n.windows ==> n.windows[id] == s.windows[id])
    requires Answered(more, Awaiting(n.windows[s.nextWindow].panes), o)
    ensures PastedInto(s0, n, pastes + more, o)
  {
    hide Awaiting, Answered;
    SamePanes(s.windows, n.windows, s0.nextWindow, s.nextWindow);
    AnsweredBoth(pastes, more, NewPanes(s.windows, s0.nextWindow, s.nextWindow),
                 Awaiting(n.windows[s.nextWindow].panes), o);
  }

  lemma {:induction false} Pasted(s0: Server, a: Server, b: Server, pastes: seq<Paste>, o: Options)
    requires PastedInto(s0, a, pastes, o) && b.windows == a.windows && b.nextWindow == a.nextWindow
    ensures PastedInto(s0, b, pastes, o)
  {
  }

  lemma {:induction false} AddWindowIs(p: Progress, name: string, taken: set<nat>, w: WindowSnap, o: Options)
    requires p.fault.None? && Wanted(taken, w, o) && Opened(p.server, name, taken, w).Ok?
    ensures var s, first := Opened(p.server, name, taken, w).value, p.server.nextPane;
            var q := AddWindow(p, name, taken, w, o);
            && w.panes != [] && Hosted(s, first)
            && q.server.windows == FilledServer(s, w, first).windows
            && q.server.nextWindow == FilledServer(s, w, first).nextWindow
            && q.pastes == p.pastes + PastesAmong(w, first, s.nextPane, o, |w.panes|)
  {
    OpenedForFilling(p.server, name, taken, w);
    hide Opened, FilledServer, PastesAmong;
  }

  lemma {:induction false} AddWindowPastes(s0: Server, p: Progress, name: string, taken: set<nat>, w: WindowSnap,
        o: Options)
    requires PastedInto(s0, p.server, p.pastes, o)
    ensures var q := AddWindow(p, name, taken, w, o);
            PastedInto(s0, q.server, q.pastes, o)
  {
    if p.fault.None? && Wanted(taken, w, o) && Opened(p.server, name, taken, w).Ok? {
      var s, first, id := Opened(p.server, name, taken, w).value, p.server.nextPane, p.server.nextWindow;
      OpenedForFilling(p.server, name, taken, w);
      OpenedNew(p.server, name, taken, w);
      var n := FilledServer(s, w, first);
      var more := PastesAmong(w, first, s.nextPane, o, |w.panes|);
      AddWindowIs(p, name, taken, w, o);
      hide *;
      FilledOthers(s, w, first);
      FilledIsAnswered(s, w, first, o);
      FitsAtHome(s, w, first, more, o);
      OneMoreAnswered(s0, p.server, n, p.pastes, more, o);
      Pasted(s0, n, AddWindow(p, name, taken, w, o).server, p.pastes + more, o);
    }
  }

  lemma {:induction false} AddWindowsPastes(s0: Server, p0: seq<Paste>, s: Server, name: string, taken: set<nat>,
        ws: seq<WindowSnap>, o: Options)
    requires PastedInto(s0, s, p0, o)
    ensures var p := AddWindows(s, name, taken, ws, o);
            PastedInto(s0, p.server, p0 + p.pastes, o)
  {
    hide AddWindow, PastedInto;
    if ws == [] {
      assert p0 + [] == p0;
    } else {
      var p := AddWindows(s, name, taken, Front(ws), o);
      AddWindowsPastes(s0, p0, s, name, taken, Front(ws), o);
      AddWindowPastes(s0, p.(pastes := p0 + p.pastes), name, taken, Last(ws), o);
      PastesBefore(p, p0, name, taken, Last(ws), o);
    }
  }

  lemma {:induction false} PastesBefore(p: Progress, p0: seq<Paste>, name: string, taken: set<nat>, w: WindowSnap,
        o: Options)
    ensures var q := AddWindow(p, name, taken, w, o);
            AddWindow(p.(pastes := p0 + p.pastes), name, taken, w, o) == q.(pastes := p0 + q.pastes)
  {
    hide Opened, FilledServer, PastesAmong;
    if p.fault.None? && Wanted(taken, w, o) && Opened(p.server, name, taken, w).Ok? {
      var s := Opened(p.server, name, taken, w).value;
      var more := PastesAmong(w, p.server.nextPane, s.nextPane, o, |w.panes|);
      assert p0 + p.pastes + more == p0 + (p.pastes + more);
    }
  }

  lemma {:induction false} ConfiguredPanes(s0: Server, s: Server, session: SessionSnap, pastes: seq<Paste>, o: Options)
    requires PastedInto(s0, s, pastes, o)
    ensures PastedInto(s0, Configured(s, session), pastes, o)
  {
    EnvWindows(s, session.name, session.env);
    var t := if session.name in s.sessions && session.category != ""
             then SetCategory(s, session.name, session.category) else s;
    EnvWindows(t, session.name, session.env);
    hide WithEnv, Answered, NewPanes;
  }

  lemma {:induction false} EnvWindows(s: Server, name: string, env: Env)
    ensures WithEnv(s, name, env).windows == s.windows && WithEnv(s, name, env).nextWindow == s.nextWindow
  {
    if env != [] {
      EnvWindows(s, name, Front(env));
    }
  }

  /** Whatever is restored and whatever fails, the commands pasted are those of the
      panes of the windows made, in order: each goes into its own pane, the shell
      reads it as the words the pane's option holds, or those resuming its agent,
      and it is submitted only for a known agent when agents are to be run. */
  lemma {:induction false} RestoredPastes(s: Server, sessions: seq<SessionSnap>, o: Options)
    ensures var r := Restored(s, sessions, o);
            PastedInto(s, r.server, r.pastes, o)
  {
    if sessions == [] {
    } else {
      var before := Restored(s, Front(sessions), o);
      var last := Last(sessions);
      var taken := TakenIn(before.server, last.name);
      var p := AddWindows(before.server, last.name, taken, last.windows, o);
      hide PastedInto, AddWindows, Configured;
      RestoredPastes(s, Front(sessions), o);
      AddWindowsPastes(s, before.pastes, before.server, last.name, taken, last.windows, o);
      ConfiguredPanes(s, p.server, last, before.pastes + p.pastes, o);
    }
  }
}
