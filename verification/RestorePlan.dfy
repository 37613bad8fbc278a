/** What a restore adds (src/restore.rs): where each window lands, when that
    works, and what stays untouched. */
module RestorePlan {
  import opened Wrappers
  import opened Inventory
  import opened Snapshots
  import opened TmuxServer
  import opened RestoreWindow
  import opened RestoreSessions

  // ---- Where windows land --------------------------------------------------

  /** A window of the snapshot and the index it is put at. */
  datatype Spot = Spot(index: nat, window: WindowSnap)

  function Occupied(taken: set<nat>, spots: seq<Spot>): set<nat> {
    if spots == [] then taken else Occupied(taken, Front(spots)) + {Last(spots).index}
  }

  /** `taken` is what the session had when its restore began: it is not updated
      as windows are added. */
  datatype Plan = Plan(spots: seq<Spot>, ok: bool)

  function IndexFor(taken: set<nat>, spots: seq<Spot>, base: nat, w: WindowSnap): nat {
    if w.index in taken then FirstUnused(Occupied(taken, spots), base) else w.index
  }

  function PlanWindow(p: Plan, taken: set<nat>, base: nat, w: WindowSnap, o: Options): Plan {
    if !p.ok || !Wanted(taken, w, o) then p else
    var x := IndexFor(taken, p.spots, base, w);
    if x in Occupied(taken, p.spots) then p.(ok := false) else Plan(p.spots + [Spot(x, w)], true)
  }

  function Planned(taken: set<nat>, base: nat, ws: seq<WindowSnap>, o: Options): Plan {
    if ws == [] then Plan([], true) else PlanWindow(Planned(taken, base, Front(ws), o), taken, base, Last(ws), o)
  }

  // ---- The server after some windows were placed ---------------------------

  /** A session after windows were added to it, or that was created for them. */
  function SessionWith(was: Option<TSession>, next: WindowId, spots: seq<Spot>): TSession
    requires was.Some? || spots != []
  {
    if spots == [] then was.value
    else if was.None? && |spots| == 1 then TSession("", map[], map[spots[0].index := next], spots[0].index)
    else
      var t, spot := SessionWith(was, next, Front(spots)), Last(spots);
      t.(slots := t.slots[spot.index := next + |spots| - 1],
         current := if spot.window.active then spot.window.index else t.current)
  }

  /** The window holds what the snapshot recorded; an automatically named one
      keeps the name tmux gives it. */
  ghost predicate Shows(t: TWindow, w: WindowSnap, shell: string) {
    && t.name == (if w.automaticRename then shell else w.name)
    && t.automaticRename == w.automaticRename && t.autonameOff == w.autonameOff
    && t.lastAutoname == w.lastAutoname && t.layout == w.layout
    && |t.panes| == |w.panes|
    && (forall i :: 0 <= i < |w.panes| ==>
          t.panes[i].cwd == w.panes[i].cwd && t.panes[i].pending == PendingOf(w.panes[i]))
    && (forall i, j :: 0 <= i < j < |w.panes| ==> t.panes[i].id != t.panes[j].id)
    && (forall i ::
          0 <= i < |w.panes| && w.panes[i].active && (forall j :: i < j < |w.panes| ==> !w.panes[j].active) ==>
          t.activePane == t.panes[i].id)
  }

  ghost predicate WindowsKept(before: map<WindowId, TWindow>, after: map<WindowId, TWindow>) {
    forall id :: id in before ==> id in after && after[id] == before[id]
  }

  /** The windows from `next` on hold those of the spots. */
  ghost predicate WindowsAdded(windows: map<WindowId, TWindow>, next: WindowId, spots: seq<Spot>, shell: string) {
    forall k: nat :: k < |spots| ==> SpotShown(windows, next + k, spots[k], shell)
  }

  ghost predicate SpotShown(windows: map<WindowId, TWindow>, id: WindowId, spot: Spot, shell: string) {
    id in windows && Shows(windows[id], spot.window, shell)
  }

  function SessionIn(s: Server, name: string): Option<TSession> {
    if name in s.sessions then Some(s.sessions[name]) else None
  }

  ghost predicate OthersKept(s0: Server, s1: Server, name: string) {
    forall n :: n != name ==> SessionIn(s1, n) == SessionIn(s0, n)
  }

  ghost predicate SameSettings(s0: Server, s1: Server) {
    s1.baseIndex == s0.baseIndex && s1.paneBase == s0.paneBase && s1.indexLimit == s0.indexLimit && s1.shell == s0.shell
  }

  /** `s1` is `s0` with windows for these spots added, all else kept but the session. */
  ghost predicate Enlarged(s0: Server, s1: Server, name: string, spots: seq<Spot>) {
    && Valid(s1) && SameSettings(s0, s1) && s1.nextWindow == s0.nextWindow + |spots|
    && WindowsKept(s0.windows, s1.windows) && WindowsAdded(s1.windows, s0.nextWindow, spots, s0.shell)
    && OthersKept(s0, s1, name)
  }

  /** The session with windows added at these spots; none if it isn't there yet. */
  function SessionGrown(s0: Server, name: string, spots: seq<Spot>): Option<TSession> {
    if name in s0.sessions || spots != [] then Some(SessionWith(SessionIn(s0, name), s0.nextWindow, spots)) else None
  }

  /** `s1` is `s0` with windows added at these spots of one session. */
  ghost predicate Grown(s0: Server, s1: Server, name: string, spots: seq<Spot>) {
    Enlarged(s0, s1, name, spots) && SessionIn(s1, name) == SessionGrown(s0, name, spots)
  }

  lemma {:induction false} SlotsOccupied(was: Option<TSession>, next: WindowId, spots: seq<Spot>)
    requires was.Some? || spots != []
    ensures SessionWith(was, next, spots).slots.Keys == Occupied(if was.Some? then was.value.slots.Keys else {}, spots)
  {
    if spots != [] && !(was.None? && |spots| == 1) {
      SlotsOccupied(was, next, Front(spots));
    } else if spots != [] {
      assert Front(spots) == [];
    }
  }

  // ---- One window ----------------------------------------------------------

  /** The session once a window was opened in it. */
  function OpenedIn(was: Option<TSession>, index: nat, next: WindowId): TSession {
    match was
    case None => TSession("", map[], map[index := next], index)
    case Some(t) => t.(slots := t.slots[index := next])
  }

  lemma {:induction false} OpenedShape(s: Server, name: string, taken: set<nat>, w: WindowSnap)
    requires w.panes != [] && (name !in s.sessions ==> w.index !in taken)
    ensures var x := if w.index in taken then FirstUnused(s.sessions[name].slots.Keys, s.baseIndex) else w.index;
            var r := Opened(s, name, taken, w);
            && (r.Err? <==> x in TakenIn(s, name))
            && (r.Ok? ==> r.value == s.(sessions := s.sessions[name := OpenedIn(SessionIn(s, name), x, s.nextWindow)],
                                        windows := s.windows[s.nextWindow := FreshWindow(s, w.panes[0].cwd)],
                                        home := s.home[s.nextPane := s.nextWindow],
                                        nextWindow := s.nextWindow + 1, nextPane := s.nextPane + 1))
  {
    if name !in s.sessions {
      var t := NewSession(s, name, w.panes[0].cwd).value;
      assert t.sessions[name].slots == map[s.baseIndex := s.nextWindow];
      if s.baseIndex != w.index {
        assert (t.sessions[name].slots - {s.baseIndex})[w.index := s.nextWindow] == map[w.index := s.nextWindow];
        assert MoveWindow(t, name, s.baseIndex, w.index).sessions
               == s.sessions[name := TSession("", map[], map[w.index := s.nextWindow], w.index)];
      } else {
        assert t.sessions == s.sessions[name := TSession("", map[], map[w.index := s.nextWindow], w.index)];
      }
    }
  }

  lemma {:induction false} LastSelected(w: WindowSnap, first: PaneId, next: PaneId, before: PaneId, n: nat, i: nat)
    requires i < n <= |w.panes| && w.panes[i].active && forall j :: i < j < n ==> !w.panes[j].active
    ensures SelectedAmong(w, first, next, before, n) == IdAt(first, next, i)
  {
    if i < n - 1 {
      LastSelected(w, first, next, before, n - 1, i);
    }
  }

  lemma {:induction false} FilledShows(s: Server, w: WindowSnap, first: PaneId, next: PaneId)
    requires first < next
    ensures Shows(FilledWindow(FreshWindow(s, ""), w, first, next), w, s.shell)
  {
    var t := FilledWindow(FreshWindow(s, ""), w, first, next);
    assert t.name == (if w.automaticRename then s.shell else w.name);
    forall i | 0 <= i < |w.panes| && w.panes[i].active && (forall j :: i < j < |w.panes| ==> !w.panes[j].active)
      ensures t.activePane == t.panes[i].id
    {
      LastSelected(w, first, next, FreshWindow(s, "").activePane, |w.panes|, i);
    }
  }

  lemma {:induction false} HomesBelow(home: map<PaneId, WindowId>, next: PaneId, n: nat, id: WindowId)
    requires forall p :: p in home ==> p < next
    ensures forall p :: p in Homes(home, next, n, id) ==> p < next + n
  {
    if n > 0 {
      HomesBelow(home, next, n - 1, id);
    }
  }

  /** The server once a window was opened at a free index and filled. */
  function Added(s: Server, name: string, x: nat, w: WindowSnap): Server
    requires w.panes != []
  {
    Server(s.sessions[name := OpenedIn(SessionIn(s, name), x, s.nextWindow)],
           s.windows[s.nextWindow := FilledWindow(FreshWindow(s, ""), w, s.nextPane, s.nextPane + 1)],
           Homes(s.home[s.nextPane := s.nextWindow], s.nextPane + 1, |w.panes| - 1, s.nextWindow),
           s.nextWindow + 1, s.nextPane + |w.panes|, s.baseIndex, s.paneBase, s.indexLimit, s.shell)
  }

  lemma {:induction false} OpenedAndFilled(s: Server, name: string, taken: set<nat>, w: WindowSnap, x: nat)
    requires w.panes != [] && Opened(s, name, taken, w).Ok?
    requires Opened(s, name, taken, w).value
             == s.(sessions := s.sessions[name := OpenedIn(SessionIn(s, name), x, s.nextWindow)],
                                        windows := s.windows[s.nextWindow := FreshWindow(s, w.panes[0].cwd)],
                                        home := s.home[s.nextPane := s.nextWindow],
                                        nextWindow := s.nextWindow + 1, nextPane := s.nextPane + 1)
    ensures Hosted(Opened(s, name, taken, w).value, s.nextPane)
    ensures FilledServer(Opened(s, name, taken, w).value, w, s.nextPane) == Added(s, name, x, w)
  {
    var a := Opened(s, name, taken, w).value;
    hide Opened, OpenedIn;
    var f, g := FreshWindow(s, w.panes[0].cwd), FreshWindow(s, "");
    assert Hosted(a, s.nextPane) && HostOf(a, s.nextPane) == f;
    assert FilledWindow(f, w, s.nextPane, s.nextPane + 1) == FilledWindow(g, w, s.nextPane, s.nextPane + 1);
    hide FilledWindow, Homes, FreshWindow;
    Overwrite(s.windows, s.nextWindow, f, FilledWindow(g, w, s.nextPane, s.nextPane + 1));
  }

  lemma {:induction false} AddedIsValid(s: Server, name: string, x: nat, w: WindowSnap)
    requires Valid(s) && w.panes != []
    ensures Valid(Added(s, name, x, w))
  {
    HomesBelow(s.home[s.nextPane := s.nextWindow], s.nextPane + 1, |w.panes| - 1, s.nextWindow);
    hide Homes, FilledWindow, FreshWindow;
    var t := Added(s, name, x, w);
    forall n, i | n in t.sessions && i in t.sessions[n].slots
      ensures t.sessions[n].slots[i] in t.windows
    {
      if n != name || i != x {
        assert n in s.sessions && i in s.sessions[n].slots && s.sessions[n].slots[i] == t.sessions[n].slots[i];
        assert s.sessions[n].slots[i] in s.windows;
      }
    }
  }

  lemma {:induction false} OneMoreAdded(windows: map<WindowId, TWindow>, next: WindowId, spots: seq<Spot>,
        shell: string,
                                        t: TWindow, spot: Spot)
    requires WindowsAdded(windows, next, spots, shell) && Shows(t, spot.window, shell)
    ensures WindowsAdded(windows[next + |spots| := t], next, spots + [spot], shell)
  {
    var after, more := windows[next + |spots| := t], spots + [spot];
    forall k: nat | k < |more|
      ensures SpotShown(after, next + k, more[k], shell)
    {
      assert k < |spots| ==> SpotShown(windows, next + k, spots[k], shell);
    }
  }

  lemma {:induction false} AddedAdds(s0: Server, s: Server, name: string, spots: seq<Spot>, x: nat, w: WindowSnap)
    requires Valid(s0) && w.panes != [] && s.nextWindow == s0.nextWindow + |spots|
    requires WindowsKept(s0.windows, s.windows)
             && WindowsAdded(s.windows, s0.nextWindow, spots, s0.shell) && s.shell == s0.shell
    ensures var t := Added(s, name, x, w);
            WindowsKept(s0.windows, t.windows) && WindowsAdded(t.windows, s0.nextWindow, spots + [Spot(x, w)], s0.shell)
  {
    FilledShows(s, w, s.nextPane, s.nextPane + 1);
    var filled := FilledWindow(FreshWindow(s, ""), w, s.nextPane, s.nextPane + 1);
    assert Added(s, name, x, w).windows == s.windows[s.nextWindow := filled];
    hide Shows, Added, FilledWindow, FreshWindow, WindowsAdded;
    OneMoreAdded(s.windows, s0.nextWindow, spots, s0.shell, filled, Spot(x, w));
  }

  lemma {:induction false} AddedGrows(s0: Server, s: Server, name: string, spots: seq<Spot>, x: nat, w: WindowSnap)
    requires Valid(s0) && Grown(s0, s, name, spots) && w.panes != []
    ensures Enlarged(s0, Added(s, name, x, w), name, spots + [Spot(x, w)])
  {
    AddedIsValid(s, name, x, w);
    AddedAdds(s0, s, name, spots, x, w);
    hide Valid, WindowsKept, WindowsAdded, Homes, FilledWindow, FreshWindow, OpenedIn, SessionWith;
    forall n | n != name
      ensures SessionIn(Added(s, name, x, w), n) == SessionIn(s0, n)
    {
      assert SessionIn(s, n) == SessionIn(s0, n);
    }
  }

  /** The session after one more window, selected when it was active. */
  lemma {:induction false} OneMoreSpot(was: Option<TSession>, next: WindowId, spots: seq<Spot>, x: nat, w: WindowSnap)
    requires was.Some? || spots != [] || x == w.index
    ensures var now := if was.Some? || spots != [] then Some(SessionWith(was, next, spots)) else None;
            var t := OpenedIn(now, x, next + |spots|);
            (w.index in t.slots || !w.active) ==>
              SessionWith(was, next, spots + [Spot(x, w)]) == if w.active then t.(current := w.index) else t
  {
    assert Front(spots + [Spot(x, w)]) == spots;
  }

  lemma {:induction false} SelectedSession(s: Server, name: string, index: nat)
    requires name in s.sessions && index in s.sessions[name].slots
    ensures SelectWindow(s, name, index) == s.(sessions := s.sessions[name := s.sessions[name].(current := index)])
  {
  }

  /** Changing which window is current leaves the rest as it is. */
  lemma {:induction false} SelectingKeeps(s0: Server, t: Server, name: string, spots: seq<Spot>, index: nat)
    requires Enlarged(s0, t, name, spots)
    ensures Enlarged(s0, SelectWindow(t, name, index), name, spots)
  {
    hide WindowsKept, WindowsAdded;
    var u := SelectWindow(t, name, index);
    forall n, i | n in u.sessions && i in u.sessions[n].slots
      ensures u.sessions[n].slots[i] in u.windows
    {
      assert n in t.sessions && i in t.sessions[n].slots && u.sessions[n].slots == t.sessions[n].slots;
      assert t.sessions[n].slots[i] in t.windows;
    }
    forall n | n != name
      ensures SessionIn(u, n) == SessionIn(s0, n)
    {
      assert SessionIn(t, n) == SessionIn(s0, n);
    }
  }

  lemma {:induction false} OccupiedIn(s0: Server, s: Server, name: string, spots: seq<Spot>)
    requires Grown(s0, s, name, spots)
    ensures TakenIn(s, name) == Occupied(TakenIn(s0, name), spots)
    ensures name in s.sessions <==> name in s0.sessions || spots != []
  {
    hide Valid, WindowsKept, WindowsAdded, OthersKept, SessionWith;
    if name in s0.sessions || spots != [] {
      SlotsOccupied(SessionIn(s0, name), s0.nextWindow, spots);
    }
  }

  /** What one more window does to the server, as a step on it. */
  lemma {:induction false} AddWindowStep(s0: Server, p: Progress, name: string, spots: seq<Spot>, w: WindowSnap,
        o: Options)
    requires p.fault.None? && Wanted(TakenIn(s0, name), w, o) && SameSettings(s0, p.server)
    requires TakenIn(p.server, name) == Occupied(TakenIn(s0, name), spots)
             && (name in s0.sessions ==> name in p.server.sessions)
    ensures var taken := TakenIn(s0, name);
            var x, q := IndexFor(taken, spots, s0.baseIndex, w), AddWindow(p, name, taken, w, o);
            && (q.fault.Some? <==> x in Occupied(taken, spots))
            && (q.fault.Some? ==> q == p.(fault := q.fault))
            && (q.fault.None? ==> q.created == p.created + 1)
            && (q.fault.None? ==>
                  var t := Added(p.server, name, x, w);
                  q.server == if w.active then SelectWindow(t, name, w.index) else t)
  {
    var taken, s := TakenIn(s0, name), p.server;
    var x := IndexFor(taken, spots, s0.baseIndex, w);
    OpenedShape(s, name, taken, w);
    if x !in Occupied(taken, spots) {
      OpenedAndFilled(s, name, taken, w, x);
    }
    hide Opened, OpenedIn, Added, Occupied, SelectWindow, PastesAmong, FilledServer;
  }

  lemma {:induction false} SpotSession(s0: Server, s: Server, name: string, spots: seq<Spot>, x: nat, w: WindowSnap)
    requires SessionIn(s, name) == SessionGrown(s0, name, spots)
    requires w.panes != [] && s.nextWindow == s0.nextWindow + |spots| && (x == w.index || w.index in TakenIn(s, name))
    requires name in s0.sessions || spots != [] || x == w.index
    ensures var t := Added(s, name, x, w);
            SessionIn(if w.active then SelectWindow(t, name, w.index) else t, name)
            == Some(SessionWith(SessionIn(s0, name), s0.nextWindow, spots + [Spot(x, w)]))
  {
    var t := Added(s, name, x, w);
    OneMoreSpot(SessionIn(s0, name), s0.nextWindow, spots, x, w);
    assert t.sessions[name] == OpenedIn(SessionIn(s, name), x, s.nextWindow);
    assert w.index in t.sessions[name].slots;
    SelectedSession(t, name, w.index);
    hide SessionWith, SelectWindow, Added, OpenedIn;
  }

  lemma {:induction false} AddWindowGrows(s0: Server, p: Progress, name: string, spots: seq<Spot>, w: WindowSnap,
        o: Options)
    requires Valid(s0) && p.fault.None? && Grown(s0, p.server, name, spots) && Wanted(TakenIn(s0, name), w, o)
    ensures var taken := TakenIn(s0, name);
            var x, q := IndexFor(taken, spots, s0.baseIndex, w), AddWindow(p, name, taken, w, o);
            if x in Occupied(taken, spots) then q.fault.Some? && q.server == p.server && q.created == p.created
            else q.fault.None? && q.created == p.created + 1 && Grown(s0, q.server, name, spots + [Spot(x, w)])
  {
    var taken, s := TakenIn(s0, name), p.server;
    var x := IndexFor(taken, spots, s0.baseIndex, w);
    OccupiedIn(s0, s, name, spots);
    OccupiedKeeps(taken, spots);
    assert w.panes != [] && (x == w.index || w.index in taken);
    assert name !in s0.sessions ==> x == w.index;
    hide Wanted, TakenIn, IndexFor, SessionWith, SessionIn, SelectWindow, Added, AddWindow, Occupied,
         WindowsKept, WindowsAdded, OthersKept, Valid;
    AddWindowStep(s0, p, name, spots, w, o);
    if x !in Occupied(taken, spots) {
      AddedGrows(s0, s, name, spots, x, w);
      SpotSession(s0, s, name, spots, x, w);
      SelectingKeeps(s0, Added(s, name, x, w), name, spots + [Spot(x, w)], w.index);
    }
  }

  lemma {:induction false} OccupiedKeeps(taken: set<nat>, spots: seq<Spot>)
    ensures taken <= Occupied(taken, spots)
  {
    if spots != [] {
      OccupiedKeeps(taken, Front(spots));
    }
  }

  // ---- One session ---------------------------------------------------------

  /** Restoring a session follows its plan: it works exactly when the plan does,
      and either way the server has grown by the planned windows. */
  lemma {:induction false} WindowsFollowPlan(s0: Server, name: string, ws: seq<WindowSnap>, o: Options)
    requires Valid(s0)
    ensures var plan := Planned(TakenIn(s0, name), s0.baseIndex, ws, o);
            var p := AddWindows(s0, name, TakenIn(s0, name), ws, o);
            (p.fault.None? <==> plan.ok) && p.created == |plan.spots| && Grown(s0, p.server, name, plan.spots)
  {
    if ws != [] {
      var taken, before := TakenIn(s0, name), Planned(TakenIn(s0, name), s0.baseIndex, Front(ws), o);
      hide Grown, IndexFor, Opened, TakenIn;
      WindowsFollowPlan(s0, name, Front(ws), o);
      var p := AddWindows(s0, name, taken, Front(ws), o);
      if p.fault.None? && Wanted(taken, Last(ws), o) {
        AddWindowGrows(s0, p, name, before.spots, Last(ws), o);
      }
    }
  }

  /** Setting the category and environment leaves every window where it is. */
  ghost predicate SameWindows(a: Server, b: Server) {
    && b.windows == a.windows && b.home == a.home && b.nextWindow == a.nextWindow && b.nextPane == a.nextPane
    && SameSettings(a, b) && b.sessions.Keys == a.sessions.Keys
    && forall n :: n in a.sessions ==>
      b.sessions[n].slots == a.sessions[n].slots && b.sessions[n].current == a.sessions[n].current
  }

  lemma {:induction false} EnvKeeps(s: Server, name: string, env: Env)
    ensures SameWindows(s, WithEnv(s, name, env)) && OthersKept(s, WithEnv(s, name, env), name)
    ensures name in s.sessions ==> WithEnv(s, name, env).sessions[name].category == s.sessions[name].category
  {
    if env != [] {
      EnvKeeps(s, name, Front(env));
      var t := WithEnv(s, name, Front(env));
      forall n | n != name
        ensures SessionIn(WithEnv(s, name, env), n) == SessionIn(s, n)
      {
        assert SessionIn(t, n) == SessionIn(s, n);
      }
    }
  }

  lemma {:induction false} ConfiguredKeeps(s: Server, session: SessionSnap)
    ensures SameWindows(s, Configured(s, session)) && OthersKept(s, Configured(s, session), session.name)
    ensures session.name in s.sessions ==>
              Configured(s, session).sessions[session.name].category
              == (if session.category != "" then session.category else s.sessions[session.name].category)
  {
    var t := if session.name in s.sessions && session.category != ""
             then SetCategory(s, session.name, session.category) else s;
    EnvKeeps(t, session.name, session.env);
    hide WithEnv;
    forall n | n != session.name
      ensures SessionIn(Configured(s, session), n) == SessionIn(s, n)
    {
      assert SessionIn(Configured(s, session), n) == SessionIn(t, n);
    }
  }

  /** What restoring a session keeps and adds, whatever its outcome. */
  ghost predicate Merged(s0: Server, s1: Server, name: string, spots: seq<Spot>) {
    && Enlarged(s0, s1, name, spots)
    && TakenIn(s1, name) == Occupied(TakenIn(s0, name), spots)
    && (name in s0.sessions ==> name in s1.sessions)
    && (forall i :: name in s0.sessions && i in s0.sessions[name].slots && i !in Indexes(spots) ==>
          i in s1.sessions[name].slots && s1.sessions[name].slots[i] == s0.sessions[name].slots[i])
    && (DistinctSpots(spots) ==> forall k :: 0 <= k < |spots| ==>
          name in s1.sessions && spots[k].index in s1.sessions[name].slots
          && s1.sessions[name].slots[spots[k].index] == s0.nextWindow + k)
  }

  ghost predicate DistinctSpots(spots: seq<Spot>) {
    forall i, j :: 0 <= i < j < |spots| ==> spots[i].index != spots[j].index
  }

  lemma {:induction false} SpotSlots(was: Option<TSession>, next: WindowId, spots: seq<Spot>, k: nat)
    requires DistinctSpots(spots) && k < |spots|
    ensures spots[k].index in SessionWith(was, next, spots).slots
            && SessionWith(was, next, spots).slots[spots[k].index] == next + k
  {
    if k < |spots| - 1 {
      assert forall i :: 0 <= i < |Front(spots)| ==> Front(spots)[i] == spots[i];
      SpotSlots(was, next, Front(spots), k);
    }
  }

  function Indexes(spots: seq<Spot>): set<nat> {
    Occupied({}, spots)
  }

  lemma {:induction false} SlotsKept(was: Option<TSession>, next: WindowId, spots: seq<Spot>, i: nat)
    requires was.Some? && i in was.value.slots && i !in Indexes(spots)
    ensures i in SessionWith(was, next, spots).slots && SessionWith(was, next, spots).slots[i] == was.value.slots[i]
  {
    if spots != [] {
      SlotsKept(was, next, Front(spots), i);
    }
  }

  lemma {:induction false} GrownMerges(s0: Server, s1: Server, s2: Server, name: string, spots: seq<Spot>)
    requires Grown(s0, s1, name, spots) && SameWindows(s1, s2) && OthersKept(s1, s2, name)
    ensures Merged(s0, s2, name, spots)
  {
    OccupiedIn(s0, s1, name, spots);
    hide WindowsKept, WindowsAdded, SessionWith, Occupied, Indexes;
    forall n, i | n in s2.sessions && i in s2.sessions[n].slots
      ensures s2.sessions[n].slots[i] in s2.windows
    {
      assert n in s1.sessions && i in s1.sessions[n].slots && s1.sessions[n].slots[i] in s1.windows;
    }
    forall n | n != name
      ensures SessionIn(s2, n) == SessionIn(s0, n)
    {
      assert SessionIn(s2, n) == SessionIn(s1, n) == SessionIn(s0, n);
    }
    if name in s0.sessions {
      forall i | i in s0.sessions[name].slots && i !in Indexes(spots)
        ensures i in s2.sessions[name].slots && s2.sessions[name].slots[i] == s0.sessions[name].slots[i]
      {
        SlotsKept(SessionIn(s0, name), s0.nextWindow, spots, i);
      }
    }
    if DistinctSpots(spots) {
      forall k | 0 <= k < |spots|
        ensures spots[k].index in s2.sessions[name].slots
                && s2.sessions[name].slots[spots[k].index] == s0.nextWindow + k
      {
        SpotSlots(SessionIn(s0, name), s0.nextWindow, spots, k);
      }
    }
  }

  /** Restoring one session: it succeeds exactly when its plan does; each planned
      window is added with what the snapshot recorded; no other window, session
      or slot changes. */
  lemma {:induction false} SessionMerges(s0: Server, session: SessionSnap, o: Options)
    requires Valid(s0)
    ensures var plan := Planned(TakenIn(s0, session.name), s0.baseIndex, session.windows, o);
            var p := SessionRestored(s0, session, o);
            (p.fault.None? <==> plan.ok) && p.created == |plan.spots| && Merged(s0, p.server, session.name, plan.spots)
  {
    var name, taken := session.name, TakenIn(s0, session.name);
    var plan, p := Planned(taken, s0.baseIndex, session.windows, o), AddWindows(s0, name, taken, session.windows, o);
    WindowsFollowPlan(s0, name, session.windows, o);
    ConfiguredKeeps(p.server, session);
    hide Planned, AddWindows, Grown, SameWindows, OthersKept, Configured, Merged, TakenIn;
    NothingChanged(p.server, name);
    GrownMerges(s0, p.server, SessionRestored(s0, session, o).server, name, plan.spots);
  }

  lemma {:induction false} NothingChanged(s: Server, name: string)
    ensures SameWindows(s, s) && OthersKept(s, s, name)
  {
  }
}
