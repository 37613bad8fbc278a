/** A snapshot restored and taken again (src/snapshot.rs, src/restore.rs): with
    every pane idle, the next snapshot says the same. */
module RoundTrip {
  import opened Wrappers
  import opened Inventory
  import opened Snapshots
  import opened TmuxServer
  import opened RestoreWindow
  import opened RestoreSessions
  import opened RestorePlan
  import opened RestoreMerging

  // ---- Listing the server --------------------------------------------------

  /** The pane as `list-panes` reports it; what snapshots don't read is blank. */
  function PaneListed(s: Server, name: string, index: nat, k: nat): Pane
    requires HasWindow(s, name, index) && k < |WindowAt(s, name, index).panes|
  {
    var t, w := s.sessions[name], WindowAt(s, name, index);
    var p := w.panes[k];
    Pane(p.id, name, t.slots[index], index, w.name, s.paneBase + k,
         t.current == index && w.activePane == p.id, false, 0,
         p.cwd, w.automaticRename, w.autonameOff, w.lastAutoname, t.category, w.layout, t.current == index,
         w.activePane == p.id, p.pending, false, "")
  }

  predicate HasWindow(s: Server, name: string, index: nat) {
    name in s.sessions && index in s.sessions[name].slots && s.sessions[name].slots[index] in s.windows
  }

  function WindowAt(s: Server, name: string, index: nat): TWindow
    requires HasWindow(s, name, index)
  {
    s.windows[s.sessions[name].slots[index]]
  }

  function WindowPanes(s: Server, name: string, index: nat, n: nat): seq<Pane>
    requires HasWindow(s, name, index) && n <= |WindowAt(s, name, index).panes|
  {
    if n == 0 then [] else WindowPanes(s, name, index, n - 1) + [PaneListed(s, name, index, n - 1)]
  }

  ghost predicate HasWindows(s: Server, name: string, indexes: seq<nat>) {
    forall k :: 0 <= k < |indexes| ==> HasWindow(s, name, indexes[k])
  }

  function SessionPanes(s: Server, name: string, indexes: seq<nat>): seq<Pane>
    requires HasWindows(s, name, indexes)
  {
    if indexes == [] then [] else
    SessionPanes(s, name, Front(indexes))
      + WindowPanes(s, name, Last(indexes), |WindowAt(s, name, Last(indexes)).panes|)
  }

  /** The taken indexes below `limit`, ascending. */
  function Ascending(taken: set<nat>, limit: nat): seq<nat> {
    if limit == 0 then [] else Ascending(taken, limit - 1) + if limit - 1 in taken then [limit - 1] else []
  }

  lemma {:induction false} AscendingTaken(taken: set<nat>, limit: nat, k: nat)
    requires k < |Ascending(taken, limit)|
    ensures Ascending(taken, limit)[k] in taken && Ascending(taken, limit)[k] < limit
    decreases limit
  {
    if k < |Ascending(taken, limit - 1)| {
      AscendingTaken(taken, limit - 1, k);
    }
  }

  function SessionIndexes(s: Server, name: string): seq<nat> {
    Ascending(TakenIn(s, name), s.indexLimit)
  }

  /** Every pane of these sessions, windows by ascending index. */
  function ListPanes(s: Server, names: seq<string>): seq<Pane>
    requires Valid(s)
  {
    if names == [] then [] else
    ListPanes(s, Front(names)) +
      (IndexesHaveWindows(s, Last(names)); SessionPanes(s, Last(names), SessionIndexes(s, Last(names))))
  }

  lemma {:induction false} IndexesHaveWindows(s: Server, name: string)
    requires Valid(s)
    ensures HasWindows(s, name, SessionIndexes(s, name))
  {
    var indexes := SessionIndexes(s, name);
    forall k | 0 <= k < |indexes|
      ensures HasWindow(s, name, indexes[k])
    {
      AscendingTaken(TakenIn(s, name), s.indexLimit, k);
    }
  }

  // ---- What a snapshot of the server says ----------------------------------

  function PaneViews(f: Facts, s: Server, name: string, index: nat, n: nat): seq<PaneSnap>
    requires HasWindow(s, name, index) && n <= |WindowAt(s, name, index).panes|
  {
    if n == 0 then [] else PaneViews(f, s, name, index, n - 1) + [PaneOf(f, PaneListed(s, name, index, n - 1))]
  }

  function WindowView(f: Facts, s: Server, name: string, index: nat, n: nat): WindowSnap
    requires HasWindow(s, name, index) && n <= |WindowAt(s, name, index).panes|
  {
    var t, w := s.sessions[name], WindowAt(s, name, index);
    WindowSnap(t.slots[index], index, w.name, w.automaticRename, w.autonameOff, w.lastAutoname, w.layout,
               t.current == index,
               PaneViews(f, s, name, index, n))
  }

  function WindowViews(f: Facts, s: Server, name: string, indexes: seq<nat>): seq<WindowSnap>
    requires HasWindows(s, name, indexes)
  {
    if indexes == [] then [] else
    WindowViews(f, s, name, Front(indexes))
      + [WindowView(f, s, name, Last(indexes), |WindowAt(s, name, Last(indexes)).panes|)]
  }

  function SessionView(f: Facts, s: Server, name: string, ws: seq<WindowSnap>): SessionSnap
    requires name in s.sessions
  {
    SessionSnap(name, s.sessions[name].category, if name in f.env then f.env[name] else [], ws)
  }

  /** The sessions grouped so far, one of them perhaps being filled. */
  function Opening(acc: seq<SessionSnap>, session: SessionSnap): seq<SessionSnap> {
    if session.windows == [] then acc else acc + [session]
  }

  lemma {:induction false} GroupedAppend(f: Facts, acc: seq<SessionSnap>, a: seq<Pane>, b: seq<Pane>)
    ensures Grouped(f, acc, a + b) == Grouped(f, Grouped(f, acc, a), b)
    decreases |a|
  {
    hide AddPane;
    if a == [] {
      assert a + b == b;
    } else {
      GroupedAppend(f, AddPane(f, acc, a[0]), a[1..], b);
      assert (a + b)[1..] == a[1..] + b;
    }
  }

  lemma {:induction false} GroupedOne(f: Facts, acc: seq<SessionSnap>, p: Pane)
    ensures Grouped(f, acc, [p]) == AddPane(f, acc, p)
  {
    hide AddPane;
    assert Grouped(f, AddPane(f, acc, p), [p][1..]) == AddPane(f, acc, p);
  }

  lemma {:induction false} FirstPaneOpens(f: Facts, s: Server, name: string, index: nat, acc: seq<SessionSnap>,
        before: seq<WindowSnap>)
    requires HasWindow(s, name, index) && WindowAt(s, name, index).panes != []
    requires acc == [] || Last(acc).name != name
    requires before == [] || Last(before).id != s.sessions[name].slots[index]
    ensures AddPane(f, Opening(acc, SessionView(f, s, name, before)), PaneListed(s, name, index, 0))
            == acc + [SessionView(f, s, name, before + [WindowView(f, s, name, index, 1)])]
  {
    var p := PaneListed(s, name, index, 0);
    hide PaneOf;
    assert PaneViews(f, s, name, index, 1) == [PaneOf(f, p)];
    assert WindowOf(p).(panes := [PaneOf(f, p)]) == WindowView(f, s, name, index, 1);
    if before != [] {
      assert Front(acc + [SessionView(f, s, name, before)]) == acc;
    } else {
      assert [] + [WindowView(f, s, name, index, 1)] == [WindowView(f, s, name, index, 1)];
    }
  }

  lemma {:induction false} NextPaneJoins(f: Facts, s: Server, name: string, index: nat, acc: seq<SessionSnap>,
        before: seq<WindowSnap>, n: nat)
    requires HasWindow(s, name, index) && 0 < n < |WindowAt(s, name, index).panes|
    ensures AddPane(f, acc + [SessionView(f, s, name, before + [WindowView(f, s, name, index, n)])],
            PaneListed(s, name, index, n))
            == acc + [SessionView(f, s, name, before + [WindowView(f, s, name, index, n + 1)])]
  {
    var p := PaneListed(s, name, index, n);
    hide PaneOf;
    var view, more := WindowView(f, s, name, index, n), WindowView(f, s, name, index, n + 1);
    assert Front(before + [view]) == before;
    assert AddToWindows(f, before + [view], p) == before + [more];
    assert Front(acc + [SessionView(f, s, name, before + [view])]) == acc;
    hide WindowView, PaneListed, AddToWindows;
  }

  lemma {:induction false} WindowGrouped(f: Facts, s: Server, name: string, index: nat, acc: seq<SessionSnap>,
        before: seq<WindowSnap>, n: nat)
    requires HasWindow(s, name, index) && 0 < n <= |WindowAt(s, name, index).panes|
    requires acc == [] || Last(acc).name != name
    requires before == [] || Last(before).id != s.sessions[name].slots[index]
    ensures Grouped(f, Opening(acc, SessionView(f, s, name, before)), WindowPanes(s, name, index, n))
            == acc + [SessionView(f, s, name, before + [WindowView(f, s, name, index, n)])]
    decreases n
  {
    var a, b := WindowPanes(s, name, index, n - 1), PaneListed(s, name, index, n - 1);
    var start := Opening(acc, SessionView(f, s, name, before));
    assert WindowPanes(s, name, index, n) == a + [b];
    assert Grouped(f, start, []) == start;
    assert n == 1 ==> a == [];
    hide *;
    GroupedAppend(f, start, a, [b]);
    if n == 1 {
      GroupedOne(f, start, b);
      FirstPaneOpens(f, s, name, index, acc, before);
    } else {
      WindowGrouped(f, s, name, index, acc, before, n - 1);
      GroupedOne(f, acc + [SessionView(f, s, name, before + [WindowView(f, s, name, index, n - 1)])], b);
      NextPaneJoins(f, s, name, index, acc, before, n - 1);
    }
  }

  /** Every window has panes and no window is listed twice. */
  ghost predicate Listable(s: Server, name: string, indexes: seq<nat>) {
    && HasWindows(s, name, indexes)
    && (forall k :: 0 <= k < |indexes| ==> WindowAt(s, name, indexes[k]).panes != [])
    && (forall i, j :: 0 <= i < j < |indexes| && HasWindow(s, name, indexes[i]) && HasWindow(s, name, indexes[j]) ==>
          s.sessions[name].slots[indexes[i]] != s.sessions[name].slots[indexes[j]])
  }

  lemma {:induction false} SessionGrouped(f: Facts, s: Server, name: string, indexes: seq<nat>, acc: seq<SessionSnap>)
    requires name in s.sessions && Listable(s, name, indexes) && (acc == [] || Last(acc).name != name)
    ensures Grouped(f, acc, SessionPanes(s, name, indexes))
            == Opening(acc, SessionView(f, s, name, WindowViews(f, s, name, indexes)))
    decreases |indexes|
  {
    if indexes != [] {
      var front, x := Front(indexes), Last(indexes);
      assert forall k :: 0 <= k < |front| ==> front[k] == indexes[k];
      assert Listable(s, name, front);
      var n := |WindowAt(s, name, x).panes|;
      var before := WindowViews(f, s, name, front);
      if front != [] {
        assert HasWindow(s, name, indexes[|indexes| - 2]) && HasWindow(s, name, indexes[|indexes| - 1]);
        assert Last(front) == indexes[|indexes| - 2];
        assert Last(before).id == s.sessions[name].slots[Last(front)];
      }
      assert SessionPanes(s, name, indexes) == SessionPanes(s, name, front) + WindowPanes(s, name, x, n);
      hide WindowPanes, WindowView, Listable, SessionPanes;
      SessionGrouped(f, s, name, front, acc);
      GroupedAppend(f, acc, SessionPanes(s, name, front), WindowPanes(s, name, x, n));
      WindowGrouped(f, s, name, x, acc, before, n);
    }
  }

  function SessionViews(f: Facts, s: Server, names: seq<string>): seq<SessionSnap>
    requires Valid(s) && forall n :: n in names ==> n in s.sessions
  {
    if names == [] then [] else
    FrontLast(names);
    IndexesHaveWindows(s, Last(names));
    SessionViews(f, s, Front(names))
    + [SessionView(f, s, Last(names), WindowViews(f, s, Last(names), SessionIndexes(s, Last(names))))]
  }

  lemma {:induction false} SessionViewAt(f: Facts, s: Server, names: seq<string>, j: nat)
    requires Valid(s) && (forall n :: n in names ==> n in s.sessions) && j < |names|
    ensures |SessionViews(f, s, names)| == |names| && HasWindows(s, names[j], SessionIndexes(s, names[j]))
    ensures SessionViews(f, s, names)[j]
            == SessionView(f, s, names[j], WindowViews(f, s, names[j], SessionIndexes(s, names[j])))
    decreases |names|
  {
    FrontLast(names);
    IndexesHaveWindows(s, Last(names));
    hide WindowViews, SessionView, HasWindows, SessionIndexes, Valid;
    if j < |names| - 1 {
      SessionViewAt(f, s, Front(names), j);
    } else if |names| > 1 {
      SessionViewAt(f, s, Front(names), 0);
    }
  }

  /** A listed session has windows, each with panes and in one slot. */
  ghost predicate Populated(s: Server, name: string) {
    && name in s.sessions && SessionIndexes(s, name) != [] && Listable(s, name, SessionIndexes(s, name))
  }

  /** The snapshot of a server: one entry for each listed session with its windows
      by ascending index and their panes in order. */
  lemma {:induction false} SnapshotOfServer(f: Facts, s: Server, names: seq<string>)
    requires Valid(s) && (forall n :: n in names ==> Populated(s, n))
    requires forall n :: n in names ==> n in s.sessions
    requires forall i, j :: 0 <= i < j < |names| ==> names[i] != names[j]
    ensures Grouped(f, [], ListPanes(s, names)) == SessionViews(f, s, names)
    decreases |names|
  {
    if names != [] {
      var front, name := Front(names), Last(names);
      FrontLast(names);
      IndexesHaveWindows(s, name);
      var indexes := SessionIndexes(s, name);
      assert Populated(s, name) && forall n :: n in front ==> n in names;
      var ws := WindowViews(f, s, name, indexes);
      assert ws != [];
      var before := SessionViews(f, s, front);
      assert ListPanes(s, names) == ListPanes(s, front) + SessionPanes(s, name, indexes);
      assert SessionViews(f, s, names) == before + [SessionView(f, s, name, ws)];
      if front != [] {
        SessionViewAt(f, s, front, |front| - 1);
        assert Last(before).name == Last(front) != name;
      } else {
        assert before == [];
      }
      SnapshotOfServer(f, s, front);
      assert Opening(before, SessionView(f, s, name, ws)) == before + [SessionView(f, s, name, ws)];
      assert Listable(s, name, indexes);
      hide *;
      GroupedAppend(f, [], ListPanes(s, front), SessionPanes(s, name, indexes));
      SessionGrouped(f, s, name, indexes, before);
    }
  }

  // ---- What a snapshot of a server looks like ------------------------------

  ghost predicate ActiveAmong(w: WindowSnap, i: nat) {
    i < |w.panes| && forall j :: 0 <= j < |w.panes| ==> (w.panes[j].active <==> j == i)
  }

  ghost predicate WellFormedWindow(w: WindowSnap, paneBase: nat) {
    (exists i: nat :: ActiveAmong(w, i)) && forall i :: 0 <= i < |w.panes| ==> w.panes[i].index == paneBase + i
  }

  ghost predicate ActiveWindow(ws: seq<WindowSnap>, a: nat) {
    a < |ws| && forall k :: 0 <= k < |ws| ==> (ws[k].active <==> k == a)
  }

  /** Windows by ascending index, one of them active, and so for their panes. */
  ghost predicate WellFormed(session: SessionSnap, paneBase: nat, limit: nat) {
    var ws := session.windows;
    && (exists a: nat :: ActiveWindow(ws, a))
    && (forall k :: 0 <= k < |ws| ==> ws[k].index < limit && WellFormedWindow(ws[k], paneBase))
    && (forall i, j :: 0 <= i < j < |ws| ==> ws[i].index < ws[j].index)
  }

  /** No pane runs a command or an agent. */
  ghost predicate Idle(f: Facts) {
    f.argvs == map[] && forall p :: p in f.states ==> f.states[p].agent.None?
  }

  /** Everything but the window id, the layout and the name tmux picks for an
      automatically named window. */
  ghost predicate SameWindow(v: WindowSnap, w: WindowSnap) {
    && v.index == w.index && v.automaticRename == w.automaticRename && v.autonameOff == w.autonameOff
    && v.lastAutoname == w.lastAutoname && v.active == w.active && v.panes == w.panes
    && (v.name == w.name || w.automaticRename)
  }

  ghost predicate SameSession(a: SessionSnap, b: SessionSnap) {
    && a.name == b.name && a.category == b.category && |a.windows| == |b.windows|
    && forall k :: 0 <= k < |a.windows| ==> SameWindow(a.windows[k], b.windows[k])
  }

  // ---- A restored session --------------------------------------------------

  function SnapIndexes(ws: seq<WindowSnap>): (indexes: seq<nat>)
    ensures |indexes| == |ws| && forall k :: 0 <= k < |ws| ==> indexes[k] == ws[k].index
  {
    if ws == [] then [] else SnapIndexes(Front(ws)) + [Last(ws).index]
  }

  /** The session has exactly these windows, as recorded. */
  ghost predicate InPlace(s: Server, session: SessionSnap) {
    var name, ws := session.name, session.windows;
    && name in s.sessions && s.sessions[name].category == session.category
    && SessionIndexes(s, name) == SnapIndexes(ws)
    && (forall k :: 0 <= k < |ws| ==>
          HasWindow(s, name, ws[k].index) && Shows(WindowAt(s, name, ws[k].index), ws[k], s.shell))
    && (forall k :: 0 <= k < |ws| ==> (s.sessions[name].current == ws[k].index <==> ws[k].active))
    && Listable(s, name, SessionIndexes(s, name))
  }

  lemma {:induction false} PaneRestored(f: Facts, s: Server, name: string, w: WindowSnap, k: nat)
    requires HasWindow(s, name, w.index) && Shows(WindowAt(s, name, w.index), w, s.shell)
    requires WellFormedWindow(w, s.paneBase) && Idle(f) && k < |w.panes|
    ensures PaneOf(f, PaneListed(s, name, w.index, k)) == w.panes[k]
  {
    var t := WindowAt(s, name, w.index);
    var i: nat :| ActiveAmong(w, i);
    assert t.activePane == t.panes[i].id;
    assert t.panes[k].id == t.panes[i].id <==> k == i;
  }

  lemma {:induction false} PanesRestored(f: Facts, s: Server, name: string, w: WindowSnap, n: nat)
    requires HasWindow(s, name, w.index) && Shows(WindowAt(s, name, w.index), w, s.shell)
    requires WellFormedWindow(w, s.paneBase) && Idle(f) && n <= |w.panes|
    ensures PaneViews(f, s, name, w.index, n) == w.panes[..n]
    decreases n
  {
    if n > 0 {
      PanesRestored(f, s, name, w, n - 1);
      PaneRestored(f, s, name, w, n - 1);
      hide PaneOf, PaneListed, Shows, WellFormedWindow;
      assert w.panes[..n] == w.panes[..n - 1] + [w.panes[n - 1]];
    }
  }

  lemma {:induction false} WindowRestored(f: Facts, s: Server, session: SessionSnap, k: nat)
    requires InPlace(s, session) && WellFormed(session, s.paneBase, s.indexLimit) && Idle(f) && k < |session.windows|
    ensures HasWindow(s, session.name, session.windows[k].index)
    ensures var w := session.windows[k];
            SameWindow(WindowView(f, s, session.name, w.index, |WindowAt(s, session.name, w.index).panes|), w)
  {
    var w := session.windows[k];
    assert Shows(WindowAt(s, session.name, w.index), w, s.shell) && WellFormedWindow(w, s.paneBase);
    hide PaneViews, WellFormedWindow, Listable, SessionIndexes, Idle;
    PanesRestored(f, s, session.name, w, |w.panes|);
    assert w.panes[..|w.panes|] == w.panes;
  }

  lemma {:induction false} WindowViewAt(f: Facts, s: Server, name: string, indexes: seq<nat>, k: nat)
    requires HasWindows(s, name, indexes) && k < |indexes|
    ensures |WindowViews(f, s, name, indexes)| == |indexes|
    ensures WindowViews(f, s, name, indexes)[k]
            == WindowView(f, s, name, indexes[k], |WindowAt(s, name, indexes[k]).panes|)
    decreases |indexes|
  {
    var front := Front(indexes);
    assert forall i :: 0 <= i < |front| ==> front[i] == indexes[i];
    hide WindowView, HasWindow;
    if k < |front| {
      WindowViewAt(f, s, name, front, k);
    } else if front != [] {
      WindowViewAt(f, s, name, front, 0);
    }
  }

  lemma {:induction false} ViewRestored(f: Facts, s: Server, session: SessionSnap, indexes: seq<nat>, k: nat)
    requires InPlace(s, session) && WellFormed(session, s.paneBase, s.indexLimit) && Idle(f) && k < |session.windows|
    requires indexes == SnapIndexes(session.windows) && HasWindows(s, session.name, indexes)
    ensures |WindowViews(f, s, session.name, indexes)| == |indexes|
    ensures SameWindow(WindowViews(f, s, session.name, indexes)[k], session.windows[k])
  {
    assert indexes[k] == session.windows[k].index;
    hide *;
    WindowRestored(f, s, session, k);
    WindowViewAt(f, s, session.name, indexes, k);
  }

  /** A snapshot of a session in place says what the restored one said. */
  lemma {:induction false} InPlaceIsSame(f: Facts, s: Server, session: SessionSnap)
    requires InPlace(s, session) && WellFormed(session, s.paneBase, s.indexLimit) && Idle(f)
    ensures HasWindows(s, session.name, SessionIndexes(s, session.name))
    ensures var indexes := SessionIndexes(s, session.name);
            SameSession(SessionView(f, s, session.name, WindowViews(f, s, session.name, indexes)), session)
  {
    hide *;
    InPlaceFacts(s, session);
    var indexes := SessionIndexes(s, session.name);
    forall k: nat | k < |session.windows|
      ensures |WindowViews(f, s, session.name, indexes)| == |indexes|
      ensures SameWindow(WindowViews(f, s, session.name, indexes)[k], session.windows[k])
    {
      ViewRestored(f, s, session, indexes, k);
    }
    ViewRestored(f, s, session, indexes, 0);
    SameWhen(f, s, session, WindowViews(f, s, session.name, indexes));
  }

  lemma {:induction false} InPlaceFacts(s: Server, session: SessionSnap)
    requires InPlace(s, session) && WellFormed(session, s.paneBase, s.indexLimit)
    ensures session.name in s.sessions && s.sessions[session.name].category == session.category
    ensures HasWindows(s, session.name, SessionIndexes(s, session.name))
    ensures SessionIndexes(s, session.name) == SnapIndexes(session.windows) && session.windows != []
  {
    var a: nat :| ActiveWindow(session.windows, a);
  }

  lemma {:induction false} SameWhen(f: Facts, s: Server, session: SessionSnap, views: seq<WindowSnap>)
    requires session.name in s.sessions && s.sessions[session.name].category == session.category
    requires |views| == |session.windows|
    requires forall k: nat :: k < |session.windows| ==> SameWindow(views[k], session.windows[k])
    ensures SameSession(SessionView(f, s, session.name, views), session)
  {
  }

  // ---- A session restored where it was missing -----------------------------

  /** The spots of a session restored whole. */
  function AllSpots(ws: seq<WindowSnap>): (spots: seq<Spot>)
    ensures |spots| == |ws| && forall k :: 0 <= k < |ws| ==> spots[k] == Spot(ws[k].index, ws[k])
  {
    if ws == [] then [] else AllSpots(Front(ws)) + [Spot(Last(ws).index, Last(ws))]
  }

  lemma {:induction false} AllOccupied(ws: seq<WindowSnap>, x: nat)
    ensures x in Occupied({}, AllSpots(ws)) <==> x in SnapIndexes(ws)
    decreases |ws|
  {
    if ws != [] {
      var front := Front(ws);
      assert SnapIndexes(ws) == SnapIndexes(front) + [Last(ws).index];
      assert AllSpots(ws) == AllSpots(front) + [Spot(Last(ws).index, Last(ws))];
      AllOccupied(front, x);
      OneMoreOccupied({}, AllSpots(front), Spot(Last(ws).index, Last(ws)));
      hide *;
    }
  }

  lemma {:induction false} MissingPlan(base: nat, ws: seq<WindowSnap>, o: Options)
    requires forall k :: 0 <= k < |ws| ==> ws[k].panes != []
    requires forall i, j :: 0 <= i < j < |ws| ==> ws[i].index < ws[j].index
    ensures Planned({}, base, ws, o) == Plan(AllSpots(ws), true)
  {
    if ws != [] {
      var front := Front(ws);
      assert forall k :: 0 <= k < |front| ==> front[k] == ws[k];
      assert Last(ws).index !in SnapIndexes(front);
      hide Occupied, SnapIndexes, AllSpots;
      AllOccupied(front, Last(ws).index);
      MissingPlan(base, front, o);
      assert AllSpots(ws) == AllSpots(front) + [Spot(Last(ws).index, Last(ws))];
    }
  }

  ghost predicate Rising(indexes: seq<nat>) {
    forall i, j :: 0 <= i < j < |indexes| ==> indexes[i] < indexes[j]
  }

  ghost predicate Lists(indexes: seq<nat>, taken: set<nat>, limit: nat) {
    forall x: nat :: x in indexes <==> x in taken && x < limit
  }

  /** The indexes of a session are listed back in order. */
  lemma {:induction false} AscendingIs(taken: set<nat>, limit: nat, indexes: seq<nat>)
    requires Rising(indexes) && Lists(indexes, taken, limit)
    ensures Ascending(taken, limit) == indexes
    decreases limit
  {
    if limit == 0 {
      FirstIsIn(indexes);
    } else {
      assert Ascending(taken, limit) == Ascending(taken, limit - 1) + if limit - 1 in taken then [limit - 1] else [];
      hide *;
      if limit - 1 in taken {
        LastIsLargest(indexes, taken, limit - 1);
        AscendingIs(taken, limit - 1, Front(indexes));
      } else {
        ListsFewer(indexes, taken, limit - 1);
        AscendingIs(taken, limit - 1, indexes);
      }
    }
  }

  lemma {:induction false} FirstIsIn(indexes: seq<nat>)
    ensures indexes == [] || indexes[0] in indexes
  {
  }

  lemma {:induction false} ListsFewer(indexes: seq<nat>, taken: set<nat>, limit: nat)
    requires Lists(indexes, taken, limit + 1) && limit !in taken
    ensures Lists(indexes, taken, limit)
  {
  }

  lemma {:induction false} LastIsLargest(indexes: seq<nat>, taken: set<nat>, top: nat)
    requires Rising(indexes) && Lists(indexes, taken, top + 1) && top in taken
    ensures indexes != [] && indexes == Front(indexes) + [top]
            && Rising(Front(indexes)) && Lists(Front(indexes), taken, top)
  {
    assert top in indexes;
    var last := |indexes| - 1;
    var k :| 0 <= k < |indexes| && indexes[k] == top;
    assert indexes[last] in indexes;
    assert k == last;
    forall x: nat
      ensures x in Front(indexes) <==> x in taken && x < top
    {
      FrontHas(indexes, x);
    }
  }

  lemma {:induction false} FrontHas(indexes: seq<nat>, x: nat)
    requires Rising(indexes) && indexes != []
    ensures x in Front(indexes) <==> x in indexes && x != Last(indexes)
  {
    if x in indexes && x != Last(indexes) {
      var i :| 0 <= i < |indexes| && indexes[i] == x;
      assert Front(indexes)[i] == x;
    }
    if x in Front(indexes) {
      var i :| 0 <= i < |Front(indexes)| && Front(indexes)[i] == x;
      assert indexes[i] == x && indexes[i] < indexes[|indexes| - 1];
    }
  }

  /** The last active window of the spots is the session's current one. */
  lemma {:induction false} CurrentIs(next: WindowId, spots: seq<Spot>, a: nat)
    requires a < |spots| && (forall k :: 0 <= k < |spots| ==> spots[k].index == spots[k].window.index)
    requires spots[a].window.active && forall k :: a < k < |spots| ==> !spots[k].window.active
    ensures SessionWith(None, next, spots).current == spots[a].index
    ensures SessionWith(None, next, spots).category == ""
  {
    if |spots| > 1 {
      assert forall k :: 0 <= k < |Front(spots)| ==> Front(spots)[k] == spots[k];
      if a < |spots| - 1 {
        CurrentIs(next, Front(spots), a);
      } else {
        NoCategory(next, spots);
      }
    }
  }

  lemma {:induction false} NoCategory(next: WindowId, spots: seq<Spot>)
    requires spots != []
    ensures SessionWith(None, next, spots).category == ""
  {
    if |spots| > 1 {
      NoCategory(next, Front(spots));
    }
  }

  lemma {:induction false} IndexesListed(s: Server, name: string, ws: seq<WindowSnap>)
    requires TakenIn(s, name) == Occupied({}, AllSpots(ws)) && Rising(SnapIndexes(ws))
    requires forall k :: 0 <= k < |ws| ==> ws[k].index < s.indexLimit
    ensures SessionIndexes(s, name) == SnapIndexes(ws)
  {
    var indexes, taken := SnapIndexes(ws), TakenIn(s, name);
    forall x: nat
      ensures x in indexes <==> x in taken && x < s.indexLimit
    {
      AllOccupied(ws, x);
      if k: nat :| k < |indexes| && indexes[k] == x {
        assert ws[k].index == x;
      }
    }
    hide Ascending, TakenIn, Occupied, AllSpots, SnapIndexes;
    AscendingIs(taken, s.indexLimit, indexes);
  }

  /** A window of a session restored whole: where it is and what it shows. */
  lemma {:induction false} WindowLands(s0: Server, s1: Server, name: string, ws: seq<WindowSnap>, k: nat)
    requires Grown(s0, s1, name, AllSpots(ws)) && name !in s0.sessions && Rising(SnapIndexes(ws)) && k < |ws|
    ensures name in s1.sessions && ws[k].index in s1.sessions[name].slots
    ensures s1.sessions[name].slots[ws[k].index] == s0.nextWindow + k
    ensures s0.nextWindow + k in s1.windows && Shows(s1.windows[s0.nextWindow + k], ws[k], s0.shell)
  {
    var spots := AllSpots(ws);
    forall i, j | 0 <= i < j < |spots|
      ensures spots[i].index != spots[j].index
    {
      assert SnapIndexes(ws)[i] < SnapIndexes(ws)[j];
    }
    assert spots[k] == Spot(ws[k].index, ws[k]);
    assert SpotShown(s1.windows, s0.nextWindow + k, spots[k], s0.shell);
    hide Shows, AllSpots, SnapIndexes, SessionWith, Valid;
    SpotSlots(None, s0.nextWindow, spots, k);
  }

  lemma {:induction false} WellFormedFacts(session: SessionSnap, paneBase: nat, limit: nat)
    requires WellFormed(session, paneBase, limit)
    ensures Rising(SnapIndexes(session.windows)) && session.windows != []
    ensures forall k :: 0 <= k < |session.windows| ==>
            session.windows[k].panes != [] && session.windows[k].index < limit
    ensures forall i, j :: 0 <= i < j < |session.windows| ==> session.windows[i].index < session.windows[j].index
  {
    var a: nat :| ActiveWindow(session.windows, a);
    forall k | 0 <= k < |session.windows|
      ensures session.windows[k].panes != []
    {
      assert WellFormedWindow(session.windows[k], paneBase);
    }
  }

  lemma {:induction false} CurrentLands(s0: Server, s1: Server, session: SessionSnap, k: nat)
    requires Grown(s0, s1, session.name, AllSpots(session.windows)) && session.name !in s0.sessions
    requires WellFormed(session, s0.paneBase, s0.indexLimit) && k < |session.windows|
    ensures session.name in s1.sessions && s1.sessions[session.name].category == ""
    ensures s1.sessions[session.name].current == session.windows[k].index <==> session.windows[k].active
  {
    var ws, spots := session.windows, AllSpots(session.windows);
    WellFormedFacts(session, s0.paneBase, s0.indexLimit);
    var a: nat :| ActiveWindow(ws, a);
    assert forall i :: 0 <= i < |spots| ==> spots[i] == Spot(ws[i].index, ws[i]);
    assert SessionIn(s1, session.name) == Some(SessionWith(None, s0.nextWindow, spots));
    hide WellFormed, SessionWith, AllSpots, Grown;
    CurrentIs(s0.nextWindow, spots, a);
  }

  ghost predicate LandedAt(s: Server, session: SessionSnap, next: WindowId, k: nat)
    requires k < |session.windows| && session.name in s.sessions
  {
    var t, w, id := s.sessions[session.name], session.windows[k], next + k;
    w.index in t.slots && t.slots[w.index] == id && id in s.windows && Shows(s.windows[id], w, s.shell)
    && (t.current == w.index <==> w.active)
  }

  lemma {:induction false} Lands(s0: Server, s1: Server, s2: Server, session: SessionSnap, k: nat)
    requires Grown(s0, s1, session.name, AllSpots(session.windows)) && session.name !in s0.sessions
    requires WellFormed(session, s0.paneBase, s0.indexLimit) && SameWindows(s1, s2) && k < |session.windows|
    ensures session.name in s2.sessions && LandedAt(s2, session, s0.nextWindow, k)
  {
    assert s2.windows == s1.windows && s2.shell == s0.shell;
    assert session.name in s1.sessions;
    assert s2.sessions[session.name].slots == s1.sessions[session.name].slots;
    assert s2.sessions[session.name].current == s1.sessions[session.name].current;
    WellFormedFacts(session, s0.paneBase, s0.indexLimit);
    hide WellFormed, Grown, SameWindows, Shows, AllSpots, Rising;
    WindowLands(s0, s1, session.name, session.windows, k);
    CurrentLands(s0, s1, session, k);
  }

  lemma {:induction false} TakenLands(s0: Server, s1: Server, s2: Server, session: SessionSnap)
    requires Grown(s0, s1, session.name, AllSpots(session.windows)) && session.name !in s0.sessions
    requires WellFormed(session, s0.paneBase, s0.indexLimit) && SameWindows(s1, s2)
    ensures SessionIndexes(s2, session.name) == SnapIndexes(session.windows)
  {
    WellFormedFacts(session, s0.paneBase, s0.indexLimit);
    OccupiedIn(s0, s1, session.name, AllSpots(session.windows));
    assert TakenIn(s0, session.name) == {};
    SameWindowsSameTaken(s1, s2, session.name);
    assert s2.indexLimit == s0.indexLimit;
    hide WellFormed, Grown, SameWindows, Occupied, AllSpots, TakenIn, SessionIndexes, Rising, SnapIndexes;
    IndexesListed(s2, session.name, session.windows);
  }

  lemma {:induction false} LandedIsShown(s: Server, session: SessionSnap, next: WindowId, k: nat)
    requires session.name in s.sessions
             && k < |session.windows| && LandedAt(s, session, next, k) && session.windows[k].panes != []
    ensures var w := session.windows[k];
            && HasWindow(s, session.name, w.index) && Shows(WindowAt(s, session.name, w.index), w, s.shell)
            && WindowAt(s, session.name, w.index).panes != []
            && s.sessions[session.name].slots[w.index] == next + k
            && (s.sessions[session.name].current == w.index <==> w.active)
  {
  }

  lemma {:induction false} LandedInPlace(s: Server, session: SessionSnap, next: WindowId)
    requires session.name in s.sessions && s.sessions[session.name].category == session.category
    requires SessionIndexes(s, session.name) == SnapIndexes(session.windows)
    requires forall k: nat :: k < |session.windows| ==> session.windows[k].panes != [] && LandedAt(s, session, next, k)
    ensures InPlace(s, session)
  {
    var name, ws, indexes := session.name, session.windows, SnapIndexes(session.windows);
    hide LandedAt, Shows, SnapIndexes, SessionIndexes;
    forall k: nat | k < |ws|
      ensures HasWindow(s, name, ws[k].index) && Shows(WindowAt(s, name, ws[k].index), ws[k], s.shell)
      ensures WindowAt(s, name, indexes[k]).panes != [] && s.sessions[name].slots[indexes[k]] == next + k
      ensures s.sessions[name].current == ws[k].index <==> ws[k].active
    {
      LandedIsShown(s, session, next, k);
    }
    hide HasWindow, WindowAt;
    assert HasWindows(s, name, indexes);
    assert Listable(s, name, indexes);
  }

  /** A session the server lacks comes back whole. */
  lemma {:induction false} MissingSessionInPlace(s0: Server, session: SessionSnap, o: Options)
    requires Valid(s0) && session.name !in s0.sessions && WellFormed(session, s0.paneBase, s0.indexLimit)
    ensures var p := SessionRestored(s0, session, o);
            p.fault.None? && p.created == |session.windows| && InPlace(p.server, session)
  {
    var name, ws := session.name, session.windows;
    var p := AddWindows(s0, name, {}, ws, o);
    assert TakenIn(s0, name) == {};
    WellFormedFacts(session, s0.paneBase, s0.indexLimit);
    hide WellFormed, AddWindows, Grown, SameWindows, OthersKept, Configured, InPlace, LandedAt, SnapIndexes,
         SessionIndexes, AllSpots, TakenIn, Valid, Rising;
    MissingPlan(s0.baseIndex, ws, o);
    WindowsFollowPlan(s0, name, ws, o);
    ConfiguredKeeps(p.server, session);
    var s2 := Configured(p.server, session);
    Lands(s0, p.server, p.server, session, 0) by { NothingChanged(p.server, name); }
    forall k: nat | k < |ws|
      ensures LandedAt(s2, session, s0.nextWindow, k)
    {
      Lands(s0, p.server, s2, session, k);
    }
    TakenLands(s0, p.server, s2, session);
    CurrentLands(s0, p.server, session, 0);
    LandedInPlace(s2, session, s0.nextWindow);
  }

  // ---- A whole snapshot ----------------------------------------------------

  /** A session in place stays so while others are restored. */
  lemma {:induction false} InPlaceStays(s0: Server, s1: Server, session: SessionSnap)
    requires InPlace(s0, session) && Untouched(s0, s1) && SessionIn(s1, session.name) == SessionIn(s0, session.name)
    ensures InPlace(s1, session)
  {
    var name, ws := session.name, session.windows;
    assert s1.sessions[name] == s0.sessions[name] && s1.shell == s0.shell;
    assert SessionIndexes(s1, name) == SessionIndexes(s0, name);
    hide Shows, SessionIndexes, Valid, SlotsUnchanged;
    forall i: nat | i in s0.sessions[name].slots && HasWindow(s0, name, i)
      ensures HasWindow(s1, name, i) && WindowAt(s1, name, i) == WindowAt(s0, name, i)
    {
    }
  }

  /** The server lacks the sessions of a well-formed snapshot. */
  ghost predicate Lacks(s: Server, sessions: seq<SessionSnap>) {
    forall i :: 0 <= i < |sessions| ==>
      sessions[i].name !in s.sessions && WellFormed(sessions[i], s.paneBase, s.indexLimit)
  }

  lemma {:induction false} StillLacks(s0: Server, sessions: seq<SessionSnap>, o: Options)
    requires Valid(s0) && DistinctNames(sessions) && Lacks(s0, sessions) && sessions != []
    ensures var s1, last := Restored(s0, Front(sessions), o).server, Last(sessions);
            && DistinctNames(Front(sessions)) && Lacks(s0, Front(sessions)) && Valid(s1)
            && last.name !in s1.sessions && WellFormed(last, s1.paneBase, s1.indexLimit)
  {
    var front, last := Front(sessions), Last(sessions);
    assert forall i :: 0 <= i < |front| ==> front[i] == sessions[i];
    hide WellFormed, SessionRestored, Untouched, Restored;
    RestoreTouchesNothing(s0, front, o);
    UntouchedValid(s0, Restored(s0, front, o).server);
    NotYetTouched(s0, front, o, last.name);
  }

  lemma {:induction false} EachInPlace(s0: Server, sessions: seq<SessionSnap>, o: Options, j: nat)
    requires Valid(s0) && DistinctNames(sessions) && Lacks(s0, sessions) && j < |sessions|
    ensures InPlace(Restored(s0, sessions, o).server, sessions[j])
    decreases |sessions|
  {
    var front, last := Front(sessions), Last(sessions);
    var s1, s2 := Restored(s0, front, o).server, Restored(s0, sessions, o).server;
    assert s2 == SessionRestored(s1, last, o).server && |front| == |sessions| - 1;
    assert j < |front| ==> front[j] == sessions[j] && sessions[j].name != last.name;
    assert j == |front| ==> sessions[j] == last;
    hide *;
    StillLacks(s0, sessions, o);
    if j < |front| {
      EachInPlace(s0, front, o, j);
      SessionKeeps(s1, last, o);
      OtherKept(s1, s2, last.name, front[j].name);
      InPlaceStays(s1, s2, front[j]);
    } else {
      MissingSessionInPlace(s1, last, o);
    }
  }

  lemma {:induction false} OtherKept(s0: Server, s1: Server, name: string, other: string)
    requires OthersKept(s0, s1, name) && other != name
    ensures SessionIn(s1, other) == SessionIn(s0, other)
  {
  }

  function NamesOf(sessions: seq<SessionSnap>): (names: seq<string>)
    ensures |names| == |sessions| && forall k :: 0 <= k < |names| ==> names[k] == sessions[k].name
  {
    if sessions == [] then [] else NamesOf(Front(sessions)) + [Last(sessions).name]
  }

  lemma {:induction false} InPlaceIsListed(s: Server, session: SessionSnap, paneBase: nat, limit: nat)
    requires InPlace(s, session) && WellFormed(session, paneBase, limit)
    ensures Populated(s, session.name)
  {
    WellFormedFacts(session, paneBase, limit);
    hide Listable, SessionIndexes, WellFormed, Shows;
  }

  lemma {:induction false} EachListed(s0: Server, sessions: seq<SessionSnap>, o: Options, f: Facts, j: nat)
    requires Valid(s0) && DistinctNames(sessions) && Lacks(s0, sessions) && Idle(f) && j < |sessions|
    ensures var s1, session := Restored(s0, sessions, o).server, sessions[j];
            && session.name in s1.sessions && Populated(s1, session.name)
            && HasWindows(s1, session.name, SessionIndexes(s1, session.name))
            && var indexes := SessionIndexes(s1, session.name);
               SameSession(SessionView(f, s1, session.name, WindowViews(f, s1, session.name, indexes)), session)
  {
    var s1 := Restored(s0, sessions, o).server;
    assert WellFormed(sessions[j], s0.paneBase, s0.indexLimit);
    hide *;
    EachInPlace(s0, sessions, o, j);
    RestoreTouchesNothing(s0, sessions, o);
    UntouchedValid(s0, s1);
    assert s1.paneBase == s0.paneBase && s1.indexLimit == s0.indexLimit by { SettingsSame(s0, s1); }
    InPlaceIsListed(s1, sessions[j], s0.paneBase, s0.indexLimit);
    InPlaceFacts(s1, sessions[j]);
    InPlaceIsSame(f, s1, sessions[j]);
  }

  lemma {:induction false} SettingsSame(a: Server, b: Server)
    requires SameSettings(a, b)
    ensures b.paneBase == a.paneBase && b.indexLimit == a.indexLimit
  {
  }

  /** The round trip: restore a snapshot into a server lacking its sessions, leave
      every pane idle, and the next snapshot of those sessions says the same: the
      same sessions and categories, window indexes, options and names, panes in
      order with their directories, command lines and agents. */
  lemma {:induction false} SnapshotRoundTrip(s0: Server, sessions: seq<SessionSnap>, o: Options, f: Facts)
    requires Valid(s0) && DistinctNames(sessions) && Lacks(s0, sessions) && Idle(f)
    ensures Restored(s0, sessions, o).errors == [] && Valid(Restored(s0, sessions, o).server)
    ensures var taken := Grouped(f, [], ListPanes(Restored(s0, sessions, o).server, NamesOf(sessions)));
            |taken| == |sessions| && forall j :: 0 <= j < |sessions| ==> SameSession(taken[j], sessions[j])
  {
    var s1, names := Restored(s0, sessions, o).server, NamesOf(sessions);
    NoErrors(s0, sessions, o);
    RestoreTouchesNothing(s0, sessions, o);
    UntouchedValid(s0, s1);
    assert sessions == [] ==> SessionViews(f, s1, names) == [];
    assert forall i, j :: 0 <= i < j < |names| ==> names[i] != names[j];
    hide *;
    forall j: nat | j < |names|
      ensures names[j] in s1.sessions && Populated(s1, names[j])
    {
      EachListed(s0, sessions, o, f, j);
    }
    assert forall n :: n in names ==> Populated(s1, n) && n in s1.sessions;
    SnapshotOfServer(f, s1, names);
    if sessions != [] { SessionViewAt(f, s1, names, 0); }
    forall j: nat | j < |sessions|
      ensures |SessionViews(f, s1, names)| == |names| && SameSession(SessionViews(f, s1, names)[j], sessions[j])
    {
      EachListed(s0, sessions, o, f, j);
      SessionViewAt(f, s1, names, j);
    }
  }

  lemma {:induction false} NoErrors(s0: Server, sessions: seq<SessionSnap>, o: Options)
    requires Valid(s0) && DistinctNames(sessions) && Lacks(s0, sessions)
    ensures Restored(s0, sessions, o).errors == []
  {
    if sessions != [] {
      hide WellFormed, SessionRestored, Untouched, InPlace, Lacks, DistinctNames;
      StillLacks(s0, sessions, o);
      NoErrors(s0, Front(sessions), o);
      MissingSessionInPlace(Restored(s0, Front(sessions), o).server, Last(sessions), o);
    }
  }

  // ---- Every snapshot can make the round trip ------------------------------

  ghost predicate ActiveIn(w: TWindow, i: nat) {
    i < |w.panes| && forall j :: 0 <= j < |w.panes| ==> (w.panes[j].id == w.activePane <==> j == i)
  }

  /** One of the panes is the active one. */
  ghost predicate HasActive(t: TWindow) {
    exists i: nat :: ActiveIn(t, i)
  }

  /** As tmux keeps it: the current window exists and each window's active pane is
      one of its panes. */
  ghost predicate Sound(s: Server, name: string) {
    && name in s.sessions && s.sessions[name].current in SessionIndexes(s, name)
    && forall x :: x in SessionIndexes(s, name) && HasWindow(s, name, x) ==> HasActive(WindowAt(s, name, x))
  }

  lemma {:induction false} AscendingRises(taken: set<nat>, limit: nat)
    ensures Rising(Ascending(taken, limit))
    ensures forall k :: 0 <= k < |Ascending(taken, limit)| ==> Ascending(taken, limit)[k] < limit
    decreases limit
  {
    if limit > 0 {
      AscendingRises(taken, limit - 1);
    }
  }

  lemma {:induction false} PaneViewAt(f: Facts, s: Server, name: string, index: nat, n: nat, k: nat)
    requires HasWindow(s, name, index) && k < n <= |WindowAt(s, name, index).panes|
    ensures |PaneViews(f, s, name, index, n)| == n
    ensures PaneViews(f, s, name, index, n)[k] == PaneOf(f, PaneListed(s, name, index, k))
    decreases n
  {
    hide PaneOf, PaneListed;
    if k < n - 1 {
      PaneViewAt(f, s, name, index, n - 1, k);
    } else if n > 1 {
      PaneViewAt(f, s, name, index, n - 1, 0);
    }
  }

  lemma {:induction false} WindowViewWellFormed(f: Facts, s: Server, name: string, index: nat, i: nat)
    requires HasWindow(s, name, index) && ActiveIn(WindowAt(s, name, index), i)
    ensures WellFormedWindow(WindowView(f, s, name, index, |WindowAt(s, name, index).panes|), s.paneBase)
  {
    var t := WindowAt(s, name, index);
    var w := WindowView(f, s, name, index, |t.panes|);
    PaneViewAt(f, s, name, index, |t.panes|, i);
    assert |w.panes| == |t.panes|;
    forall k | 0 <= k < |w.panes|
      ensures w.panes[k].index == s.paneBase + k && (w.panes[k].active <==> k == i)
    {
      PaneViewAt(f, s, name, index, |t.panes|, k);
    }
    hide PaneViews, PaneOf;
    assert ActiveAmong(w, i);
  }

  /** One window of the view, when the current window is the `a`-th. */
  lemma {:induction false} WindowViewSound(f: Facts, s: Server, name: string, indexes: seq<nat>, a: nat, k: nat)
    requires name in s.sessions && HasWindows(s, name, indexes) && Rising(indexes)
    requires a < |indexes| && indexes[a] == s.sessions[name].current && k < |indexes|
    requires HasActive(WindowAt(s, name, indexes[k]))
    ensures var w := WindowView(f, s, name, indexes[k], |WindowAt(s, name, indexes[k]).panes|);
            w.index == indexes[k] && WellFormedWindow(w, s.paneBase) && (w.active <==> k == a)
  {
    var i: nat :| ActiveIn(WindowAt(s, name, indexes[k]), i);
    WindowViewWellFormed(f, s, name, indexes[k], i);
    hide WellFormedWindow, WindowAt, ActiveIn, PaneViews;
    assert k < a ==> indexes[k] < indexes[a];
    assert a < k ==> indexes[a] < indexes[k];
  }

  /** Every snapshot of a server is well formed, so it can be restored and taken
      again. */
  lemma {:induction false} SnapshotsAreWellFormed(f: Facts, s: Server, name: string)
    requires Valid(s) && Sound(s, name)
    ensures HasWindows(s, name, SessionIndexes(s, name))
    ensures var ws := WindowViews(f, s, name, SessionIndexes(s, name));
            WellFormed(SessionView(f, s, name, ws), s.paneBase, s.indexLimit)
  {
    hide Valid, WindowViews, WellFormed, WellFormedWindow, ActiveIn, HasActive, WindowAt;
    var indexes := SessionIndexes(s, name);
    IndexesHaveWindows(s, name);
    AscendingRises(TakenIn(s, name), s.indexLimit);
    var a :| 0 <= a < |indexes| && indexes[a] == s.sessions[name].current;
    assert Rising(indexes) && forall k :: 0 <= k < |indexes| ==> indexes[k] < s.indexLimit;
    forall k | 0 <= k < |indexes|
      ensures HasWindow(s, name, indexes[k]) && HasActive(WindowAt(s, name, indexes[k]))
    {
      assert indexes[k] in indexes;
    }
    ViewIsWellFormed(f, s, name, indexes, a);
  }

  lemma {:induction false} ViewIsWellFormed(f: Facts, s: Server, name: string, indexes: seq<nat>, a: nat)
    requires name in s.sessions && HasWindows(s, name, indexes) && Rising(indexes)
    requires a < |indexes| && indexes[a] == s.sessions[name].current
    requires forall k :: 0 <= k < |indexes| ==> indexes[k] < s.indexLimit
    requires forall k :: 0 <= k < |indexes| ==> HasActive(WindowAt(s, name, indexes[k]))
    ensures WellFormed(SessionView(f, s, name, WindowViews(f, s, name, indexes)), s.paneBase, s.indexLimit)
  {
    var ws := WindowViews(f, s, name, indexes);
    hide WindowViews, WellFormedWindow, WindowView, WindowAt, HasActive, HasWindow;
    WindowViewAt(f, s, name, indexes, a);
    forall k: nat | k < |indexes|
      ensures ws[k].index == indexes[k] && WellFormedWindow(ws[k], s.paneBase) && (ws[k].active <==> k == a)
    {
      WindowViewAt(f, s, name, indexes, k);
      WindowViewSound(f, s, name, indexes, a, k);
    }
    assert ActiveWindow(ws, a);
  }
}
