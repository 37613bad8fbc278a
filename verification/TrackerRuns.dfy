/** The tracker's methods are the steps of `ExactlyOnce`, whatever tmux and the
    disk answer, and a pane list in tmux's order gives the snapshots it asks for. */
module TrackerRuns {
  import opened Inventory
  import opened Snapshots
  import opened ClosedHistory
  import opened Trackers
  import opened ArchiveClose
  import opened ExactlyOnce

  // ---- Methods and steps ---------------------------------------------------

  /** What happens to a tracker: a tick of the worker, a close on behalf of the
      daemon, a close by another process over the same history, an entry of it
      reopened, or a change in tmux. */
  datatype Input =
    | Ticked(panes: seq<Pane>, facts: Facts, restoring: bool, now: nat, works: Writes)
    | Asked(targets: seq<Target>, reason: CloseReason, now: nat, answers: Answers)
    | Elsewhere(snap: seq<SessionSnap>, targets: seq<Target>, reason: CloseReason, now: nat, answers: Answers)
    | Restored(id: nat)
    | Changed(live: map<WindowId, string>)

  function EventOf(i: Input): Event {
    match i
    case Ticked(panes, facts, restoring, now, works) =>
      if panes == [] || restoring then Skipped else Tick(Grouped(facts, [], panes), now, works.history)
    case Asked(targets, reason, now, answers) => DaemonClose(targets, reason, now, answers)
    case Elsewhere(snap, targets, reason, now, answers) => OutsideArchive(snap, targets, reason, now, answers)
    case Restored(id) => Reopen(id)
    case Changed(live) => Change(live)
  }

  function EventsOf(inputs: seq<Input>): (es: seq<Event>)
    ensures |es| == |inputs| && forall k :: 0 <= k < |es| ==> es[k] == EventOf(inputs[k])
  {
    if inputs == [] then [] else EventsOf(Front(inputs)) + [EventOf(Last(inputs))]
  }

  /** The tracker and its disk are in the state of the world. */
  ghost predicate Mirrors(t: Tracker, w: World)
    reads t, t.disk
  {
    && w.prev == (if t.prev.None? then [] else t.prev.value.sessions)
    && w.file == t.disk.closed
  }

  lemma {:induction false} NothingTaken(targets: seq<Target>)
    ensures TakeAll([], targets) == Haul([], [], [])
  {
    if targets != [] {
      NothingTaken(Front(targets));
    }
  }

  lemma {:induction false} NextTick(w: World, cur: seq<SessionSnap>, now: nat, saves: bool)
    ensures var n := Next(w, Tick(cur, now, saves));
            && n.prev == cur
            && n.file == if saves then AfterTick(w.prev, cur, w.file, now) else w.file
    ensures w.prev == [] ==> AfterTick(w.prev, cur, w.file, now) == w.file
  {
    NothingBefore(cur, w.file, now);
    hide TickRecords, LostIn, Recorded;
  }

  lemma {:induction false} NextClose(w: World, targets: seq<Target>, reason: CloseReason, now: nat, a: Answers)
    ensures var n, h := Next(w, DaemonClose(targets, reason, now, a)), TakeAll(w.prev, targets);
            n.prev == h.rest && n.file == FileAfter(w.file, Steps(h, w.file, reason, now, a))
    ensures w.prev == [] ==> Next(w, DaemonClose(targets, reason, now, a)).prev == []
    ensures w.prev == [] ==> Next(w, DaemonClose(targets, reason, now, a)).file == w.file
  {
    NothingTaken(targets);
    hide TakeAll, LostIn, Logged, StampedLogged, Killed, Recorded, IdsWhere;
  }

  lemma {:induction false} NextElsewhere(w: World, snap: seq<SessionSnap>, targets: seq<Target>,
        reason: CloseReason, now: nat, a: Answers)
    ensures var n := Next(w, OutsideArchive(snap, targets, reason, now, a));
            n.prev == w.prev && n.file == FileAfter(w.file, Steps(TakeAll(snap, targets), w.file, reason, now, a))
  {
    hide TakeAll, LostIn, Logged, StampedLogged, Killed, Steps, FileAfter;
  }

  /** One input to the tracker, and what it returns. */
  method Act(t: Tracker, i: Input, ghost w: World) returns (closed: seq<ClosedTarget>)
    requires Mirrors(t, w)
    modifies t, t.disk
    ensures Mirrors(t, Next(w, EventOf(i)))
  {
    hide TakeAll, AfterTick, Steps, FileAfter, Next, Grouped, Reopened;
    closed := [];
    match i
    case Ticked(panes, facts, restoring, now, works) =>
      NextTick(w, Grouped(facts, [], panes), now, works.history);
      SkippedForgets(w);
      var forgotten := t.Tick(panes, facts, restoring, now, works);
    case Asked(targets, reason, now, answers) =>
      NextClose(w, targets, reason, now, answers);
      closed := t.Close(targets, reason, now, answers);
    case Elsewhere(snap, targets, reason, now, answers) =>
      NextElsewhere(w, snap, targets, reason, now, answers);
      var rest, steps;
      rest, closed, steps := ArchiveAndClose(snap, targets, reason, now, t.disk.closed, answers);
      t.disk.Perform(steps);
    case Restored(id) =>
      ReopenIsOutside(w, id);
      t.disk.Reopen(id);
    case Changed(live) =>
      ChangeIsOutside(w, live);
  }

  lemma {:induction false} SkippedForgets(w: World)
    ensures Next(w, Skipped).prev == [] && Next(w, Skipped).file == w.file
  {
  }

  lemma {:induction false} ReopenIsOutside(w: World, id: nat)
    ensures Next(w, Reopen(id)).prev == w.prev && Next(w, Reopen(id)).file == Reopened(w.file, id)
  {
  }

  lemma {:induction false} ChangeIsOutside(w: World, live: map<WindowId, string>)
    ensures Next(w, Change(live)).prev == w.prev && Next(w, Change(live)).file == w.file
  {
  }

  /** Over any inputs the tracker and its disk go through the run of their
      events, so what is proved of all runs holds of them. */
  method Work(t: Tracker, inputs: seq<Input>, ghost w: World)
    requires Mirrors(t, w)
    modifies t, t.disk
    ensures Mirrors(t, Run(w, EventsOf(inputs)))
  {
    for i := 0 to |inputs|
      invariant Mirrors(t, Run(w, EventsOf(inputs[..i])))
    {
      assert Front(inputs[..i + 1]) == inputs[..i] && Last(inputs[..i + 1]) == inputs[i];
      OneMore(w, inputs[..i + 1]);
      var closed := Act(t, inputs[i], Run(w, EventsOf(inputs[..i])));
    }
    assert inputs[..|inputs|] == inputs;
  }

  lemma {:induction false} OneMore(w: World, inputs: seq<Input>)
    requires inputs != []
    ensures Run(w, EventsOf(inputs)) == Next(Run(w, EventsOf(Front(inputs))), EventOf(Last(inputs)))
  {
    hide Next, EventOf;
    assert Front(EventsOf(inputs)) == EventsOf(Front(inputs));
  }

  // ---- The pane list -------------------------------------------------------

  /** The panes of the server as tmux lists them: those of a window together, and
      each under the session the window is in. */
  ghost predicate Lists(panes: seq<Pane>, live: map<WindowId, string>) {
    && (forall k :: 0 <= k < |panes| ==> panes[k].windowId in live && live[panes[k].windowId] == panes[k].session)
    && (forall id :: id in live ==> Listed(panes, id))
    && (forall i, j, k :: 0 <= i < j < k < |panes| && panes[i].windowId == panes[k].windowId ==>
          panes[j].windowId == panes[i].windowId)
  }

  ghost predicate Listed(panes: seq<Pane>, id: WindowId) {
    exists k :: 0 <= k < |panes| && panes[k].windowId == id
  }

  /** The pane goes into the last window listed. */
  ghost predicate SameWindow(acc: seq<SessionSnap>, p: Pane) {
    && acc != [] && Last(acc).name == p.session
    && Last(acc).windows != [] && Last(Last(acc).windows).id == p.windowId
  }

  lemma {:induction false} PlaceOneMore(session: string, ws: seq<WindowSnap>, v: WindowSnap)
    ensures Place(session, ws + [v]) == Place(session, ws) + [Placed(session, v)]
  {
  }

  lemma {:induction false} LastSession(init: seq<SessionSnap>, s: SessionSnap)
    ensures AllWindows(init + [s]) == AllWindows(init) + Place(s.name, s.windows)
  {
    AllWindowsAppend(init, [s]);
    AllWindowsOne(s);
  }

  /** A pane replaces the last window listed when it belongs there, and otherwise
      adds its own. */
  lemma {:induction false} PaneAdded(f: Facts, acc: seq<SessionSnap>, p: Pane) returns (before: seq<Placed>, x: Placed)
    ensures x.session == p.session && x.window.id == p.windowId
    ensures AllWindows(AddPane(f, acc, p)) == before + [x]
    ensures if SameWindow(acc, p) then exists y: Placed :: AllWindows(acc) == before + [y] && y.window.id == p.windowId
            else AllWindows(acc) == before
    ensures SameWindow(AddPane(f, acc, p), p)
  {
    hide PaneOf, AllWindows, Place;
    if acc == [] || Last(acc).name != p.session {
      var s := SessionOf(f, p).(windows := AddToWindows(f, [], p));
      before, x := AllWindows(acc), Placed(p.session, s.windows[0]);
      assert s.windows == [] + [x.window];
      PlaceOneMore(p.session, [], x.window);
      LastSession(acc, s);
      assert Place(p.session, []) + [x] == [x] by { NoPlace(p.session); }
    } else {
      var init, ws := Front(acc), Last(acc).windows;
      var s := Last(acc).(windows := AddToWindows(f, ws, p));
      x := Placed(p.session, Last(s.windows));
      assert init + [Last(acc)] == acc;
      LastSession(init, Last(acc));
      LastSession(init, s);
      if SameWindow(acc, p) {
        PlaceOneMore(p.session, Front(ws), x.window);
        PlaceOneMore(p.session, Front(ws), Last(ws));
        assert Front(ws) + [Last(ws)] == ws;
        before := AllWindows(init) + Place(p.session, Front(ws));
        assert AllWindows(acc) == before + [Placed(p.session, Last(ws))];
      } else {
        PlaceOneMore(p.session, ws, x.window);
        before := AllWindows(acc);
      }
    }
  }

  lemma {:induction false} NoPlace(session: string)
    ensures Place(session, []) == []
  {
  }

  /** What the sessions built from the first panes of a list hold. */
  ghost predicate Built(acc: seq<SessionSnap>, done: seq<Pane>, live: map<WindowId, string>) {
    && (forall q :: q in AllWindows(acc) ==> q.window.id in live && live[q.window.id] == q.session)
    && (forall id: WindowId :: Count(AllWindows(acc), id) == if Listed(done, id) then 1 else 0)
    && (done != [] ==> SameWindow(acc, Last(done)))
  }

  lemma {:induction false} ListedMore(done: seq<Pane>, p: Pane, id: WindowId)
    ensures Listed(done + [p], id) <==> Listed(done, id) || id == p.windowId
  {
    if Listed(done, id) {
      var k :| 0 <= k < |done| && done[k].windowId == id;
      assert (done + [p])[k].windowId == id;
    }
    assert (done + [p])[|done|] == p;
  }

  lemma {:induction false} CountMore(ps: seq<Placed>, x: Placed, id: WindowId)
    ensures Count(ps + [x], id) == Count(ps, id) + if x.window.id == id then 1 else 0
  {
    assert Front(ps + [x]) == ps;
  }

  lemma {:induction false} AddedIsBuilt(f: Facts, acc: seq<SessionSnap>, done: seq<Pane>, p: Pane,
        live: map<WindowId, string>)
    requires Built(acc, done, live) && p.windowId in live && live[p.windowId] == p.session
    requires Listed(done, p.windowId) ==>
               done != [] && Last(done).windowId == p.windowId && Last(done).session == p.session
    ensures Built(AddPane(f, acc, p), done + [p], live)
  {
    hide AllWindows, AddPane, Count, Listed;
    var before, x := PaneAdded(f, acc, p);
    forall id: WindowId
      ensures Count(AllWindows(AddPane(f, acc, p)), id) == if Listed(done + [p], id) then 1 else 0
    {
      ListedMore(done, p, id);
      CountMore(before, x, id);
      if SameWindow(acc, p) {
        var y: Placed :| AllWindows(acc) == before + [y] && y.window.id == p.windowId;
        CountMore(before, y, id);
        CountMore(before, y, p.windowId);
      }
    }
    forall q | q in AllWindows(AddPane(f, acc, p))
      ensures q.window.id in live && live[q.window.id] == q.session
    {
      assert q == x || q in before;
      assert q in before ==> q in AllWindows(acc);
    }
    assert Last(done + [p]) == p;
  }

  /** Only the last window can get another pane. */
  lemma {:induction false} ListedLast(done: seq<Pane>, p: Pane, all: seq<Pane>, live: map<WindowId, string>)
    requires Lists(all, live) && |done| < |all| && all[..|done|] == done && all[|done|] == p
    ensures p.windowId in live && live[p.windowId] == p.session
    ensures Listed(done, p.windowId) ==>
              done != [] && Last(done).windowId == p.windowId && Last(done).session == p.session
  {
    if Listed(done, p.windowId) {
      var i :| 0 <= i < |done| && done[i].windowId == p.windowId;
      assert all[i] == done[i] && all[|done| - 1] == Last(done);
    }
  }

  lemma {:induction false} GroupedIsBuilt(f: Facts, acc: seq<SessionSnap>, done: seq<Pane>, panes: seq<Pane>,
        live: map<WindowId, string>)
    requires Built(acc, done, live) && Lists(done + panes, live)
    ensures Built(Grouped(f, acc, panes), done + panes, live)
    decreases |panes|
  {
    if panes == [] {
      assert done + panes == done;
    } else {
      var all, p := done + panes, panes[0];
      assert all[|done|] == p && done + [p] + panes[1..] == all && all[..|done|] == done;
      ListedLast(done, p, all, live);
      hide Built, AddPane, Lists, Listed;
      AddedIsBuilt(f, acc, done, p, live);
      GroupedIsBuilt(f, AddPane(f, acc, p), done + [p], panes[1..], live);
    }
  }

  lemma {:induction false} NothingBuilt(live: map<WindowId, string>)
    ensures Built([], [], live)
  {
  }

  lemma {:induction false} BuiltIsLocated(cur: seq<SessionSnap>, panes: seq<Pane>, live: map<WindowId, string>)
    requires Built(cur, panes, live) && Lists(panes, live)
    ensures Locates(cur, live)
  {
    hide AllWindows, Count;
    forall id: WindowId
      ensures id in WindowIds(cur) <==> id in live
    {
      CountPositive(AllWindows(cur), id);
      assert Count(AllWindows(cur), id) == if Listed(panes, id) then 1 else 0;
    }
  }

  /** The snapshot of such a list is one of the server as it is, and empty only
      when nothing is listed: what `Allowed` asks of a tick. */
  lemma {:induction false} ListedIsLocated(f: Facts, panes: seq<Pane>, live: map<WindowId, string>)
    requires Lists(panes, live)
    ensures Locates(Grouped(f, [], panes), live)
    ensures Grouped(f, [], panes) == [] <==> panes == []
  {
    var cur := Grouped(f, [], panes);
    hide *;
    assert [] + panes == panes;
    NothingBuilt(live);
    GroupedIsBuilt(f, [], [], panes, live);
    BuiltIsLocated(cur, panes, live);
    SomethingGrouped(f, panes);
  }

  lemma {:induction false} SomethingGrouped(f: Facts, panes: seq<Pane>)
    ensures Grouped(f, [], panes) == [] <==> panes == []
  {
    SnapshotListsPanes(f, panes);
    assert Cells([]) == [];
    assert panes != [] ==> |PaneCells(f, panes)| > 0;
  }
}
