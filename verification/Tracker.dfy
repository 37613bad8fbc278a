/** The worker's snapshot tracker (src/snapshot.rs): each tick diffs the pane
    list against the previous snapshot, records what was closed and writes the
    snapshot when due; closing on behalf of the daemon archives first. */
module Trackers {
  import opened Wrappers
  import opened Inventory
  import opened Snapshots
  import opened ClosedHistory
  import opened ArchiveClose
  import SnapshotFiles

  const RECENTLY_ARCHIVED: nat := 120

  // ---- What was archived by someone else -----------------------------------

  /** The window was archived under this session name within the last minutes. */
  ghost predicate RecentlyArchived(history: seq<ClosedEntry>, now: nat, session: string, id: WindowId) {
    exists e, w :: e in history && w in e.session.windows && Elapsed(now, e.closedAt) < 120
                   && e.session.name == session && w.id == id
  }

  function RecentPairs(history: seq<ClosedEntry>, now: nat): (r: set<(string, WindowId)>)
    ensures forall n, id: WindowId :: (n, id) in r <==> RecentlyArchived(history, now, n, id)
  {
    set e, w | e in history && w in e.session.windows && Elapsed(now, e.closedAt) < RECENTLY_ARCHIVED ::
      (e.session.name, w.id)
  }

  function Unarchived(session: string, ws: seq<WindowSnap>, recent: set<(string, WindowId)>): seq<WindowSnap> {
    if ws == [] then [] else
    if (session, Last(ws).id) in recent then Unarchived(session, Front(ws), recent)
    else Unarchived(session, Front(ws), recent) + [Last(ws)]
  }

  function NotRecorded(closed: seq<Closed>, recent: set<(string, WindowId)>): seq<Closed> {
    if closed == [] then [] else
    var c := Last(closed);
    var ws := Unarchived(c.session.name, c.session.windows, recent);
    NotRecorded(Front(closed), recent) + if ws == [] then [] else [c.(session := c.session.(windows := ws))]
  }

  method NotYetRecorded(closed: seq<Closed>, history: seq<ClosedEntry>, now: nat) returns (left: seq<Closed>)
    ensures left == NotRecorded(closed, RecentPairs(history, now))
    ensures forall l :: l in left ==> exists c :: c in closed && LeftOf(c, l, RecentPairs(history, now))
  {
    var recent := RecentPairs(history, now);
    NotRecordedLeaves(closed, recent);
    left := [];
    for i := 0 to |closed|
      invariant left == NotRecorded(closed[..i], recent)
    {
      assert Front(closed[..i + 1]) == closed[..i] && Last(closed[..i + 1]) == closed[i];
      var c := closed[i];
      var ws := KeepUnarchived(c.session.name, c.session.windows, recent);
      if ws != [] {
        left := left + [c.(session := c.session.(windows := ws))];
      }
    }
    assert closed[..|closed|] == closed;
  }

  method KeepUnarchived(session: string, ws: seq<WindowSnap>, recent: set<(string, WindowId)>)
    returns (kept: seq<WindowSnap>)
    ensures kept == Unarchived(session, ws, recent)
  {
    kept := [];
    for i := 0 to |ws|
      invariant kept == Unarchived(session, ws[..i], recent)
    {
      assert Front(ws[..i + 1]) == ws[..i] && Last(ws[..i + 1]) == ws[i];
      if (session, ws[i].id) !in recent {
        kept := kept + [ws[i]];
      }
    }
    assert ws[..|ws|] == ws;
  }

  /** What a tick records: what vanished since the previous snapshot, except what
      another process archived in the last minutes. */
  function TickRecords(prev: seq<SessionSnap>, cur: seq<SessionSnap>, file: seq<ClosedEntry>, now: nat): seq<Closed> {
    NotRecorded(ClosedAmong(prev, WindowIds(cur), Names(cur)), RecentPairs(file, now))
  }

  lemma {:induction false} NothingBefore(cur: seq<SessionSnap>, file: seq<ClosedEntry>, now: nat)
    ensures TickRecords([], cur, file, now) == []
  {
    assert ClosedAmong([], WindowIds(cur), Names(cur)) == [];
    assert NotRecorded([], RecentPairs(file, now)) == [];
  }

  /** What is left of an entry keeps its kind and all but the windows. */
  ghost predicate LeftOf(c: Closed, left: Closed, recent: set<(string, WindowId)>) {
    && left.kind == c.kind && SameHead(left.session, c.session) && left.session.windows != []
    && forall v :: v in left.session.windows <==> v in c.session.windows && (c.session.name, v.id) !in recent
  }

  lemma {:induction false} UnarchivedAre(session: string, ws: seq<WindowSnap>, recent: set<(string, WindowId)>)
    ensures forall v :: v in Unarchived(session, ws, recent) <==> v in ws && (session, v.id) !in recent
  {
    if ws != [] {
      UnarchivedAre(session, Front(ws), recent);
      FrontLast(ws);
    }
  }

  lemma {:induction false} NotRecordedLeaves(closed: seq<Closed>, recent: set<(string, WindowId)>)
    ensures forall left :: left in NotRecorded(closed, recent) ==> exists c :: c in closed && LeftOf(c, left, recent)
  {
    if closed != [] {
      var c := Last(closed);
      NotRecordedLeaves(Front(closed), recent);
      UnarchivedAre(c.session.name, c.session.windows, recent);
      hide Unarchived;
      assert forall d :: d in Front(closed) ==> d in closed;
      assert c in closed;
    }
  }

  /** A tick records windows gone since the last one under their session's name,
      with its category and environment. */
  lemma {:induction false} TickRecordsCarry(prev: seq<SessionSnap>, cur: seq<SessionSnap>, file: seq<ClosedEntry>,
        now: nat, left: Closed)
    requires left in TickRecords(prev, cur, file, now)
    ensures exists c, s :: s in prev && GoneFrom(s, WindowIds(cur), Names(cur), c)
                           && LeftOf(c, left, RecentPairs(file, now))
  {
    var all := ClosedAmong(prev, WindowIds(cur), Names(cur));
    VanishedCarry(prev, WindowIds(cur), Names(cur));
    NotRecordedLeaves(all, RecentPairs(file, now));
    hide GoneFrom, LeftOf, ClosedAmong, NotRecorded;
    var c :| c in all && LeftOf(c, left, RecentPairs(file, now));
    assert VanishedFrom(prev, WindowIds(cur), Names(cur), c);
  }

  /** The closed file after recording, untouched when there is nothing to record. */
  function AfterRecording(file: seq<ClosedEntry>, left: seq<Closed>, now: nat): seq<ClosedEntry> {
    if left == [] then file else Recorded(file, left, Manual, now)
  }

  /** The closed file after a tick from one snapshot to the next. */
  function AfterTick(prev: seq<SessionSnap>, cur: seq<SessionSnap>, file: seq<ClosedEntry>, now: nat):
    seq<ClosedEntry>
  {
    AfterRecording(file, TickRecords(prev, cur, file, now), now)
  }

  // ---- The tracker ---------------------------------------------------------

  /** Whether the history and the snapshot can be written during a tick. */
  datatype Writes = Writes(history: bool, snapshot: bool)

  /** A pane whose pending option is out of date: something runs in it again. */
  predicate RunsAgain(f: Facts, p: Pane) {
    p.pendingRestore.Some? && ((p.id in f.states && f.states[p.id].agent.Some?) || p.id in f.argvs)
  }

  function RunningAgain(f: Facts, panes: seq<Pane>): seq<PaneId> {
    if panes == [] then [] else
    RunningAgain(f, Front(panes)) + if RunsAgain(f, Last(panes)) then [Last(panes).id] else []
  }

  /** The facts give the pane an agent or a command line. */
  ghost predicate Running(f: Facts, p: Pane) {
    (p.id in f.states && f.states[p.id].agent.Some?) || p.id in f.argvs
  }

  /** The pane ids are those, in order, of the panes in which something runs
      although a pending option says what ran before. */
  ghost predicate Forgets(f: Facts, panes: seq<Pane>, ids: seq<PaneId>) {
    exists at: seq<nat> :: ForgetsAt(f, panes, ids, at)
  }

  ghost predicate ForgetsAt(f: Facts, panes: seq<Pane>, ids: seq<PaneId>, at: seq<nat>) {
    && |ids| == |at|
    && (forall k :: 0 <= k < |at| ==> at[k] < |panes| && ids[k] == panes[at[k]].id)
    && (forall j, k :: 0 <= j < k < |at| ==> at[j] < at[k])
    && (forall i: nat :: i < |panes| ==> (i in at <==> panes[i].pendingRestore.Some? && Running(f, panes[i])))
  }

  lemma {:induction false} RunningAgainAt(f: Facts, panes: seq<Pane>) returns (at: seq<nat>)
    ensures ForgetsAt(f, panes, RunningAgain(f, panes), at)
  {
    at := [];
    if panes != [] {
      var n := |panes| - 1;
      at := RunningAgainAt(f, Front(panes));
      assert n !in at;
      if panes[n].pendingRestore.Some? && Running(f, panes[n]) {
        at := at + [n];
      }
    }
  }

  /** The panes once the pending options of these ids are removed. */
  function Cleared(panes: seq<Pane>, ids: seq<PaneId>): (cleared: seq<Pane>)
    ensures |cleared| == |panes|
  {
    seq(|panes|, i requires 0 <= i < |panes| =>
      if panes[i].id in ids then panes[i].(pendingRestore := None) else panes[i])
  }

  ghost predicate DistinctPanes(panes: seq<Pane>) {
    forall i, j :: 0 <= i < j < |panes| ==> panes[i].id != panes[j].id
  }

  lemma {:induction false} GroupedSame(f: Facts, acc: seq<SessionSnap>, a: seq<Pane>, b: seq<Pane>)
    requires |a| == |b|
    requires forall i :: 0 <= i < |a| ==> b[i] == a[i].(pendingRestore := b[i].pendingRestore)
    requires forall i :: 0 <= i < |a| ==> PaneOf(f, b[i]) == PaneOf(f, a[i])
    ensures Grouped(f, acc, a) == Grouped(f, acc, b)
    decreases |a|
  {
    if a != [] {
      assert AddPane(f, acc, a[0]) == AddPane(f, acc, b[0]) by { hide PaneOf; }
      hide PaneOf, AddPane;
      GroupedSame(f, AddPane(f, acc, a[0]), a[1..], b[1..]);
    }
  }

  lemma {:induction false} RunningIsRecorded(f: Facts, p: Pane)
    requires Running(f, p)
    ensures PaneOf(f, p.(pendingRestore := None)) == PaneOf(f, p)
  {
    hide Redacted;
  }

  /** Removing the options changes no snapshot: those that still tell something are
      left, since a pane in which something runs is recorded as it runs. */
  lemma {:induction false} ForgettingKeepsTheSnapshot(f: Facts, panes: seq<Pane>, ids: seq<PaneId>)
    requires DistinctPanes(panes) && Forgets(f, panes, ids)
    ensures Grouped(f, [], Cleared(panes, ids)) == Grouped(f, [], panes)
  {
    var at: seq<nat> :| ForgetsAt(f, panes, ids, at);
    hide *;
    forall i: nat | i < |panes|
      ensures PaneOf(f, Cleared(panes, ids)[i]) == PaneOf(f, panes[i])
    {
      ForgottenRuns(f, panes, ids, at, i);
    }
    ClearedSame(panes, ids);
    GroupedSame(f, [], panes, Cleared(panes, ids));
  }

  lemma {:induction false} ClearedSame(panes: seq<Pane>, ids: seq<PaneId>)
    ensures forall i :: 0 <= i < |panes| ==>
              Cleared(panes, ids)[i] == panes[i].(pendingRestore := Cleared(panes, ids)[i].pendingRestore)
  {
  }

  lemma {:induction false} ForgottenRuns(f: Facts, panes: seq<Pane>, ids: seq<PaneId>, at: seq<nat>, i: nat)
    requires DistinctPanes(panes) && ForgetsAt(f, panes, ids, at) && i < |panes|
    ensures PaneOf(f, Cleared(panes, ids)[i]) == PaneOf(f, panes[i])
  {
    hide PaneOf, Running;
    if panes[i].id in ids {
      var k :| 0 <= k < |ids| && ids[k] == panes[i].id;
      assert panes[at[k]].id == panes[i].id;
      assert at[k] == i && at[k] in at;
      RunningIsRecorded(f, panes[i]);
    }
  }

  /** What is forgotten is what runs again, and the snapshot doesn't tell. */
  ghost predicate StaleOnly(f: Facts, panes: seq<Pane>, ids: seq<PaneId>) {
    && Forgets(f, panes, ids)
    && (DistinctPanes(panes) ==> Grouped(f, [], Cleared(panes, ids)) == Grouped(f, [], panes))
  }

  method StalePending(panes: seq<Pane>, facts: Facts) returns (ids: seq<PaneId>)
    ensures ids == RunningAgain(facts, panes)
    ensures StaleOnly(facts, panes, ids)
  {
    ghost var at := RunningAgainAt(facts, panes);
    ids := [];
    for i := 0 to |panes|
      invariant ids == RunningAgain(facts, panes[..i])
    {
      assert Front(panes[..i + 1]) == panes[..i] && Last(panes[..i + 1]) == panes[i];
      if RunsAgain(facts, panes[i]) {
        ids := ids + [panes[i].id];
      }
    }
    assert panes[..|panes|] == panes;
    if DistinctPanes(panes) {
      ForgettingKeepsTheSnapshot(facts, panes, ids);
    }
  }

  /** The files the tracker reads and writes. */
  class Disk {
    var snapshots: SnapshotFiles.Files
    var closed: seq<ClosedEntry>

    constructor (snapshots: SnapshotFiles.Files, closed: seq<ClosedEntry>)
      ensures this.snapshots == snapshots && this.closed == closed
    {
      this.snapshots, this.closed := snapshots, closed;
    }

    /** Record what vanished between two snapshots and nobody archived. */
    method RecordVanished(prev: seq<SessionSnap>, cur: seq<SessionSnap>, now: nat, works: bool)
      modifies this`closed
      ensures closed == if works then AfterTick(prev, cur, old(closed), now) else old(closed)
    {
      var vanished := ClosedBetween(prev, cur);
      if vanished != [] {
        var history := closed;
        vanished := NotYetRecorded(vanished, history, now);
        if vanished != [] {
          var ids;
          history, ids := RecordClosed(history, vanished, Manual, now);
          if works {
            closed := history;
          }
        }
      }
    }

    /** Drop entry `id` from the history. */
    method Reopen(id: nat)
      modifies this`closed
      ensures closed == Reopened(old(closed), id)
    {
      closed := Reopened(closed, id);
    }

    /** The history file after the saves among `steps`. */
    method Perform(steps: seq<Step>)
      modifies this`closed
      ensures closed == FileAfter(old(closed), steps)
    {
      for i := 0 to |steps|
        invariant closed == FileAfter(old(closed), steps[..i])
      {
        assert Front(steps[..i + 1]) == steps[..i] && Last(steps[..i + 1]) == steps[i];
        if steps[i].Saved? {
          closed := steps[i].history;
        }
      }
      assert steps[..|steps|] == steps;
    }
  }

  class Tracker {
    const disk: Disk
    var prev: Option<Snapshot>
    var written: Option<Snapshot>
    var first: bool

    /** The last written snapshot is the one in slot 0. */
    ghost predicate Valid()
      reads this, disk
    {
      written == if 0 in disk.snapshots then Some(disk.snapshots[0]) else None
    }

    /** The snapshot files and whether the first write is still due. */
    ghost predicate Shows(l: SnapshotFiles.Log)
      reads this, disk
    {
      Valid() && SnapshotFiles.Holds(disk.snapshots, l.list) && first == l.first
    }

    constructor (disk: Disk)
      ensures this.disk == disk && prev == None && first && Valid()
    {
      this.disk := disk;
      prev, first := None, true;
      written := if 0 in disk.snapshots then Some(disk.snapshots[0]) else None;
    }

    /** The snapshot files and what is known of them after a tick. */
    twostate predicate Wrote(cur: Snapshot, works: bool)
      reads this, disk
    {
      var action := SnapshotFiles.ActionFor(old(written), cur, old(first));
      var wrote := action != SnapshotFiles.Skip && works;
      && written == (if wrote then Some(cur) else old(written))
      && first == (old(first) && !wrote)
      && (if action == SnapshotFiles.Skip then disk.snapshots == old(disk.snapshots)
          else SnapshotFiles.Saves(old(disk.snapshots), disk.snapshots, cur, action == SnapshotFiles.Rotate, works))
    }

    /** Write the snapshot when due. */
    method WriteWhenDue(cur: Snapshot, works: bool)
      modifies this`written, this`first, disk`snapshots
      ensures Wrote(cur, works)
      ensures works ==> forall l :: old(Shows(l)) ==> Shows(SnapshotFiles.BoundedTick(l, cur))
    {
      hide SnapshotFiles.Saves, SnapshotFiles.ActionFor, SnapshotFiles.BoundedTick, SnapshotFiles.Holds;
      var action := SnapshotFiles.ActionFor(written, cur, first);
      ghost var before := disk.snapshots;
      if action != SnapshotFiles.Skip {
        var files := SnapshotFiles.Save(disk.snapshots, cur, action == SnapshotFiles.Rotate, works);
        disk.snapshots := files;
        if works {
          written := Some(cur);
          first := false;
        }
      }
      if works {
        forall l | old(Shows(l))
          ensures Shows(SnapshotFiles.BoundedTick(l, cur))
        {
          TickShown(l, before, disk.snapshots, old(written), old(first), cur);
        }
      }
    }

    /** Snapshot the current pane list, record what was closed and write the
        snapshot when due. Nothing happens without panes or during a restore.
        Returns the panes whose pending option is removed. */
    method Tick(panes: seq<Pane>, facts: Facts, restoring: bool, now: nat, works: Writes)
      returns (forgotten: seq<PaneId>)
      modifies this, disk
      ensures panes == [] || restoring ==>
                forgotten == [] && prev == None && written == old(written) && first == old(first)
                && disk.snapshots == old(disk.snapshots) && disk.closed == old(disk.closed)
      ensures panes != [] && !restoring ==>
                var cur := Snapshot(now, Grouped(facts, [], panes));
                && StaleOnly(facts, panes, forgotten)
                && prev == Some(cur)
                && disk.closed == (if old(prev).None? || !works.history then old(disk.closed)
                                   else AfterTick(old(prev).value.sessions, cur.sessions, old(disk.closed), now))
                && Wrote(cur, works.snapshot)
                && (works.snapshot ==> forall l :: old(Shows(l)) ==> Shows(SnapshotFiles.BoundedTick(l, cur)))
    {
      if panes == [] || restoring {
        forgotten, prev := [], None;
        return;
      }
      hide *;
      var cur := Build(panes, facts, now);
      forgotten := StalePending(panes, facts);
      if prev.Some? {
        disk.RecordVanished(prev.value.sessions, cur.sessions, now, works.history);
      }
      WriteWhenDue(cur, works.snapshot);
      prev := Some(cur);
    }

    /** Close `targets`, archived first from the last snapshot; without one
        nothing is closed. What is closed leaves that snapshot. */
    method Close(targets: seq<Target>, reason: CloseReason, now: nat, answers: Answers)
      returns (closed: seq<ClosedTarget>)
      modifies this, disk
      ensures disk.snapshots == old(disk.snapshots) && written == old(written) && first == old(first)
      ensures old(prev).None? ==> closed == [] && prev == None && disk.closed == old(disk.closed)
      ensures old(prev).Some? ==>
                var h := TakeAll(old(prev).value.sessions, targets);
                && prev == Some(old(prev).value.(sessions := h.rest))
                && disk.closed == FileAfter(old(disk.closed), Steps(h, old(disk.closed), reason, now, answers))
                && closed == if answers.saves
                             then ClosedTargets(h.targets, MaxId(old(disk.closed)) + 1, answers.closes, |h.targets|)
                             else []
    {
      if prev.None? {
        return [];
      }
      var rest, steps;
      rest, closed, steps := ArchiveAndClose(prev.value.sessions, targets, reason, now, disk.closed, answers);
      prev := Some(prev.value.(sessions := rest));
      disk.Perform(steps);
    }
  }

  lemma {:induction false} TickShown(l: SnapshotFiles.Log, before: SnapshotFiles.Files, files: SnapshotFiles.Files,
                                     written: Option<Snapshot>, first: bool, cur: Snapshot)
    requires SnapshotFiles.Holds(before, l.list) && first == l.first
    requires written == if 0 in before then Some(before[0]) else None
    requires var action := SnapshotFiles.ActionFor(written, cur, first);
             if action == SnapshotFiles.Skip then files == before
             else SnapshotFiles.Saves(before, files, cur, action == SnapshotFiles.Rotate, true)
    ensures var n := SnapshotFiles.BoundedTick(l, cur);
            && SnapshotFiles.Holds(files, n.list)
            && n.first == (first && SnapshotFiles.ActionFor(written, cur, first) == SnapshotFiles.Skip)
  {
    assert l.Top() == written;
    var action := SnapshotFiles.ActionFor(written, cur, first);
    if action != SnapshotFiles.Skip {
      SnapshotFiles.SaveKeepsNewest(before, l.list, files, cur, action == SnapshotFiles.Rotate);
    }
  }
}
