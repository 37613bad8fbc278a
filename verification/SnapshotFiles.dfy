/** The snapshot file and its rotated predecessors (src/snapshot.rs): when a
    snapshot is written, and how the files move. Slot 0 is `snapshot.json`,
    slot `n` is `snapshot.n.json`. */
module SnapshotFiles {
  import opened Wrappers
  import opened Inventory
  import opened Snapshots

  const ROTATIONS: nat := 5
  const WRITE_EVERY: nat := 30

  // ---- When to write -------------------------------------------------------

  datatype Shape = Shape(name: string, indexes: seq<nat>)

  function Indexes(ws: seq<WindowSnap>): seq<nat> {
    if ws == [] then [] else Indexes(Front(ws)) + [Last(ws).index]
  }

  /** Sessions with their window indexes: a change rotates the files. */
  function Structure(ss: seq<SessionSnap>): seq<Shape> {
    if ss == [] then [] else Structure(Front(ss)) + [Shape(Last(ss).name, Indexes(Last(ss).windows))]
  }

  function PaneAgentIds(ps: seq<PaneSnap>): seq<Option<string>> {
    if ps == [] then [] else
    PaneAgentIds(Front(ps)) + [if Last(ps).agent.Some? then Last(ps).agent.value.sessionId else None]
  }

  function WindowAgentIds(ws: seq<WindowSnap>): seq<Option<string>> {
    if ws == [] then [] else WindowAgentIds(Front(ws)) + PaneAgentIds(Last(ws).panes)
  }

  function AgentIds(ss: seq<SessionSnap>): seq<Option<string>> {
    if ss == [] then [] else AgentIds(Front(ss)) + WindowAgentIds(Last(ss).windows)
  }

  /** The same sessions by name, in order, with windows at the same indexes. */
  ghost predicate SameShape(a: seq<SessionSnap>, b: seq<SessionSnap>) {
    |a| == |b| && forall i :: 0 <= i < |a| ==> a[i].name == b[i].name && SameIndexes(a[i].windows, b[i].windows)
  }

  ghost predicate SameIndexes(a: seq<WindowSnap>, b: seq<WindowSnap>) {
    |a| == |b| && forall j :: 0 <= j < |a| ==> a[j].index == b[j].index
  }

  /** The agent session a pane is in, if it runs an agent that told. */
  ghost predicate InSession(p: PaneSnap, id: string) {
    p.agent.Some? && p.agent.value.sessionId == Some(id)
  }

  /** Pane by pane, in order, the same agent sessions. */
  ghost predicate SameAgents(a: seq<SessionSnap>, b: seq<SessionSnap>) {
    |Cells(a)| == |Cells(b)| && forall k, id ::
      0 <= k < |Cells(a)| ==> (InSession(Cells(a)[k].pane, id) <==> InSession(Cells(b)[k].pane, id))
  }

  lemma {:induction false} IndexesAre(ws: seq<WindowSnap>)
    ensures |Indexes(ws)| == |ws| && forall j :: 0 <= j < |ws| ==> Indexes(ws)[j] == ws[j].index
  {
    if ws != [] {
      IndexesAre(Front(ws));
    }
  }

  lemma {:induction false} SameIndexesIff(a: seq<WindowSnap>, b: seq<WindowSnap>)
    ensures Indexes(a) == Indexes(b) <==> SameIndexes(a, b)
  {
    IndexesAre(a);
    IndexesAre(b);
    hide Indexes;
    assert SameIndexes(a, b) ==> Indexes(a) == Indexes(b);
    assert Indexes(a) == Indexes(b) ==> forall j :: 0 <= j < |a| ==> Indexes(a)[j] == Indexes(b)[j];
  }

  lemma {:induction false} StructureIs(ss: seq<SessionSnap>)
    ensures |Structure(ss)| == |ss|
    ensures forall i :: 0 <= i < |ss| ==> Structure(ss)[i] == Shape(ss[i].name, Indexes(ss[i].windows))
  {
    if ss != [] {
      StructureIs(Front(ss));
    }
  }

  lemma {:induction false} SameShapeIff(a: seq<SessionSnap>, b: seq<SessionSnap>)
    ensures Structure(a) == Structure(b) <==> SameShape(a, b)
  {
    StructureIs(a);
    StructureIs(b);
    hide Structure, Indexes, SameIndexes;
    forall i | 0 <= i < |a| && i < |b|
      ensures Structure(a)[i] == Structure(b)[i]
              <==> a[i].name == b[i].name && SameIndexes(a[i].windows, b[i].windows)
    {
      SameIndexesIff(a[i].windows, b[i].windows);
    }
    if SameShape(a, b) {
      assert forall i :: 0 <= i < |a| ==> Structure(a)[i] == Structure(b)[i];
    }
  }

  function AgentIdOf(p: PaneSnap): Option<string> {
    if p.agent.Some? then p.agent.value.sessionId else None
  }

  lemma {:induction false} PaneAgentIdsAre(ps: seq<PaneSnap>)
    ensures |PaneAgentIds(ps)| == |ps| && forall k :: 0 <= k < |ps| ==> PaneAgentIds(ps)[k] == AgentIdOf(ps[k])
  {
    if ps != [] {
      PaneAgentIdsAre(Front(ps));
    }
  }

  lemma {:induction false} WindowAgentIdsAre(session: string, ws: seq<WindowSnap>)
    ensures |WindowAgentIds(ws)| == |WindowsCells(session, ws)|
    ensures forall k :: 0 <= k < |WindowAgentIds(ws)| ==>
              WindowAgentIds(ws)[k] == AgentIdOf(WindowsCells(session, ws)[k].pane)
  {
    if ws != [] {
      WindowAgentIdsAre(session, Front(ws));
      PaneAgentIdsAre(Last(ws).panes);
      hide AgentIdOf, PaneAgentIds;
    }
  }

  lemma {:induction false} AgentIdsAre(ss: seq<SessionSnap>)
    ensures |AgentIds(ss)| == |Cells(ss)|
    ensures forall k :: 0 <= k < |AgentIds(ss)| ==> AgentIds(ss)[k] == AgentIdOf(Cells(ss)[k].pane)
  {
    if ss != [] {
      AgentIdsAre(Front(ss));
      WindowAgentIdsAre(Last(ss).name, Last(ss).windows);
      hide AgentIdOf, WindowAgentIds, WindowsCells;
    }
  }

  lemma {:induction false} SameAgentIff(p: PaneSnap, q: PaneSnap)
    ensures AgentIdOf(p) == AgentIdOf(q) <==> forall id :: InSession(p, id) <==> InSession(q, id)
  {
    assert AgentIdOf(p).Some? ==> InSession(p, AgentIdOf(p).value);
    assert AgentIdOf(q).Some? ==> InSession(q, AgentIdOf(q).value);
  }

  lemma {:induction false} SameAgentsIff(a: seq<SessionSnap>, b: seq<SessionSnap>)
    ensures AgentIds(a) == AgentIds(b) <==> SameAgents(a, b)
  {
    AgentIdsAre(a);
    AgentIdsAre(b);
    hide AgentIds, Cells, AgentIdOf, InSession;
    forall k | 0 <= k < |Cells(a)| && k < |Cells(b)|
      ensures AgentIds(a)[k] == AgentIds(b)[k]
              <==> forall id :: InSession(Cells(a)[k].pane, id) <==> InSession(Cells(b)[k].pane, id)
    {
      SameAgentIff(Cells(a)[k].pane, Cells(b)[k].pane);
    }
    if SameAgents(a, b) {
      assert forall k :: 0 <= k < |AgentIds(a)| ==> AgentIds(a)[k] == AgentIds(b)[k];
    }
  }

  datatype WriteAction = Skip | Overwrite | Rotate

  function ActionFor(written: Option<Snapshot>, cur: Snapshot, first: bool): WriteAction {
    match written
    case None => Rotate
    case Some(w) =>
      if Structure(w.sessions) != Structure(cur.sessions) then Rotate
      else if first || AgentIds(w.sessions) != AgentIds(cur.sessions)
              || (Elapsed(cur.takenAt, w.takenAt) >= WRITE_EVERY && w.sessions != cur.sessions) then Overwrite
      else Skip
  }

  /** Nothing is written exactly when the written snapshot has the same shape and
      agent sessions, isn't the first, and other content is the same or under thirty
      seconds old; the files rotate exactly when the shape changed. */
  lemma {:induction false} WritesWhenDue(written: Option<Snapshot>, cur: Snapshot, first: bool)
    ensures ActionFor(written, cur, first) == Rotate
            <==> (written.Some? ==> !SameShape(written.value.sessions, cur.sessions))
    ensures ActionFor(written, cur, first) == Skip
            <==> && written.Some? && !first && SameShape(written.value.sessions, cur.sessions)
                 && SameAgents(written.value.sessions, cur.sessions)
                 && (written.value.sessions == cur.sessions || Elapsed(cur.takenAt, written.value.takenAt) < 30)
  {
    hide Structure, AgentIds, SameShape, SameAgents;
    if written.Some? {
      SameShapeIff(written.value.sessions, cur.sessions);
      SameAgentsIff(written.value.sessions, cur.sessions);
    }
  }

  // ---- The files -----------------------------------------------------------

  type Files = map<nat, Snapshot>

  /** Rename a file over another; nothing happens when it doesn't exist. */
  function Rename(files: Files, a: nat, b: nat): Files {
    if a in files then (files - {a})[b := files[a]] else files
  }

  ghost predicate SameSlot(before: Files, k: nat, after: Files, l: nat) {
    (l in after <==> k in before) && (l in after ==> after[l] == before[k])
  }

  /** The slot `k` once slots `n..ROTATIONS` moved up by one: the last one is
      replaced, unless nothing moves into it. */
  ghost predicate ShiftedSlot(before: Files, after: Files, n: nat, k: nat) {
    if n < k <= ROTATIONS && (k - 1 in before || k < ROTATIONS) then SameSlot(before, k - 1, after, k)
    else if k == n < ROTATIONS then k !in after
    else SameSlot(before, k, after, k)
  }

  ghost predicate Shifted(before: Files, after: Files, n: nat) {
    forall k: nat :: ShiftedSlot(before, after, n, k)
  }

  lemma {:induction false} ShiftStep(before: Files, files: Files, n: nat)
    requires n < ROTATIONS && Shifted(before, files, n + 1)
    ensures Shifted(before, Rename(files, n, n + 1), n)
  {
    var after := Rename(files, n, n + 1);
    forall k: nat
      ensures ShiftedSlot(before, after, n, k)
    {
      assert ShiftedSlot(before, files, n + 1, k);
      assert ShiftedSlot(before, files, n + 1, n);
      assert ShiftedSlot(before, files, n + 1, n + 1);
    }
  }

  /** The files after a save: whether or not writing works, a rotating one has
      moved the previous snapshots up. */
  ghost predicate Saves(before: Files, files: Files, snapshot: Snapshot, rotate: bool, works: bool) {
    if rotate && 0 in before then
      Shifted(before, files - {0}, 0) && (0 in files <==> works) && (works ==> files[0] == snapshot)
    else files == if works then before[0 := snapshot] else before
  }

  /** Write `snapshot`, moving the previous ones up first when `rotate`. */
  method Save(before: Files, snapshot: Snapshot, rotate: bool, works: bool) returns (files: Files)
    ensures Saves(before, files, snapshot, rotate, works)
  {
    files := before;
    if rotate && 0 in files {
      for n := ROTATIONS downto 1
        invariant Shifted(before, files, n)
      {
        ShiftStep(before, files, n);
        files := Rename(files, n, n + 1);
      }
      ShiftStep(before, files, 0);
      files := Rename(files, 0, 1);
      assert ShiftedSlot(before, files, 0, 0);
      assert files[0 := snapshot] - {0} == files && files - {0} == files;
    }
    if works {
      files := files[0 := snapshot];
    }
  }

  // ---- The files as a list -------------------------------------------------

  /** The newest snapshot in slot 0, the previous ones after it, no gaps. */
  ghost predicate Holds(files: Files, list: seq<Snapshot>) {
    |list| <= ROTATIONS + 1 && forall k: nat :: (k in files <==> k < |list|) && (k in files ==> files[k] == list[k])
  }

  function Newest(list: seq<Snapshot>): seq<Snapshot> {
    if |list| <= ROTATIONS + 1 then list else list[..ROTATIONS + 1]
  }

  /** The list after a write. */
  function Written(list: seq<Snapshot>, snapshot: Snapshot, rotate: bool): seq<Snapshot> {
    if rotate || list == [] then [snapshot] + list else [snapshot] + list[1..]
  }

  /** A save puts the snapshot first; a rotating one keeps the previous five
      after it, in order. */
  lemma {:induction false} SaveKeepsNewest(before: Files, list: seq<Snapshot>, files: Files, snapshot: Snapshot,
        rotate: bool)
    requires Holds(before, list) && Saves(before, files, snapshot, rotate, true)
    ensures Holds(files, Newest(Written(list, snapshot, rotate)))
  {
    var after := Newest(Written(list, snapshot, rotate));
    forall k: nat
      ensures (k in files <==> k < |after|) && (k in files ==> files[k] == after[k])
    {
      if rotate && 0 in before {
        assert ShiftedSlot(before, files - {0}, 0, k);
      }
    }
  }

  /** Slot 0 is missing and the previous snapshots, newest first, follow. */
  ghost predicate Waiting(files: Files, list: seq<Snapshot>) {
    forall k: nat ::
      (k in files <==> 1 <= k <= ROTATIONS && k <= |list|) && (k in files ==> files[k] == list[k - 1])
  }

  /** A rotating save that fails after moving the files loses nothing a working
      one would keep: saves may go on failing, and the one that works leaves the
      files a single rotating save would have left. */
  lemma {:induction false} FailedSaveIsMadeUp(before: Files, list: seq<Snapshot>, files: Files, snapshot: Snapshot,
        again: Files, failed: Snapshot, failing: bool, saved: Files, last: Snapshot, rotate: bool)
    requires Holds(before, list) && list != [] && Saves(before, files, snapshot, true, false)
    requires Saves(files, again, failed, failing, false) && Saves(again, saved, last, rotate, true)
    ensures Waiting(files, list) && again == files
    ensures Holds(saved, Newest(Written(list, last, true)))
  {
    forall k: nat
      ensures (k in files <==> 1 <= k <= ROTATIONS && k <= |list|) && (k in files ==> files[k] == list[k - 1])
    {
      assert files - {0} == files;
      assert ShiftedSlot(before, files - {0}, 0, k);
    }
    var after := Newest(Written(list, last, true));
    forall k: nat
      ensures (k in saved <==> k < |after|) && (k in saved ==> saved[k] == after[k])
    {
      assert k in files <==> 1 <= k <= ROTATIONS && k <= |list|;
    }
  }

  // ---- Runs of ticks -------------------------------------------------------

  /** Every snapshot ever written and not overwritten, newest first, and whether
      the daemon has yet to write its first. */
  datatype Log = Log(list: seq<Snapshot>, first: bool) {
    function Top(): Option<Snapshot> {
      if list == [] then None else Some(list[0])
    }
  }

  /** One tick whose save works. */
  function Tick(l: Log, cur: Snapshot): Log {
    match ActionFor(l.Top(), cur, l.first)
    case Skip => l
    case Overwrite => Log(Written(l.list, cur, false), false)
    case Rotate => Log(Written(l.list, cur, true), false)
  }

  function Ticks(l: Log, curs: seq<Snapshot>): Log {
    if curs == [] then l else Tick(Ticks(l, Front(curs)), Last(curs))
  }

  /** The written snapshot stands for `cur`: same structure and agent session
      ids, and other content that differs only while it is recent. */
  ghost predicate Current(w: Snapshot, cur: Snapshot) {
    && SameShape(w.sessions, cur.sessions) && SameAgents(w.sessions, cur.sessions)
    && (w.sessions == cur.sessions || Elapsed(cur.takenAt, w.takenAt) < 30)
  }

  ghost predicate NeighboursDiffer(list: seq<Snapshot>) {
    forall i :: 0 < i < |list| ==> !SameShape(list[i - 1].sessions, list[i].sessions)
  }

  lemma {:induction false} SameAsItself(s: Snapshot)
    ensures SameShape(s.sessions, s.sessions) && SameAgents(s.sessions, s.sessions)
  {
  }

  lemma {:induction false} TickKeeps(l: Log, cur: Snapshot)
    requires NeighboursDiffer(l.list)
    ensures var n := Tick(l, cur);
            && NeighboursDiffer(n.list) && n.list != [] && Current(n.list[0], cur)
            && (l.first ==> n.list[0] == cur) && !n.first
            && (n.list == l.list || (exists k: nat :: k <= 1 && k <= |l.list| && n.list == [cur] + l.list[k..]))
  {
    hide ActionFor, SameShape, SameAgents, Structure;
    WritesWhenDue(l.Top(), cur, l.first);
    SameAsItself(cur);
    var n := Tick(l, cur);
    if n.list != l.list {
      var k := if ActionFor(l.Top(), cur, l.first) == Rotate || l.list == [] then 0 else 1;
      assert l.list[0..] == l.list;
      assert n.list == [cur] + l.list[k..];
      forall i | 0 < i < |n.list|
        ensures !SameShape(n.list[i - 1].sessions, n.list[i].sessions)
      {
        assert n.list[i] == l.list[i - 1 + k];
        if i > 1 {
          assert n.list[i - 1] == l.list[i - 2 + k];
        } else {
          SameShapeIff(cur.sessions, l.list[k].sessions);
          SameShapeIff(l.list[0].sessions, cur.sessions);
          SameShapeIff(l.list[0].sessions, l.list[k].sessions);
        }
      }
    }
  }

  /** After any run of ticks the written snapshot stands for the last one seen,
      and neighbouring files differ in structure. */
  lemma {:induction false} RunStaysCurrent(l: Log, curs: seq<Snapshot>)
    requires NeighboursDiffer(l.list)
    ensures NeighboursDiffer(Ticks(l, curs).list)
    ensures curs != [] ==> Ticks(l, curs).list != [] && Current(Ticks(l, curs).list[0], Last(curs))
  {
    hide Tick, Current;
    if curs != [] {
      RunStaysCurrent(l, Front(curs));
      TickKeeps(Ticks(l, Front(curs)), Last(curs));
    }
  }

  /** One tick on the bounded files. */
  function BoundedTick(l: Log, cur: Snapshot): Log {
    var n := Tick(l, cur);
    n.(list := Newest(n.list))
  }

  function BoundedTicks(l: Log, curs: seq<Snapshot>): Log {
    if curs == [] then l else BoundedTick(BoundedTicks(l, Front(curs)), Last(curs))
  }

  /** Bounding the files loses only the oldest: after any run the slots hold the
      newest six of all snapshots a run without bound would hold, in order. */
  lemma {:induction false} SlotsAreNewest(l: Log, curs: seq<Snapshot>)
    requires |l.list| <= ROTATIONS + 1
    ensures BoundedTicks(l, curs) == Ticks(l, curs).(list := Newest(Ticks(l, curs).list))
    ensures forall s: seq<Snapshot> :: Newest(s) == s[..if |s| < 6 then |s| else 6]
  {
    if curs != [] {
      SlotsAreNewest(l, Front(curs));
      NewestOfTick(Ticks(l, Front(curs)), Last(curs));
    }
  }

  lemma {:induction false} NewestOfTick(l: Log, cur: Snapshot)
    ensures BoundedTick(l.(list := Newest(l.list)), cur) == Tick(l, cur).(list := Newest(Tick(l, cur).list))
  {
    hide ActionFor;
    var b := l.(list := Newest(l.list));
    assert b.Top() == l.Top();
    assert Newest(Written(b.list, cur, true)) == Newest(Written(l.list, cur, true));
    assert Newest(Written(b.list, cur, false)) == Newest(Written(l.list, cur, false));
    assert Newest(b.list) == b.list;
  }
}
