/** What a snapshot records of every session, window and pane (src/snapshot.rs),
    field by field. */
module SnapshotContents {
  import opened Wrappers
  import opened Inventory
  import opened Snapshots
  import RedactedWords

  // ---- Sessions and windows ------------------------------------------------

  /** A listed pane of the session tells its category; its environment is the known one. */
  ghost predicate SessionFrom(f: Facts, s: SessionSnap, p: Pane) {
    s.name == p.session && s.category == p.category
    && (if p.session in f.env then s.env == f.env[p.session] else s.env == [])
  }

  ghost predicate WindowFrom(w: WindowSnap, p: Pane) {
    && w.id == p.windowId && w.index == p.windowIndex && w.name == p.windowName
    && w.automaticRename == p.automaticRename && w.autonameOff == p.autonameOff && w.lastAutoname == p.lastAutoname
    && w.layout == p.windowLayout && w.active == p.windowActive
  }

  /** Some listed pane is recorded with the session, and for each of its windows
      some pane of it that is in the session. */
  ghost predicate Headed(f: Facts, s: SessionSnap, panes: seq<Pane>) {
    && (exists p :: p in panes && SessionFrom(f, s, p))
    && forall w :: w in s.windows ==> exists p :: p in panes && p.session == s.name && WindowFrom(w, p)
  }

  lemma {:induction false} AddPaneHeaded(f: Facts, acc: seq<SessionSnap>, p: Pane, panes: seq<Pane>)
    requires (forall s :: s in acc ==> Headed(f, s, panes)) && p in panes
    ensures forall s :: s in AddPane(f, acc, p) ==> Headed(f, s, panes)
  {
    hide PaneOf;
    var before := if acc == [] || Last(acc).name != p.session then SessionOf(f, p) else Last(acc);
    var s := before.(windows := AddToWindows(f, before.windows, p));
    assert acc != [] ==> Last(acc) in acc;
    assert SessionFrom(f, SessionOf(f, p), p);
    forall w | w in s.windows
      ensures exists q :: q in panes && q.session == s.name && WindowFrom(w, q)
    {
      if w in before.windows {
      } else if before.windows == [] || Last(before.windows).id != p.windowId {
        assert WindowFrom(w, p);
      } else {
        assert Last(before.windows) in before.windows;
        var q :| q in panes && q.session == s.name && WindowFrom(Last(before.windows), q);
        assert WindowFrom(w, q);
      }
    }
    assert Headed(f, s, panes);
    assert forall t :: t in AddPane(f, acc, p) ==> t == s || t in acc;
  }

  lemma {:induction false} GroupedHeaded(f: Facts, acc: seq<SessionSnap>, rest: seq<Pane>, panes: seq<Pane>)
    requires (forall s :: s in acc ==> Headed(f, s, panes)) && forall p :: p in rest ==> p in panes
    ensures forall s :: s in Grouped(f, acc, rest) ==> Headed(f, s, panes)
    decreases |rest|
  {
    if rest != [] {
      hide AddPane, Headed;
      AddPaneHeaded(f, acc, rest[0], panes);
      GroupedHeaded(f, AddPane(f, acc, rest[0]), rest[1..], panes);
    }
  }

  /** Every session is recorded with the category its panes tell and the environment
      known of it, and every window with everything a pane of it tells. */
  lemma {:induction false} SnapshotHeads(f: Facts, panes: seq<Pane>)
    ensures forall s :: s in Grouped(f, [], panes) ==> Headed(f, s, panes)
  {
    hide Grouped, Headed;
    GroupedHeaded(f, [], panes, panes);
  }

  // ---- Panes ---------------------------------------------------------------

  ghost predicate AgentOf(f: Facts, p: Pane, agent: Option<AgentResume>) {
    if p.id in f.states && f.states[p.id].agent.Some?
    then agent == Some(AgentResume(f.states[p.id].agent.value, f.states[p.id].agentSessionId))
    else agent == None
  }

  ghost predicate WordsOf(f: Facts, p: Pane, argv: Option<seq<string>>) {
    if p.id in f.argvs
    then argv == Some(RedactedWords.Staying(f.argvs[p.id], f.redact, |f.argvs[p.id]|))
    else argv == None
  }

  /** The pane is recorded with its place and directory; what runs in it, without
      secrets, is recorded as it is, and in an idle pane what its option says. */
  ghost predicate PaneFrom(f: Facts, p: Pane, snap: PaneSnap) {
    && snap.index == p.paneIndex && snap.cwd == p.cwd && snap.active == p.paneActive
    && (p.id in f.argvs || (p.id in f.states && f.states[p.id].agent.Some?) || p.pendingRestore.None? ==>
          WordsOf(f, p, snap.argv) && AgentOf(f, p, snap.agent))
    && (p.id !in f.argvs && !(p.id in f.states && f.states[p.id].agent.Some?) && p.pendingRestore.Some? ==>
          Pending(snap.argv, snap.agent) == p.pendingRestore.value)
  }

  lemma {:induction false} PaneIs(f: Facts, p: Pane)
    ensures PaneFrom(f, p, PaneOf(f, p))
  {
    if p.id in f.argvs {
      RedactedWords.RedactedIsStaying(f.argvs[p.id], f.redact);
    }
    hide Redacted, RedactedWords.Staying;
  }

  lemma {:induction false} PaneCellsAre(f: Facts, panes: seq<Pane>)
    ensures |PaneCells(f, panes)| == |panes|
    ensures forall k :: 0 <= k < |panes| ==>
              var c := PaneCells(f, panes)[k];
              c.session == panes[k].session && c.window == panes[k].windowId && PaneFrom(f, panes[k], c.pane)
  {
    if panes != [] {
      PaneCellsAre(f, panes[1..]);
      PaneIs(f, panes[0]);
      hide PaneOf, PaneFrom;
    }
  }

  /** The panes of a snapshot, in order, are the listed ones, each under its session
      and window and recorded as it is. */
  lemma {:induction false} SnapshotPanes(f: Facts, panes: seq<Pane>)
    ensures var cells := Cells(Grouped(f, [], panes));
            && |cells| == |panes|
            && forall k :: 0 <= k < |panes| ==>
                 cells[k].session == panes[k].session && cells[k].window == panes[k].windowId
                 && PaneFrom(f, panes[k], cells[k].pane)
  {
    hide PaneFrom, Grouped, Cells, PaneCells;
    SnapshotListsPanes(f, panes);
    PaneCellsAre(f, panes);
  }
}
