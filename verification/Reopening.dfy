/** Reopening an entry of the closed history (src/restore.rs): its windows are
    restored by force and the entry leaves the history. */
module Reopening {
  import opened Wrappers
  import opened Snapshots
  import opened ClosedHistory
  import opened TmuxServer
  import opened RestoreWindow
  import opened RestoreSessions
  import opened RestoreMerging

  /** Reopen entry `id` and drop it from the history; `None` when there is none. */
  method Reopen(t: Tmux, before: seq<ClosedEntry>, id: nat, o: Options)
    returns (report: Option<Report>, history: seq<ClosedEntry>)
    modifies t
    ensures history == Reopened(before, id)
    ensures EntryAt(before, id) == |before| ==> report == None && t.server == old(t.server)
    ensures EntryAt(before, id) < |before| ==>
              var r := Restored(old(t.server), [before[EntryAt(before, id)].session], o.(force := true));
              && t.server == r.server && report == Some(Report(r.windows, |r.pastes|, r.errors))
              && history == before[..EntryAt(before, id)] + before[EntryAt(before, id) + 1..]
  {
    hide Restored;
    var pos := 0;
    while pos < |before| && before[pos].id != id
      invariant pos <= EntryAt(before, id)
    {
      pos := pos + 1;
    }
    if pos == |before| {
      return None, before;
    }
    var entry := before[pos];
    history := before[..pos] + before[pos + 1..];
    var made, pastes := Restore(t, Snapshot(entry.closedAt, [entry.session]), o.(force := true));
    report := Some(made);
  }

  /** The entry is dropped whatever the restore reports: nothing is lost exactly
      when no window of it collides on the server as it is. */
  lemma {:induction false} ReopensWholeIff(s0: Server, entry: ClosedEntry, o: Options)
    requires Valid(s0) && o.force
    ensures var r := Restored(s0, [entry.session], o);
            var taken, ws := TakenIn(s0, entry.session.name), entry.session.windows;
            && (r.errors == [] <==> forall k :: 0 <= k < |ws| ==> !Collides(taken, s0.baseIndex, ws, k))
            && (r.errors == [] ==> r.windows == WindowCount(ws))
            && Untouched(s0, r.server)
  {
    var sessions := [entry.session];
    assert forall s :: s in sessions ==> s == entry.session;
    assert entry.session in sessions;
    hide Restored, Untouched, Collides;
    RestoreWorksIff(s0, sessions, o);
    RestoreTouchesNothing(s0, sessions, o);
    if Restored(s0, sessions, o).errors == [] {
      ForcedAddsEach(s0, sessions, o);
      OneSession(entry.session);
    }
  }

  lemma {:induction false} OneSession(session: SessionSnap)
    ensures TotalWindows([session]) == WindowCount(session.windows)
  {
    assert Front([session]) == [];
    assert TotalWindows([]) == 0;
  }

  /** A closed window is always reopened, and a closed session always is while no
      session has its name, provided its windows' indexes differ. */
  lemma {:induction false} ClosedComesBack(s0: Server, entry: ClosedEntry, o: Options)
    requires Valid(s0) && o.force
    ensures |entry.session.windows| == 1 ==> Restored(s0, [entry.session], o).errors == []
    ensures entry.session.name !in s0.sessions ==>
              (Restored(s0, [entry.session], o).errors == [] <==> MissingDistinct({}, entry.session.windows))
  {
    ReopensWholeIff(s0, entry, o);
    var taken, ws := TakenIn(s0, entry.session.name), entry.session.windows;
    ForcedWorksIff(taken, s0.baseIndex, ws, o);
    ReopeningWorks(taken, s0.baseIndex, ws, o);
    hide Restored, Collides, RestorePlan.Planned, MissingDistinct;
  }
}
