/** Why the runs of `ExactlyOnce` let closes act only on the server as last
    ticked, and entries be reopened only after the next tick: otherwise a window
    is recorded twice. `RecordedTwice` has a run of each kind. */
module MovedWindows {
  import opened Inventory
  import opened ClosedHistory
  import opened Trackers
  import opened ArchiveClose
  import opened ExactlyOnce

  // ---- What a tick records again -------------------------------------------

  /** A tick records a window it saw last time and doesn't see now exactly when no
      recent entry holds it under the session it saw it in, and its save keeps it. */
  lemma {:induction false} GoneIsRecordedUnlessRecent(w: World, t: Event, p: Placed)
    requires t.Tick? && Unique(AllWindows(w.prev)) && p in AllWindows(w.prev) && p.window.id !in WindowIds(t.cur)
    ensures var id := p.window.id;
            Times(Next(w, t), id)
            == Times(w, id) + if RecentlyArchived(w.file, t.now, p.session, id) || id in LostIn(w, t) then 0 else 1
  {
    var id, left := p.window.id, TickRecords(w.prev, t.cur, w.file, t.now);
    assert Next(w, t).log == w.log + Kept(left, t.saves);
    assert LostIn(w, t) == WindowIds(Sessions(Dropped(left, t.saves)));
    hide *;
    TimesAfter(w, Next(w, t), Kept(left, t.saves), id);
    RecordsOfTracked(w.prev, t.cur, w.file, t.now, p);
    KeptAndDropped(left, t.saves, id);
  }

  /** So a window another process archived and closed is recorded again by the next
      tick, as when it was moved in between. */
  lemma {:induction false} ArchivedElsewhereIsRecordedAgain(w: World, e: Event, t: Event, p: Placed, q: Placed)
    requires e.OutsideArchive? && t.Tick? && Unique(AllWindows(w.prev)) && Unique(AllWindows(e.snap))
    requires p in AllWindows(w.prev) && q in AllWindows(Sessions(Adds(w, e))) && q.window.id == p.window.id
    requires p.window.id !in WindowIds(t.cur)
    ensures var id, b := p.window.id, Next(w, e);
            Times(Next(b, t), id)
            == Times(w, id)
               + if RecentlyArchived(b.file, t.now, p.session, id) || id in LostIn(b, t) then 1 else 2
  {
    var id, b, h := p.window.id, Next(w, e), TakeAll(e.snap, e.targets);
    assert b.prev == w.prev && b.log == w.log + Logged(h, e.answers) && Count(AllWindows(e.snap), id) <= 1;
    assert Adds(w, e) == Logged(h, e.answers);
    hide *;
    TimesAfter(w, b, Logged(h, e.answers), id);
    TakenCounts(e.snap, e.targets, e.answers, id);
    CountPositive(AllWindows(Sessions(Logged(h, e.answers))), id);
    GoneIsRecordedUnlessRecent(b, t, p);
  }

  /** And a window archived since the last tick whose only entry is reopened before
      the next, its session coming back with new windows, is recorded once more. */
  lemma {:induction false} ReopenedTooSoon(w: World, entry: nat, live: map<WindowId, string>, t: Event, p: Placed)
    requires t.Tick? && Unique(AllWindows(w.prev)) && p in AllWindows(w.prev) && p.window.id !in WindowIds(t.cur)
    requires OnlyIn(w.file, entry, p.window.id)
    requires p.window.id !in LostIn(Next(Next(w, Reopen(entry)), Change(live)), t)
    ensures Times(Next(Next(Next(w, Reopen(entry)), Change(live)), t), p.window.id) == Times(w, p.window.id) + 1
  {
    var b, id := Next(Next(w, Reopen(entry)), Change(live)), p.window.id;
    hide *;
    ReopenThenChange(w, entry, live);
    TimesOfLog(b, w, id);
    GoneIsRecordedUnlessRecent(b, t, p);
    ReopenedHasNone(w.file, entry, t.now, p.session, id);
  }

  /** No entry but the one with this id holds the window. */
  ghost predicate OnlyIn(file: seq<ClosedEntry>, entry: nat, id: WindowId) {
    forall k, v :: 0 <= k < |file| && v in file[k].session.windows && v.id == id ==> k == EntryAt(file, entry)
  }

  lemma {:induction false} ReopenedHasNone(file: seq<ClosedEntry>, entry: nat, now: nat, session: string, id: WindowId)
    requires OnlyIn(file, entry, id)
    ensures !RecentlyArchived(Reopened(file, entry), now, session, id)
  {
    var i, left := EntryAt(file, entry), Reopened(file, entry);
    hide EntryAt;
    forall e, v | e in left && v in e.session.windows
      ensures v.id != id
    {
      var k :| 0 <= k < |left| && left[k] == e;
      var was := if i == |file| || k < i then k else k + 1;
      assert file[was] == e && was != i;
    }
  }

  lemma {:induction false} ReopenThenChange(w: World, entry: nat, live: map<WindowId, string>)
    ensures var b := Next(Next(w, Reopen(entry)), Change(live));
            b.prev == w.prev && b.log == w.log && b.file == Reopened(w.file, entry)
  {
    hide Reopened;
  }

  lemma {:induction false} TimesOfLog(a: World, b: World, id: WindowId)
    requires a.log == b.log
    ensures Times(a, id) == Times(b, id)
  {
  }

  /** After an archive by another process, a window not recorded before counts as
      recently archived only under the session it was archived in. */
  lemma {:induction false} RecentUnderItsSession(w: World, e: Event, now: nat, session: string, q: Placed)
    requires e.OutsideArchive? && FileLogged(w) && Times(w, q.window.id) == 0
    requires Unique(AllWindows(e.snap)) && q in AllWindows(Sessions(Adds(w, e)))
    requires Cleans(TakeAll(e.snap, e.targets), e.answers) && |TakeAll(e.snap, e.targets).entries| <= CLOSED_MAX
    requires RecentlyArchived(Next(w, e).file, now, session, q.window.id)
    ensures session == q.session
  {
    var id, h, added, file := q.window.id, TakeAll(e.snap, e.targets), Adds(w, e), Next(w, e).file;
    assert added == Logged(h, e.answers);
    assert file == FileAfter(w.file, Steps(h, w.file, e.reason, e.now, e.answers));
    assert Unique(AllWindows(Sessions(added))) by {
      hide TakeAll, Count, AllWindows, Sessions, Logged, Unclosed, Adds;
      forall i: WindowId
        ensures Count(AllWindows(Sessions(added)), i) <= 1
      {
        TakenCounts(e.snap, e.targets, e.answers, i);
        assert Count(AllWindows(e.snap), i) <= 1;
      }
    }
    hide TakeAll, Unique, AllWindows, Sessions, Times, Next, Adds, Logged, Cleans, FileAfter, Steps;
    ArchiveFile(h, w.file, e.reason, e.now, e.answers);
    var f, v :| f in file && v in f.session.windows && Elapsed(now, f.closedAt) < RECENTLY_ARCHIVED
                && f.session.name == session && v.id == id;
    assert f !in w.file;
    var c :| c in added && f.session == c.session;
    EntryWindows(added, c, v);
    UniquePlace(AllWindows(Sessions(added)), q, Placed(session, v));
  }

  /** So a window moved to another session after the last tick and then archived
      and closed by another process is recorded twice, once under each. */
  lemma {:induction false} MovedIsRecordedTwice(w: World, e: Event, t: Event, p: Placed, q: Placed)
    requires Inv(w) && e.OutsideArchive? && t.Tick? && Unique(AllWindows(e.snap))
    requires Cleans(TakeAll(e.snap, e.targets), e.answers) && |TakeAll(e.snap, e.targets).entries| <= CLOSED_MAX
    requires p in AllWindows(w.prev) && q in AllWindows(Sessions(Adds(w, e))) && q.window.id == p.window.id
    requires q.session != p.session && p.window.id in w.live
    requires p.window.id !in WindowIds(t.cur) && p.window.id !in LostIn(Next(w, e), t)
    ensures Times(Next(Next(w, e), t), p.window.id) == 2
  {
    assert Counted(w, p.window.id);
    hide Next, TakeAll, Adds, AllWindows, Sessions, Times, WindowIds, LostIn, RecentlyArchived, Cleans, Tracked, Unique;
    ArchivedElsewhereIsRecordedAgain(w, e, t, p, q);
    if RecentlyArchived(Next(w, e).file, t.now, p.session, p.window.id) {
      RecentUnderItsSession(w, e, t.now, p.session, q);
    }
  }
}
