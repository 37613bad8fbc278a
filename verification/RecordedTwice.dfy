/** Two runs that record a window twice, each allowed but for one step: a window
    moved and then closed by another process, and an entry reopened before the
    tracker saw its window go. */
module RecordedTwice {
  import opened Snapshots
  import opened Inventory
  import opened ClosedHistory
  import opened Trackers
  import opened ArchiveClose
  import opened ExactlyOnce
  import opened MovedWindows

  // ---- Two sessions of one window ------------------------------------------

  function WindowWith(id: WindowId): WindowSnap {
    WindowSnap(id, 0, "w", false, false, "", "", true, [])
  }

  function SessionWith(name: string, id: WindowId): SessionSnap {
    SessionSnap(name, "", [], [WindowWith(id)])
  }

  function Apart(a: string, i: WindowId, b: string, j: WindowId): seq<SessionSnap> {
    [SessionWith(a, i), SessionWith(b, j)]
  }

  lemma {:induction false} OnePlaced(a: string, i: WindowId)
    ensures AllWindows([SessionWith(a, i)]) == [Placed(a, WindowWith(i))]
    ensures forall id: WindowId :: Count([Placed(a, WindowWith(i))], id) == if id == i then 1 else 0
  {
    AllWindowsOne(SessionWith(a, i));
    assert AllWindows([SessionWith(a, i)]) == [Placed(a, WindowWith(i))];
    assert Front([Placed(a, WindowWith(i))]) == [];
  }

  lemma {:induction false} ApartSplit(a: string, i: WindowId, b: string, j: WindowId)
    ensures Apart(a, i, b, j) == [SessionWith(a, i)] + [SessionWith(b, j)]
  {
  }

  lemma {:induction false} BothPlaced(a: string, i: WindowId, b: string, j: WindowId)
    requires i != j
    ensures AllWindows(Apart(a, i, b, j)) == [Placed(a, WindowWith(i)), Placed(b, WindowWith(j))]
    ensures Unique([Placed(a, WindowWith(i)), Placed(b, WindowWith(j))])
  {
    hide AllWindows, Count, SessionWith, WindowWith, Apart;
    var x, y := [Placed(a, WindowWith(i))], [Placed(b, WindowWith(j))];
    assert x + y == [Placed(a, WindowWith(i)), Placed(b, WindowWith(j))];
    ApartSplit(a, i, b, j);
    AllWindowsAppend([SessionWith(a, i)], [SessionWith(b, j)]);
    OnePlaced(a, i);
    OnePlaced(b, j);
    forall id: WindowId
      ensures Count(x + y, id) <= 1
    {
      CountAppend(x, y, id);
    }
  }

  lemma {:induction false} LocatedAs(ss: seq<SessionSnap>, ps: seq<Placed>, live: map<WindowId, string>)
    requires AllWindows(ss) == ps && Unique(ps)
    requires forall k :: 0 <= k < |ps| ==> ps[k].window.id in live && live[ps[k].window.id] == ps[k].session
    requires forall id :: id in live ==> exists k :: 0 <= k < |ps| && ps[k].window.id == id
    ensures Locates(ss, live)
  {
    hide AllWindows, Unique;
    forall id | id in live
      ensures id in WindowIds(ss)
    {
      var k :| 0 <= k < |ps| && ps[k].window.id == id;
      assert ps[k] in AllWindows(ss);
    }
  }

  lemma {:induction false} BothLocated(a: string, i: WindowId, b: string, j: WindowId)
    requires i != j
    ensures Locates(Apart(a, i, b, j), map[i := a, j := b])
  {
    var ps := [Placed(a, WindowWith(i)), Placed(b, WindowWith(j))];
    assert ps[0].window.id == i && ps[1].window.id == j;
    hide *;
    BothPlaced(a, i, b, j);
    LocatedAs(Apart(a, i, b, j), ps, map[i := a, j := b]);
  }

  lemma {:induction false} OneLocated(a: string, i: WindowId)
    ensures Locates([SessionWith(a, i)], map[i := a])
  {
    var ps := [Placed(a, WindowWith(i))];
    assert ps[0].window.id == i;
    hide *;
    OnePlaced(a, i);
    OneIsUnique(ps, i);
    LocatedAs([SessionWith(a, i)], ps, map[i := a]);
  }

  lemma {:induction false} OneIsUnique(ps: seq<Placed>, i: WindowId)
    requires forall id: WindowId :: Count(ps, id) == if id == i then 1 else 0
    ensures Unique(ps)
  {
    hide Count;
  }

  lemma {:induction false} LocatedIds(ss: seq<SessionSnap>, live: map<WindowId, string>)
    requires Locates(ss, live)
    ensures WindowIds(ss) == live.Keys && Unique(AllWindows(ss))
  {
  }

  // ---- Steps ---------------------------------------------------------------

  /** A tick records at most one entry per window it saw last time. */
  lemma {:induction false} FewRecords(prev: seq<SessionSnap>, cur: seq<SessionSnap>, file: seq<ClosedEntry>, now: nat)
    ensures |TickRecords(prev, cur, file, now)| <= |AllWindows(prev)|
  {
    FewClosed(prev, WindowIds(cur), Names(cur));
    FewLeft(ClosedAmong(prev, WindowIds(cur), Names(cur)), RecentPairs(file, now));
  }

  lemma {:induction false} FewClosed(ss: seq<SessionSnap>, live: set<WindowId>, names: set<string>)
    ensures |ClosedAmong(ss, live, names)| <= |AllWindows(ss)|
  {
    if ss != [] {
      FewClosed(Front(ss), live, names);
      GoneIsAll(Last(ss).windows, live);
    }
  }

  lemma {:induction false} FewLeft(closed: seq<Closed>, recent: set<(string, WindowId)>)
    ensures |NotRecorded(closed, recent)| <= |closed|
  {
    if closed != [] {
      FewLeft(Front(closed), recent);
    }
  }

  lemma {:induction false} FewLost(w: World, cur: seq<SessionSnap>, now: nat)
    requires |AllWindows(w.prev)| <= CLOSED_MAX
    ensures LostIn(w, Tick(cur, now, true)) == {}
  {
    hide TickRecords, AllWindows;
    FewRecords(w.prev, cur, w.file, now);
    NoEntriesNoWindows();
  }

  /** Before the first tick, and after it. */
  function Start(a: string, c: string, i: WindowId, j: WindowId): World {
    World(map[i := a, j := c], [], [], [], [], {}, {i, j}, {}, {})
  }

  function Seen(a: string, c: string, i: WindowId, j: WindowId): World {
    World(map[i := a, j := c], Apart(a, i, c, j), [], [], [], {i, j}, {i, j}, {}, {})
  }

  lemma {:induction false} FirstTick(a: string, c: string, i: WindowId, j: WindowId)
    requires i != j
    ensures var t := Tick(Apart(a, i, c, j), 0, true);
            && Initial(Start(a, c, i, j)) && Allowed(Start(a, c, i, j), t)
            && Next(Start(a, c, i, j), t) == Seen(a, c, i, j) && Inv(Seen(a, c, i, j))
  {
    var w, cur := Start(a, c, i, j), Apart(a, i, c, j);
    BothLocated(a, i, c, j);
    LocatedIds(cur, w.live);
    NoEntriesNoWindows();
    NothingBefore(cur, [], 0);
    assert w.live.Keys == {i, j};
    assert Initial(w) && Allowed(w, Tick(cur, 0, true));
    assert Next(w, Tick(cur, 0, true)) == Seen(a, c, i, j) by {
      hide Apart, TickRecords, WindowIds, Locates;
    }
    hide *;
    InitialInv(w);
    NextKeeps(w, Tick(cur, 0, true));
  }

  /** Another process closes the first session. */
  function CloseFirst(b: string, c: string, i: WindowId, j: WindowId): Event {
    OutsideArchive(Apart(b, i, c, j), [SessionTarget(b)], Manual, 0, Answers(true, (k: nat) => true, true))
  }

  function FirstEntry(b: string, i: WindowId): ClosedEntry {
    ClosedEntry(1, WholeSession, Manual, 0, SessionWith(b, i))
  }

  function FirstHaul(b: string, c: string, i: WindowId, j: WindowId): Haul {
    Haul([SessionTarget(b)], [Closed(WholeSession, SessionWith(b, i))], [SessionWith(c, j)])
  }

  lemma {:induction false} CloseFirstIs(b: string, c: string, i: WindowId, j: WindowId)
    ensures var e, h := CloseFirst(b, c, i, j), FirstHaul(b, c, i, j);
            && e.OutsideArchive? && e.snap == Apart(b, i, c, j) && e.reason == Manual && e.now == 0
            && h.targets == [SessionTarget(b)] && |h.entries| == 1 && FirstEntry(b, i).closedAt == 0
  {
    hide Apart, SessionWith;
  }

  lemma {:induction false} FirstTaken(b: string, c: string, i: WindowId, j: WindowId)
    ensures TakeAll(Apart(b, i, c, j), [SessionTarget(b)]) == FirstHaul(b, c, i, j)
  {
    var ss := Apart(b, i, c, j);
    assert Front([SessionTarget(b)]) == [];
    assert TakeAll(ss, []) == Haul([], [], ss);
    assert TakeTarget(ss, SessionTarget(b)).rest == [ss[1]];
  }

  lemma {:induction false} OneChosen<T>(x: T, closes: nat -> bool)
    requires closes(0)
    ensures Chosen([x], closes, 1) == [x]
  {
    assert Chosen([x], closes, 0) == [];
  }

  lemma {:induction false} OneStamped(c: Closed, closes: nat -> bool)
    requires closes(0)
    ensures StampedClosed([c], Manual, 0, 1, closes, 1) == [ClosedEntry(1, c.kind, Manual, 0, c.session)]
    ensures Stamped([c], Manual, 0, 0) == [ClosedEntry(1, c.kind, Manual, 0, c.session)]
  {
    assert StampedClosed([c], Manual, 0, 1, closes, 0) == [];
  }

  lemma {:induction false} OneOnFile(h: Haul, a: Answers, entry: ClosedEntry)
    requires |h.targets| == |h.entries| == 1 && a.saves && a.resaves
    requires StampedClosed(h.entries, Manual, 0, 1, a.closes, 1) == [entry]
    ensures FileAfter([], Steps(h, [], Manual, 0, a)) == [entry]
  {
    hide Steps, FileAfter, StampedClosed, Retain, MaxId, IdsWhere, Suffix, Recorded;
    EmptyHistory();
    FileAtEnd(h, [], Manual, 0, a);
    OnlyAdded(FileAfter([], Steps(h, [], Manual, 0, a)), [entry]);
  }

  lemma {:induction false} EmptyHistory()
    ensures MaxId([]) == 0 && Retain([], 0) == []
  {
  }

  lemma {:induction false} OnlyAdded(end: seq<ClosedEntry>, added: seq<ClosedEntry>)
    requires |added| <= |end| && end[|end| - |added|..] == added && Suffix(end[..|end| - |added|], [])
    ensures end == added
  {
  }

  /** What is closed and what is recorded when the one target found is closed. */
  lemma {:induction false} OneHauled(h: Haul, a: Answers, x: Target, c: Closed)
    requires h.targets == [x] && h.entries == [c] && a.saves && a.resaves && a.closes(0)
    ensures var entry := ClosedEntry(1, c.kind, Manual, 0, c.session);
            && Logged(h, a) == [c] && Struck(h, a) == [x] && Cleans(h, a) && MaxId([]) == 0
            && StampedLogged(h, [], Manual, 0, a) == [entry] && Stamped(h.entries, Manual, 0, 0) == [entry]
            && FileAfter([], Steps(h, [], Manual, 0, a)) == [entry]
  {
    hide Steps, FileAfter, Chosen, StampedClosed, Stamped;
    OneChosen(c, a.closes);
    OneChosen(x, a.closes);
    OneStamped(c, a.closes);
    EmptyHistory();
    OneOnFile(h, a, ClosedEntry(1, c.kind, Manual, 0, c.session));
  }

  lemma {:induction false} FirstHauled(b: string, c: string, i: WindowId, j: WindowId)
    ensures var e, h := CloseFirst(b, c, i, j), FirstHaul(b, c, i, j);
            && TakeAll(e.snap, e.targets) == h && Logged(h, e.answers) == h.entries && Struck(h, e.answers) == h.targets
            && Cleans(h, e.answers) && MaxId([]) == 0
            && StampedLogged(h, [], Manual, 0, e.answers) == [FirstEntry(b, i)]
            && Stamped(h.entries, Manual, 0, 0) == [FirstEntry(b, i)]
            && FileAfter([], Steps(h, [], Manual, 0, e.answers)) == [FirstEntry(b, i)]
  {
    var e, h := CloseFirst(b, c, i, j), FirstHaul(b, c, i, j);
    hide Apart, SessionWith, TakeAll, Steps, FileAfter, Logged, StampedLogged, Stamped, Struck, Cleans, MaxId;
    FirstTaken(b, c, i, j);
    OneHauled(h, e.answers, h.targets[0], h.entries[0]);
  }

  lemma {:induction false} FirstWindows(b: string, c: string, i: WindowId, j: WindowId)
    ensures var ss := Sessions(FirstHaul(b, c, i, j).entries);
            WindowIds(ss) == {i} && AllWindows(ss) == [Placed(b, WindowWith(i))]
  {
    assert Sessions(FirstHaul(b, c, i, j).entries) == [SessionWith(b, i)];
    hide SessionWith, WindowWith, AllWindows, Locates, WindowIds;
    OnePlaced(b, i);
    OneLocated(b, i);
    LocatedIds([SessionWith(b, i)], map[i := b]);
  }

  lemma {:induction false} NextOutside(w: World, e: Event, h: Haul)
    requires e.OutsideArchive? && TakeAll(e.snap, e.targets) == h
    ensures var n := Next(w, e);
            n == w.(live := w.live - Killed(w.live, Struck(h, e.answers)),
                    file := FileAfter(w.file, Steps(h, w.file, e.reason, e.now, e.answers)),
                    log := w.log + Logged(h, e.answers),
                    recent := w.recent + StampedLogged(h, w.file, e.reason, e.now, e.answers),
                    archived := w.archived + WindowIds(Sessions(Logged(h, e.answers))))
    ensures Adds(w, e) == Logged(h, e.answers)
  {
    hide TakeAll, Killed, Struck, FileAfter, Steps, Logged, StampedLogged, WindowIds, Sessions;
    assert w.lost + {} == w.lost;
  }

  /** The world once the first session was closed, its entry the only one on file. */
  lemma {:induction false} FirstClosed(w: World, b: string, c: string, i: WindowId, j: WindowId)
    requires w.recent == [] && w.file == [] && w.live == map[i := b, j := c] && i != j && b != c
    ensures var e, entry := CloseFirst(b, c, i, j), FirstEntry(b, i);
            && Next(w, e) == w.(live := map[j := c], file := [entry], recent := [entry],
                                log := w.log + FirstHaul(b, c, i, j).entries, archived := w.archived + {i})
            && Adds(w, e) == FirstHaul(b, c, i, j).entries
            && AllWindows(Sessions(Adds(w, e))) == [Placed(b, WindowWith(i))]
  {
    hide *;
    var e, h := CloseFirst(b, c, i, j), FirstHaul(b, c, i, j);
    CloseFirstIs(b, c, i, j);
    FirstHauled(b, c, i, j);
    FirstWindows(b, c, i, j);
    NextOutside(w, e, h);
    KilledFirst(b, c, i, j);
    assert [] + [FirstEntry(b, i)] == [FirstEntry(b, i)];
    assert w.live - {i} == map[j := c];
  }

  lemma {:induction false} KilledFirst(b: string, c: string, i: WindowId, j: WindowId)
    requires i != j && b != c
    ensures Killed(map[i := b, j := c], [SessionTarget(b)]) == {i}
  {
    var live := map[i := b, j := c];
    forall id: WindowId
      ensures id in Killed(live, [SessionTarget(b)]) <==> id == i
    {
    }
  }

  /** What the step asks of the world but for where the windows were last seen. */
  ghost predicate ClosableBut(w: World, e: Event)
    requires e.OutsideArchive?
  {
    var h := TakeAll(e.snap, e.targets);
    && Locates(e.snap, w.live) && Cleans(h, e.answers)
    && Fits(w.recent + Stamped(h.entries, e.reason, e.now, MaxId(w.file)), e.now)
  }

  lemma {:induction false} FirstClosable(w: World, b: string, c: string, i: WindowId, j: WindowId)
    requires w.recent == [] && w.file == [] && w.live == map[i := b, j := c] && i != j
    ensures var e := CloseFirst(b, c, i, j);
            && ClosableBut(w, e) && Cleans(TakeAll(e.snap, e.targets), e.answers)
            && |TakeAll(e.snap, e.targets).entries| == 1
  {
    var e := CloseFirst(b, c, i, j);
    hide *;
    CloseFirstIs(b, c, i, j);
    FirstHauled(b, c, i, j);
    BothLocated(b, i, c, j);
    assert [] + [FirstEntry(b, i)] == [FirstEntry(b, i)];
    OneFits(FirstEntry(b, i));
    IsClosableBut(w, e);
  }

  lemma {:induction false} OneFits(entry: ClosedEntry)
    requires entry.closedAt == 0
    ensures Fits([entry], 0)
  {
  }

  lemma {:induction false} IsClosableBut(w: World, e: Event)
    requires e.OutsideArchive? && Locates(e.snap, w.live) && Cleans(TakeAll(e.snap, e.targets), e.answers)
    requires Fits(w.recent + Stamped(TakeAll(e.snap, e.targets).entries, e.reason, e.now, MaxId(w.file)), e.now)
    ensures ClosableBut(w, e)
  {
    hide Locates, Cleans, TakeAll, MaxId, Fits;
  }

  // ---- Runs ----------------------------------------------------------------

  /** Every step but this one is allowed. */
  ghost predicate AllowedBut(w: World, events: seq<Event>, but: nat) {
    forall k: nat :: k < |events| && k != but ==> Allowed(Run(w, events[..k]), events[k])
  }

  lemma {:induction false} NoEvents(w: World)
    ensures Run(w, []) == w
  {
  }

  lemma {:induction false} RunStep(w: World, events: seq<Event>, k: nat)
    requires k < |events|
    ensures Run(w, events[..k + 1]) == Next(Run(w, events[..k]), events[k])
  {
    assert Front(events[..k + 1]) == events[..k] && Last(events[..k + 1]) == events[k];
  }

  // ---- A window moved and then closed elsewhere ----------------------------

  /** Window `i` is seen in session `a`, moved to `b`, closed there by another
      process and missed by the next tick. */
  function MoveRun(a: string, b: string, c: string, i: WindowId, j: WindowId): seq<Event> {
    [Tick(Apart(a, i, c, j), 0, true), Change(map[i := b, j := c]), CloseFirst(b, c, i, j),
     Tick([SessionWith(c, j)], 0, true)]
  }

  lemma {:induction false} NotThere(w: World, entries: seq<Closed>, p: Placed, q: Placed)
    requires p in AllWindows(w.prev) && q in AllWindows(Sessions(entries))
    requires p.window.id == q.window.id && p.session != q.session
    ensures !ActsOn(w, entries)
  {
  }

  /** The window moves to another session. */
  function Moved(a: string, b: string, c: string, i: WindowId, j: WindowId): World {
    Seen(a, c, i, j).(live := map[i := b, j := c])
  }

  lemma {:induction false} Moves(a: string, b: string, c: string, i: WindowId, j: WindowId)
    requires i != j
    ensures var w, e := Seen(a, c, i, j), Change(map[i := b, j := c]);
            Allowed(w, e) && Next(w, e) == Moved(a, b, c, i, j) && Inv(Moved(a, b, c, i, j))
  {
    var w, e := Seen(a, c, i, j), Change(map[i := b, j := c]);
    hide Apart;
    assert w.used + map[i := b, j := c].Keys == w.used;
    assert Allowed(w, e) && Next(w, e) == Moved(a, b, c, i, j);
    hide *;
    FirstTick(a, c, i, j);
    NextKeeps(w, e);
  }

  lemma {:induction false} SeenIs(a: string, b: string, c: string, i: WindowId, j: WindowId)
    ensures var w := Moved(a, b, c, i, j);
            && w.prev == Apart(a, i, c, j) && w.recent == [] && w.file == [] && w.live == map[i := b, j := c]
            && i in w.live
  {
    hide Apart;
  }

  lemma {:induction false} MoveSteps(a: string, b: string, c: string, i: WindowId, j: WindowId)
    requires i != j && a != b && b != c
    ensures var w, e, t := Moved(a, b, c, i, j), CloseFirst(b, c, i, j), Tick([SessionWith(c, j)], 0, true);
            && ClosableBut(w, e) && !ActsOn(w, Adds(w, e))
            && Allowed(Next(w, e), t) && Times(Next(Next(w, e), t), i) == 2
  {
    var w, e, t := Moved(a, b, c, i, j), CloseFirst(b, c, i, j), Tick([SessionWith(c, j)], 0, true);
    var p, q := Placed(a, WindowWith(i)), Placed(b, WindowWith(i));
    assert p.window.id == i && q.window.id == i;
    hide *;
    SeenIs(a, b, c, i, j);
    CloseFirstIs(b, c, i, j);
    Moves(a, b, c, i, j);
    FirstClosable(w, b, c, i, j);
    FirstClosed(w, b, c, i, j);
    BothLocated(b, i, c, j);
    LocatedIds(e.snap, w.live);
    OneLocated(c, j);
    LocatedIds(t.cur, map[j := c]);
    BothPlaced(a, i, c, j);
    FewLost(Next(w, e), t.cur, t.now);
    TickAllowed(Next(w, e), t.cur, FirstEntry(b, i));
    NotThere(w, Adds(w, e), p, q);
    MovedIsRecordedTwice(w, e, t, p, q);
  }

  lemma {:induction false} TickAllowed(w: World, cur: seq<SessionSnap>, entry: ClosedEntry)
    requires cur != [] && Locates(cur, w.live) && w.recent == [entry] && entry.closedAt == 0
    ensures Allowed(w, Tick(cur, 0, true))
  {
    hide Locates;
  }

  /** The one thing this run does that the theorem rules out is to archive a
      window the tracker last saw in another session. */
  lemma {:induction false} MovedRunRecordsTwice(a: string, b: string, c: string, i: WindowId, j: WindowId)
    requires i != j && a != b && a != c && b != c
    ensures var w0, es := Start(a, c, i, j), MoveRun(a, b, c, i, j);
            var w2 := Run(w0, es[..2]);
            && Initial(w0) && AllowedBut(w0, es, 2) && Times(Run(w0, es), i) == 2
            && ClosableBut(w2, es[2]) && !ActsOn(w2, Adds(w2, es[2]))
  {
    var w0, es := Start(a, c, i, j), MoveRun(a, b, c, i, j);
    hide Apart, SessionWith, CloseFirst, Run, Start, Next, Allowed, Initial, Times, ClosableBut, ActsOn, AllowedBut,
         Adds;
    assert es[0] == Tick(Apart(a, i, c, j), 0, true) && es[1] == Change(map[i := b, j := c]) && |es| == 4;
    assert es[2] == CloseFirst(b, c, i, j) && es[3] == Tick([SessionWith(c, j)], 0, true);
    assert es[..0] == [] && es[..4] == es;
    hide *;
    NoEvents(w0);
    FirstTick(a, c, i, j);
    Moves(a, b, c, i, j);
    MoveSteps(a, b, c, i, j);
    RunStep(w0, es, 0);
    RunStep(w0, es, 1);
    RunStep(w0, es, 2);
    RunStep(w0, es, 3);
    AllowedButThird(w0, es);
  }

  // ---- An entry reopened too soon ------------------------------------------

  /** Window `i` is seen in session `a`, closed there by another process, brought
      back as window `k` and missed by the next tick. */
  function ReopenRun(a: string, c: string, i: WindowId, j: WindowId, k: WindowId): seq<Event> {
    [Tick(Apart(a, i, c, j), 0, true), CloseFirst(a, c, i, j), Reopen(1), Change(map[k := a, j := c]),
     Tick(Apart(a, k, c, j), 0, true)]
  }

  lemma {:induction false} ActsWhereSeen(w: World, entries: seq<Closed>, p: Placed)
    requires AllWindows(Sessions(entries)) == [p] && p in AllWindows(w.prev) && Unique(AllWindows(w.prev))
    requires p.window.id in w.live && w.live[p.window.id] == p.session
    ensures ActsOn(w, entries)
  {
    hide Unique, AllWindows, Sessions;
    forall q | q in AllWindows(w.prev) && q.window.id == p.window.id
      ensures q.session == p.session
    {
      UniquePlace(AllWindows(w.prev), p, q);
    }
  }

  lemma {:induction false} ClosableHere(w: World, e: Event)
    requires e.OutsideArchive? && ClosableBut(w, e) && ActsOn(w, Adds(w, e))
    ensures Allowed(w, e)
  {
    hide Locates, Cleans, Fits, ActsOn, TakeAll, Logged, MaxId;
  }

  /** The world once window `i` was closed. */
  function FirstGone(a: string, c: string, i: WindowId, j: WindowId): World {
    Seen(a, c, i, j).(live := map[j := c], file := [FirstEntry(a, i)], recent := [FirstEntry(a, i)],
                      log := FirstHaul(a, c, i, j).entries, archived := {i})
  }

  /** Its entry reopened, and window `k` there instead. */
  function FirstBack(a: string, c: string, i: WindowId, j: WindowId, k: WindowId): World {
    FirstGone(a, c, i, j).(file := [], live := map[k := a, j := c], used := {i, j, k})
  }

  lemma {:induction false} FirstCloses(a: string, c: string, i: WindowId, j: WindowId)
    requires i != j && a != c
    ensures var w, e := Seen(a, c, i, j), CloseFirst(a, c, i, j);
            && Allowed(w, e) && Next(w, e) == FirstGone(a, c, i, j)
            && Times(FirstGone(a, c, i, j), i) == 1
  {
    var w, e, p := Seen(a, c, i, j), CloseFirst(a, c, i, j), Placed(a, WindowWith(i));
    var n := FirstGone(a, c, i, j);
    hide *;
    SeenParts(a, c, i, j);
    CloseFirstIs(a, c, i, j);
    BothPlaced(a, i, c, j);
    FirstClosable(w, a, c, i, j);
    FirstClosed(w, a, c, i, j);
    ActsWhereSeen(w, Adds(w, e), p);
    ClosableHere(w, e);
    OnePlaced(a, i);
    FirstGoneIs(w, n, a, c, i, j);
    TimesAfter(w, n, FirstHaul(a, c, i, j).entries, i);
  }

  lemma {:induction false} SeenParts(a: string, c: string, i: WindowId, j: WindowId)
    requires i != j
    ensures var w := Seen(a, c, i, j);
            && w.prev == Apart(a, i, c, j) && w.recent == [] && w.file == [] && w.log == []
            && w.live == map[i := a, j := c] && i in w.live && w.live[i] == a && WindowWith(i).id == i
            && Times(w, i) == 0 && w.archived == {}
  {
    NothingCounts(i);
    hide Apart;
  }

  lemma {:induction false} FirstGoneIs(w: World, n: World, a: string, c: string, i: WindowId, j: WindowId)
    requires w == Seen(a, c, i, j) && n == FirstGone(a, c, i, j)
    ensures w.log + FirstHaul(a, c, i, j).entries == n.log
    ensures n == w.(live := map[j := c], file := [FirstEntry(a, i)], recent := [FirstEntry(a, i)],
                    log := w.log + FirstHaul(a, c, i, j).entries, archived := w.archived + {i})
  {
    hide Apart, SessionWith;
  }

  lemma {:induction false} FirstReopens(a: string, c: string, i: WindowId, j: WindowId, k: WindowId)
    requires i != j && k != i && k != j
    ensures var w, live := FirstGone(a, c, i, j), map[k := a, j := c];
            var r := Next(w, Reopen(1));
            && !Allowed(w, Reopen(1)) && OnlyIn(w.file, 1, i)
            && Allowed(r, Change(live)) && Next(r, Change(live)) == FirstBack(a, c, i, j, k)
  {
    var w, live := FirstGone(a, c, i, j), map[k := a, j := c];
    var entry := FirstEntry(a, i);
    hide Apart, SessionWith, FirstHaul;
    assert w.file == [entry] && w.recent == [entry] && entry.id == 1 && entry in w.recent;
    assert EntryAt(w.file, 1) == 0 && Reopened(w.file, 1) == [];
    assert w.used + live.Keys == {i, j, k};
  }

  lemma {:induction false} FirstBackParts(a: string, c: string, i: WindowId, j: WindowId, k: WindowId)
    ensures var w, b := FirstGone(a, c, i, j), FirstBack(a, c, i, j, k);
            && w.prev == b.prev == Apart(a, i, c, j) && b.live == map[k := a, j := c] && b.recent == [FirstEntry(a, i)]
  {
    hide Apart, SessionWith, FirstHaul;
  }

  lemma {:induction false} ReopenSteps(a: string, c: string, i: WindowId, j: WindowId, k: WindowId)
    requires i != j && k != i && k != j && a != c
    ensures var b, t := FirstBack(a, c, i, j, k), Tick(Apart(a, k, c, j), 0, true);
            Allowed(b, t) && Times(Next(b, t), i) == 2
  {
    var w, b, live := FirstGone(a, c, i, j), FirstBack(a, c, i, j, k), map[k := a, j := c];
    var t, p := Tick(Apart(a, k, c, j), 0, true), Placed(a, WindowWith(i));
    assert WindowWith(i).id == i && t.cur != [] && i !in live.Keys && FirstEntry(a, i).closedAt == 0;
    hide *;
    FirstCloses(a, c, i, j);
    FirstReopens(a, c, i, j, k);
    FirstBackParts(a, c, i, j, k);
    BothPlaced(a, i, c, j);
    BothLocated(a, k, c, j);
    LocatedIds(t.cur, live);
    FewLost(b, t.cur, 0);
    TickAllowed(b, t.cur, FirstEntry(a, i));
    ReopenedTooSoon(w, 1, live, t, p);
  }

  /** The one thing this run does that the theorem rules out is to reopen an entry
      the next tick has to find. */
  lemma {:induction false} ReopenRunRecordsTwice(a: string, c: string, i: WindowId, j: WindowId, k: WindowId)
    requires i != j && k != i && k != j && a != c
    ensures var w0, es := Start(a, c, i, j), ReopenRun(a, c, i, j, k);
            && Initial(w0) && AllowedBut(w0, es, 2) && Times(Run(w0, es), i) == 2
            && es[2] == Reopen(1) && !Allowed(Run(w0, es[..2]), es[2])
  {
    var w0, es := Start(a, c, i, j), ReopenRun(a, c, i, j, k);
    hide Apart, SessionWith, CloseFirst, Run, Start, Next, Allowed, Initial, Times, AllowedBut;
    assert es[0] == Tick(Apart(a, i, c, j), 0, true) && es[1] == CloseFirst(a, c, i, j) && es[2] == Reopen(1);
    assert es[3] == Change(map[k := a, j := c]) && es[4] == Tick(Apart(a, k, c, j), 0, true) && |es| == 5;
    assert es[..0] == [] && es[..5] == es;
    hide *;
    NoEvents(w0);
    FirstTick(a, c, i, j);
    FirstCloses(a, c, i, j);
    FirstReopens(a, c, i, j, k);
    ReopenSteps(a, c, i, j, k);
    RunStep(w0, es, 0);
    RunStep(w0, es, 1);
    RunStep(w0, es, 2);
    RunStep(w0, es, 3);
    RunStep(w0, es, 4);
    AllowedButThird(w0, es);
  }

  lemma {:induction false} AllowedButThird(w: World, events: seq<Event>)
    requires 4 <= |events| <= 5 && Allowed(Run(w, events[..0]), events[0]) && Allowed(Run(w, events[..1]), events[1])
    requires Allowed(Run(w, events[..3]), events[3])
    requires |events| == 5 ==> Allowed(Run(w, events[..4]), events[4])
    ensures AllowedBut(w, events, 2)
  {
    hide Run, Allowed;
  }
}
