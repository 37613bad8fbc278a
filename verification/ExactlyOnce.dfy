/** Runs of ticks, skipped or not, closes on behalf of the daemon, archives made
    by other processes, entries reopened and changes made in tmux
    (src/snapshot.rs, src/restore.rs): which of the windows seen are recorded,
    and that none is recorded twice. */
module ExactlyOnce {
  import opened Inventory
  import opened Snapshots
  import opened ClosedHistory
  import opened Trackers
  import opened ArchiveClose

  // ---- Counting windows ----------------------------------------------------

  function Count(ps: seq<Placed>, id: WindowId): nat {
    if ps == [] then 0 else Count(Front(ps), id) + if Last(ps).window.id == id then 1 else 0
  }

  ghost predicate Unique(ps: seq<Placed>) {
    forall id: WindowId :: Count(ps, id) <= 1
  }

  lemma {:induction false} CountAppend(a: seq<Placed>, b: seq<Placed>, id: WindowId)
    ensures Count(a + b, id) == Count(a, id) + Count(b, id)
  {
    if b == [] {
      assert a + b == a;
    } else {
      CountAppend(a, Front(b), id);
      assert Front(a + b) == a + Front(b);
    }
  }

  lemma {:induction false} CountPositive(ps: seq<Placed>, id: WindowId)
    ensures Count(ps, id) > 0 <==> exists p :: p in ps && p.window.id == id
  {
    if ps != [] {
      CountPositive(Front(ps), id);
      FrontLast(ps);
    }
  }

  /** The placed window with this id; there is at most one in a unique list. */
  lemma {:induction false} UniquePlace(ps: seq<Placed>, p: Placed, q: Placed)
    requires Unique(ps) && p in ps && q in ps && p.window.id == q.window.id
    ensures p == q
  {
    if Last(ps) != p || Last(ps) != q {
      FrontLast(ps);
      var id := p.window.id;
      CountPositive(Front(ps), id);
      assert Count(ps, id) <= 1;
      forall i: WindowId
        ensures Count(Front(ps), i) <= 1
      {
        assert Count(ps, i) <= 1;
      }
      if Last(ps).window.id != id {
        UniquePlace(Front(ps), p, q);
      }
    }
  }

  lemma {:induction false} CountDead(ps: seq<Placed>, live: set<WindowId>, id: WindowId)
    ensures Count(Dead(ps, live), id) == if id in live then 0 else Count(ps, id)
  {
    if ps != [] {
      CountDead(Front(ps), live, id);
      var d := Dead(Front(ps), live) + [Last(ps)];
      assert Front(d) == Dead(Front(ps), live);
    }
  }

  lemma {:induction false} CountOfMultiset(a: seq<Placed>, b: seq<Placed>, id: WindowId)
    requires multiset(a) == multiset(b)
    ensures Count(a, id) == Count(b, id)
    decreases |a|
  {
    if a == [] {
      assert |multiset(b)| == |b|;
      assert b == [];
    } else {
      var p := Last(a);
      assert a == Front(a) + [p];
      hide *;
      assert p in multiset(a);
      var i := SplitAt(b, p);
      var rest := b[..i] + b[i + 1..];
      assert multiset(Front(a)) == multiset(a) - multiset{p};
      CountOfMultiset(Front(a), rest, id);
      CountAppend(Front(a), [p], id);
      CountAppend(b[..i], b[i + 1..], id);
      CountAppend(b[..i], [p] + b[i + 1..], id);
      CountAppend([p], b[i + 1..], id);
    }
  }

  lemma {:induction false} SplitAt<T>(s: seq<T>, x: T) returns (i: nat)
    requires x in multiset(s)
    ensures i < |s| && s == s[..i] + ([x] + s[i + 1..])
    ensures multiset(s[..i] + s[i + 1..]) == multiset(s) - multiset{x}
  {
    i :| i < |s| && s[i] == x;
    assert s == s[..i] + ([x] + s[i + 1..]);
  }

  // ---- What a tick records -------------------------------------------------

  function Unrecent(ps: seq<Placed>, recent: set<(string, WindowId)>): seq<Placed> {
    if ps == [] then [] else
    if (Last(ps).session, Last(ps).window.id) in recent then Unrecent(Front(ps), recent)
    else Unrecent(Front(ps), recent) + [Last(ps)]
  }

  lemma {:induction false} UnrecentAppend(a: seq<Placed>, b: seq<Placed>, recent: set<(string, WindowId)>)
    ensures Unrecent(a + b, recent) == Unrecent(a, recent) + Unrecent(b, recent)
  {
    if b == [] {
      assert a + b == a;
    } else {
      UnrecentAppend(a, Front(b), recent);
      assert Front(a + b) == a + Front(b);
    }
  }

  lemma {:induction false} UnrecentPlace(session: string, ws: seq<WindowSnap>, recent: set<(string, WindowId)>)
    ensures Unrecent(Place(session, ws), recent) == Place(session, Unarchived(session, ws, recent))
  {
    if ws != [] {
      UnrecentPlace(session, Front(ws), recent);
      assert Front(Place(session, ws)) == Place(session, Front(ws));
      assert Front(Unarchived(session, Front(ws), recent) + [Last(ws)]) == Unarchived(session, Front(ws), recent);
    }
  }

  lemma {:induction false} LeftWindows(c: Closed, recent: set<(string, WindowId)>)
    ensures var ws := Unarchived(c.session.name, c.session.windows, recent);
            AllWindows(Sessions(if ws == [] then [] else [c.(session := c.session.(windows := ws))]))
            == Unrecent(AllWindows([c.session]), recent)
  {
    var ws := Unarchived(c.session.name, c.session.windows, recent);
    AllWindowsOne(c.session);
    UnrecentPlace(c.session.name, c.session.windows, recent);
    if ws != [] {
      var d := c.(session := c.session.(windows := ws));
      assert Sessions([d]) == [d.session];
      AllWindowsOne(d.session);
    }
  }

  lemma {:induction false} NotRecordedWindows(closed: seq<Closed>, recent: set<(string, WindowId)>)
    ensures AllWindows(Sessions(NotRecorded(closed, recent))) == Unrecent(AllWindows(Sessions(closed)), recent)
  {
    if closed == [] {
      assert AllWindows(Sessions([])) == [];
    } else {
      var c, init := Last(closed), NotRecorded(Front(closed), recent);
      var ws := Unarchived(c.session.name, c.session.windows, recent);
      var more := if ws == [] then [] else [c.(session := c.session.(windows := ws))];
      assert NotRecorded(closed, recent) == init + more;
      assert Sessions(closed) == Sessions(Front(closed)) + [c.session];
      hide *;
      NotRecordedWindows(Front(closed), recent);
      LeftWindows(c, recent);
      SessionsAppend(init, more);
      AllWindowsAppend(Sessions(init), Sessions(more));
      AllWindowsAppend(Sessions(Front(closed)), [c.session]);
      UnrecentAppend(AllWindows(Sessions(Front(closed))), AllWindows([c.session]), recent);
    }
  }

  /** A tick records the windows gone since the last one, in order, but those
      archived by another process in the meantime. */
  lemma {:induction false} TickRecordsWindows(prev: seq<SessionSnap>, cur: seq<SessionSnap>, file: seq<ClosedEntry>,
        now: nat)
    ensures AllWindows(Sessions(TickRecords(prev, cur, file, now)))
            == Unrecent(Dead(AllWindows(prev), WindowIds(cur)), RecentPairs(file, now))
  {
    ClosedAmongWindows(prev, WindowIds(cur), Names(cur));
    NotRecordedWindows(ClosedAmong(prev, WindowIds(cur), Names(cur)), RecentPairs(file, now));
  }

  lemma {:induction false} CountUnrecent(ps: seq<Placed>, recent: set<(string, WindowId)>, p: Placed)
    requires Unique(ps) && p in ps
    ensures Count(Unrecent(ps, recent), p.window.id) == if (p.session, p.window.id) in recent then 0 else 1
  {
    var id, init := p.window.id, Front(ps);
    FrontLast(ps);
    CountPositive(init, id);
    forall i: WindowId
      ensures Count(init, i) <= 1
    {
      assert Count(ps, i) <= 1;
    }
    assert Count(ps, id) <= 1;
    assert Front(Unrecent(init, recent) + [Last(ps)]) == Unrecent(init, recent);
    if Last(ps).window.id == id {
      assert Last(ps) == p;
      CountUnrecentZero(init, recent, id);
    } else {
      CountUnrecent(init, recent, p);
    }
  }

  lemma {:induction false} CountUnrecentZero(ps: seq<Placed>, recent: set<(string, WindowId)>, id: WindowId)
    requires Count(ps, id) == 0
    ensures Count(Unrecent(ps, recent), id) == 0
  {
    if ps != [] {
      CountUnrecentZero(Front(ps), recent, id);
      assert Front(Unrecent(Front(ps), recent) + [Last(ps)]) == Unrecent(Front(ps), recent);
    }
  }

  // ---- Runs ----------------------------------------------------------------

  /** The tmux server (each window and its session), the tracker's previous
      snapshot, the history file, everything ever put in it, what was put in it
      since another process first archived after the last tick, the windows seen in ticks or used at all, those the
      tracker lost sight of before it could record them, and those a close
      archived. */
  datatype World = World(
    live: map<WindowId, string>,
    prev: seq<SessionSnap>,
    file: seq<ClosedEntry>,
    log: seq<Closed>,
    recent: seq<ClosedEntry>,
    seen: set<WindowId>,
    used: set<WindowId>,
    lost: set<WindowId>,
    archived: set<WindowId>)

  /** A tick is skipped without panes or during a restore; `saves` tells whether
      it can write the history. Reopening takes an entry out of the history; the
      windows it creates are a change of their own. */
  datatype Event =
    | Change(live: map<WindowId, string>)
    | Tick(cur: seq<SessionSnap>, now: nat, saves: bool)
    | Skipped
    | DaemonClose(targets: seq<Target>, reason: CloseReason, now: nat, answers: Answers)
    | OutsideArchive(snap: seq<SessionSnap>, targets: seq<Target>, reason: CloseReason, now: nat, answers: Answers)
    | Reopen(id: nat)

  function Times(w: World, id: WindowId): nat {
    Count(AllWindows(Sessions(w.log)), id)
  }

  /** A snapshot of the server as it is, each window in one session. */
  ghost predicate Locates(ss: seq<SessionSnap>, live: map<WindowId, string>) {
    && WindowIds(ss) == live.Keys && Unique(AllWindows(ss))
    && forall p :: p in AllWindows(ss) ==> p.window.id in live && live[p.window.id] == p.session
  }

  // ---- What a tick or a close puts in the history --------------------------

  /** Of what a tick records, the part its save keeps: the last hundred. */
  function Kept(left: seq<Closed>, saves: bool): seq<Closed> {
    left[|Dropped(left, saves)|..]
  }

  function Dropped(left: seq<Closed>, saves: bool): (d: seq<Closed>)
    ensures d <= left
  {
    if !saves then left else if |left| <= CLOSED_MAX then [] else left[..|left| - CLOSED_MAX]
  }

  /** The elements of the targets tmux closed. */
  function Chosen<T>(s: seq<T>, closes: nat -> bool, n: nat): seq<T>
    requires n <= |s|
  {
    if n == 0 then [] else Chosen(s, closes, n - 1) + if closes(n - 1) then [s[n - 1]] else []
  }

  function Not(closes: nat -> bool): nat -> bool {
    (i: nat) => !closes(i)
  }

  /** What stays in the history after a close: the entries of the closed targets. */
  function Logged(h: Haul, a: Answers): seq<Closed> {
    if a.saves then Chosen(h.entries, a.closes, |h.entries|) else []
  }

  function StampedLogged(h: Haul, file: seq<ClosedEntry>, reason: CloseReason, now: nat, a: Answers):
    seq<ClosedEntry>
  {
    if a.saves then StampedClosed(h.entries, reason, now, MaxId(file) + 1, a.closes, |h.entries|) else []
  }

  /** What was taken out of the snapshot and yet not closed. */
  function Unclosed(h: Haul, a: Answers): seq<Closed> {
    if a.saves then Chosen(h.entries, Not(a.closes), |h.entries|) else h.entries
  }

  function Struck(h: Haul, a: Answers): seq<Target> {
    if a.saves then Chosen(h.targets, a.closes, |h.targets|) else []
  }

  /** The windows tmux destroys when closing the targets. */
  function Killed(live: map<WindowId, string>, targets: seq<Target>): set<WindowId> {
    set id | id in live &&
      (SessionTarget(live[id]) in targets || exists t :: t in targets && t.WindowTarget? && t.windowId == id)
  }

  /** Closing what `h` found; the snapshot left, what is lost by it and what the
      next tick has to find depend on who closes. */
  function Archive(w: World, h: Haul, reason: CloseReason, now: nat, a: Answers, prev: seq<SessionSnap>,
        lost: set<WindowId>, recent: seq<ClosedEntry>): World
  {
    World(w.live - Killed(w.live, Struck(h, a)), prev, FileAfter(w.file, Steps(h, w.file, reason, now, a)),
          w.log + Logged(h, a), recent, w.seen, w.used, w.lost + lost,
          w.archived + WindowIds(Sessions(Logged(h, a))))
  }

  /** The windows this step makes the tracker lose sight of. */
  function LostIn(w: World, e: Event): set<WindowId> {
    match e
    case Tick(cur, now, saves) => WindowIds(Sessions(Dropped(TickRecords(w.prev, cur, w.file, now), saves)))
    case Skipped => WindowIds(w.prev)
    case DaemonClose(targets, reason, now, a) => WindowIds(Sessions(Unclosed(TakeAll(w.prev, targets), a)))
    case _ => {}
  }

  function Next(w: World, e: Event): World {
    match e
    case Change(live) => w.(live := live, used := w.used + live.Keys)
    case Tick(cur, now, saves) =>
      var left := TickRecords(w.prev, cur, w.file, now);
      w.(prev := cur, file := if saves then AfterRecording(w.file, left, now) else w.file,
         log := w.log + Kept(left, saves), recent := [], seen := w.seen + WindowIds(cur),
         lost := w.lost - WindowIds(cur) + LostIn(w, e))
    case Skipped => w.(prev := [], recent := [], lost := w.lost + LostIn(w, e))
    case DaemonClose(targets, reason, now, a) =>
      var h := TakeAll(w.prev, targets);
      var recent := if w.recent == [] then [] else w.recent + StampedLogged(h, w.file, reason, now, a);
      Archive(w, h, reason, now, a, h.rest, LostIn(w, e), recent)
    case OutsideArchive(snap, targets, reason, now, a) =>
      var h := TakeAll(snap, targets);
      Archive(w, h, reason, now, a, w.prev, {}, w.recent + StampedLogged(h, w.file, reason, now, a))
    case Reopen(id) => w.(file := Reopened(w.file, id))
  }

  /** What must stay in the history file fits in it: at most a hundred entries,
      none of them too old to be kept. */
  ghost predicate Fits(recent: seq<ClosedEntry>, now: nat) {
    |recent| <= CLOSED_MAX && forall e :: e in recent ==> Young(e, now)
  }

  /** No entry the next tick has to find is two minutes old. */
  ghost predicate Timely(recent: seq<ClosedEntry>, now: nat) {
    forall e :: e in recent ==> Elapsed(now, e.closedAt) < RECENTLY_ARCHIVED
  }

  /** Closing acts on what it archives: each archived window is on the server in
      the same session, and the tracker last saw it there. */
  ghost predicate ActsOn(w: World, entries: seq<Closed>) {
    forall p :: p in AllWindows(Sessions(entries)) ==>
      && p.window.id in w.live && w.live[p.window.id] == p.session
      && forall q :: q in AllWindows(w.prev) && q.window.id == p.window.id ==> q.session == p.session
  }

  /** The entries of targets tmux did not close can be taken out of the history. */
  ghost predicate Cleans(h: Haul, a: Answers) {
    a.resaves || !a.saves || forall i: nat :: i < |h.targets| ==> a.closes(i)
  }

  ghost predicate Closable(w: World, h: Haul, reason: CloseReason, now: nat, a: Answers) {
    && ActsOn(w, Logged(h, a)) && Cleans(h, a)
    && Fits(w.recent + Stamped(h.entries, reason, now, MaxId(w.file)), now)
  }

  ghost predicate Allowed(w: World, e: Event) {
    match e
    case Change(live) => forall id :: id in live ==> id in w.live || id !in w.used
    case Tick(cur, now, saves) => cur != [] && Locates(cur, w.live) && Timely(w.recent, now)
    case Skipped => true
    case DaemonClose(targets, reason, now, a) => Closable(w, TakeAll(w.prev, targets), reason, now, a)
    case OutsideArchive(snap, targets, reason, now, a) =>
      Locates(snap, w.live) && Closable(w, TakeAll(snap, targets), reason, now, a)
    case Reopen(id) => forall e :: e in w.recent ==> e.id != id
  }

  function Run(w: World, events: seq<Event>): World {
    if events == [] then w else Next(Run(w, Front(events)), Last(events))
  }

  ghost predicate AllowedRun(w: World, events: seq<Event>) {
    events == [] || (AllowedRun(w, Front(events)) && Allowed(Run(w, Front(events)), Last(events)))
  }

  // ---- The history file after a step ---------------------------------------

  lemma {:induction false} StampedChosen(entries: seq<Closed>, reason: CloseReason, now: nat, first: nat,
        closes: nat -> bool, n: nat)
    requires n <= |entries|
    ensures var es, cs := StampedClosed(entries, reason, now, first, closes, n), Chosen(entries, closes, n);
            && |es| == |cs|
            && (forall i :: 0 <= i < |es| ==> Holding(es[i], cs[i], reason, now))
            && (forall e :: e in es ==> exists c :: c in cs && e.session == c.session)
  {
    if n > 0 {
      StampedChosen(entries, reason, now, first, closes, n - 1);
      var es, cs := StampedClosed(entries, reason, now, first, closes, n), Chosen(entries, closes, n);
      forall e | e in es
        ensures exists c :: c in cs && e.session == c.session
      {
        var i :| 0 <= i < |es| && es[i] == e;
        assert Holding(es[i], cs[i], reason, now) && cs[i] in cs;
      }
    }
  }

  /** The entry records this closed target, for this reason, at this time. */
  ghost predicate Holding(e: ClosedEntry, c: Closed, reason: CloseReason, now: nat) {
    e.kind == c.kind && e.session == c.session && e.reason == reason && e.closedAt == now
  }

  ghost predicate EndsHolding(file: seq<ClosedEntry>, cs: seq<Closed>, reason: CloseReason, now: nat) {
    |cs| <= |file| && forall i, j :: 0 <= i < |cs| && j == |file| - |cs| + i ==> Holding(file[j], cs[i], reason, now)
  }

  /** A file that ends with `added` after some entries of the old one. */
  lemma {:induction false} FileEnds(file: seq<ClosedEntry>, end: seq<ClosedEntry>, added: seq<ClosedEntry>,
        cs: seq<Closed>, reason: CloseReason, now: nat)
    requires |cs| == |added| <= |end| && end[|end| - |added|..] == added
    requires Suffix(end[..|end| - |added|], Retain(file, now))
    requires forall i :: 0 <= i < |cs| ==> Holding(added[i], cs[i], reason, now)
    ensures EndsHolding(end, cs, reason, now)
    ensures forall e :: e in end ==> e in file || exists c :: c in cs && e.session == c.session
  {
    var prior := end[..|end| - |added|];
    RetainMembers(file, now);
    hide Retain, Young;
    assert end == prior + added;
    assert forall e :: e in prior ==> e in Retain(file, now);
    forall e | e in end && e !in file
      ensures exists c :: c in cs && e.session == c.session
    {
      assert e in added;
      var j :| 0 <= j < |added| && added[j] == e;
      assert Holding(added[j], cs[j], reason, now) && cs[j] in cs;
    }
  }

  lemma {:induction false} NoneFailed(first: nat, closes: nat -> bool, n: nat)
    requires forall i: nat :: i < n ==> closes(i)
    ensures IdsWhere(first, closes, false, n) == []
  {
    if n > 0 {
      NoneFailed(first, closes, n - 1);
    }
  }

  /** After a tick the file ends with what the tick logged, and otherwise holds
      only what it held before. */
  lemma {:induction false} TickFile(file: seq<ClosedEntry>, left: seq<Closed>, now: nat)
    ensures var end, kept := AfterRecording(file, left, now), Kept(left, true);
            && EndsHolding(end, kept, Manual, now)
            && forall e :: e in end ==> e in file || exists c :: c in kept && e.session == c.session
  {
    var end, kept := AfterRecording(file, left, now), Kept(left, true);
    var added := Stamped(left, Manual, now, MaxId(file));
    RetainMembers(file, now);
    hide Recorded, Retain, MaxId, Young;
    if left != [] {
      if |left| <= CLOSED_MAX {
        RecordedShape(file, left, Manual, now);
        FileEnds(file, end, added, kept, Manual, now);
      } else {
        RecordedOverflow(file, left, Manual, now);
        FileEnds(file, end, end, kept, Manual, now);
      }
    }
  }

  lemma {:induction false} ClosedFile(h: Haul, file: seq<ClosedEntry>, reason: CloseReason, now: nat, a: Answers)
    requires h.targets != [] && |h.targets| == |h.entries| <= CLOSED_MAX && a.saves
    requires a.resaves || IdsWhere(MaxId(file) + 1, a.closes, false, |h.targets|) == []
    ensures var end := FileAfter(file, Steps(h, file, reason, now, a));
            var cs := Chosen(h.entries, a.closes, |h.entries|);
            && EndsHolding(end, cs, reason, now)
            && forall e :: e in end ==> e in file || exists c :: c in cs && e.session == c.session
  {
    hide *;
    var end := FileAfter(file, Steps(h, file, reason, now, a));
    FileAtEnd(h, file, reason, now, a);
    StampedChosen(h.entries, reason, now, MaxId(file) + 1, a.closes, |h.entries|);
    FileEnds(file, end, StampedClosed(h.entries, reason, now, MaxId(file) + 1, a.closes, |h.entries|),
             Chosen(h.entries, a.closes, |h.entries|), reason, now);
  }

  /** Once every target was tried, the file ends with the entries of the closed
      ones, and otherwise holds only what it held before. */
  lemma {:induction false} ArchiveFile(h: Haul, file: seq<ClosedEntry>, reason: CloseReason, now: nat, a: Answers)
    requires |h.targets| == |h.entries| <= CLOSED_MAX && Cleans(h, a)
    ensures var end := FileAfter(file, Steps(h, file, reason, now, a));
            && EndsHolding(end, Logged(h, a), reason, now)
            && forall e :: e in end ==> e in file || exists c :: c in Logged(h, a) && e.session == c.session
  {
    hide Retain, MaxId, StampedClosed, IdsWhere, Recorded, Kills, Steps;
    if a.saves && h.targets != [] {
      if !a.resaves {
        NoneFailed(MaxId(file) + 1, a.closes, |h.targets|);
      }
      hide *;
      ClosedFile(h, file, reason, now, a);
    } else {
      NoTargetsNoSteps(h, file, reason, now, a);
    }
  }

  // ---- The invariant -------------------------------------------------------

  /** Some entry the next tick has to find holds the window, under the session the
      tracker knows it in. */
  ghost predicate Archived(recent: seq<ClosedEntry>, session: string, id: WindowId) {
    exists e, v :: e in recent && v in e.session.windows && e.session.name == session && v.id == id
  }

  ghost predicate Tracked(w: World, p: Placed) {
    || Times(w, p.window.id) == 0
    || (Times(w, p.window.id) == 1 && p.window.id !in w.live && Archived(w.recent, p.session, p.window.id))
  }

  /** How often a window has been recorded, by what is known of it. */
  ghost predicate Counted(w: World, id: WindowId) {
    var tracked := id in WindowIds(w.prev);
    && (id in w.live ==> Times(w, id) == 0)
    && (id in w.live || id in w.seen || Times(w, id) > 0 ==> id in w.used)
    && (id in w.archived ==> Times(w, id) > 0)
    && (tracked || id in w.lost ==> id in w.seen && Times(w, id) == if id in w.archived then 1 else 0)
    && !(tracked && id in w.lost)
    && (id in w.seen && !tracked && id !in w.lost ==> Times(w, id) == 1 && id !in w.live)
  }

  ghost predicate FileLogged(w: World) {
    forall e, v :: e in w.file && v in e.session.windows ==> Times(w, v.id) > 0
  }

  ghost predicate Inv(w: World) {
    && Unique(AllWindows(w.prev))
    && (forall id: WindowId :: Counted(w, id))
    && (forall p :: p in AllWindows(w.prev) ==> Tracked(w, p))
    && Suffix(w.recent, w.file) && FileLogged(w)
  }

  /** Before the first tick: nothing tracked, and every window of the history
      file is logged and none of them on the server. */
  ghost predicate Initial(w: World) {
    && w.prev == [] && w.recent == [] && w.seen == {} && w.lost == {} && w.archived == {} && FileLogged(w)
    && w.live.Keys <= w.used
    && forall id: WindowId :: (id in w.live ==> Times(w, id) == 0) && (Times(w, id) > 0 ==> id in w.used)
  }

  lemma {:induction false} InitialInv(w: World)
    requires Initial(w)
    ensures Inv(w)
  {
  }

  lemma {:induction false} ChangeKeeps(w: World, live: map<WindowId, string>)
    requires Inv(w) && Allowed(w, Change(live))
    ensures Inv(Next(w, Change(live)))
  {
    var n := Next(w, Change(live));
    hide AllWindows, Sessions, Count, WindowIds;
    assert forall id: WindowId :: Times(n, id) == Times(w, id);
    forall id: WindowId
      ensures Counted(n, id)
    {
      assert Counted(w, id);
    }
    forall p | p in AllWindows(n.prev)
      ensures Tracked(n, p)
    {
      assert Tracked(w, p) && Counted(w, p.window.id);
    }
  }

  lemma {:induction false} SkipKeeps(w: World)
    requires Inv(w)
    ensures Inv(Next(w, Skipped))
  {
    var n := Next(w, Skipped);
    assert Unique(AllWindows(n.prev)) && WindowIds(n.prev) == {};
    hide Count, Sessions;
    assert forall id: WindowId :: Times(n, id) == Times(w, id);
    forall id: WindowId
      ensures Counted(n, id)
    {
      assert Counted(w, id);
    }
  }

  lemma {:induction false} ReopenedEnds(file: seq<ClosedEntry>, recent: seq<ClosedEntry>, id: nat)
    requires Suffix(recent, file) && forall e :: e in recent ==> e.id != id
    ensures Suffix(recent, Reopened(file, id)) && forall e :: e in Reopened(file, id) ==> e in file
  {
    var i := EntryAt(file, id);
    var prior := SuffixSplit(recent, file);
    hide EntryAt, Suffix;
    if i < |file| {
      assert forall k :: |prior| <= k < |file| ==> file[k] in recent;
      var left := prior[..i] + prior[i + 1..];
      assert Without(file, i) == left + recent;
      AtEndIsSuffix(left, recent);
    }
  }

  lemma {:induction false} ReopenKeeps(w: World, id: nat)
    requires Inv(w) && Allowed(w, Reopen(id))
    ensures Inv(Next(w, Reopen(id)))
  {
    var n := Next(w, Reopen(id));
    hide AllWindows, Sessions, Count, WindowIds, Reopened, Suffix, Unique;
    ReopenedEnds(w.file, w.recent, id);
    assert forall i: WindowId :: Times(n, i) == Times(w, i);
    forall i: WindowId
      ensures Counted(n, i)
    {
      assert Counted(w, i);
    }
    forall p | p in AllWindows(n.prev)
      ensures Tracked(n, p)
    {
      assert Tracked(w, p);
    }
  }

  // ---- Recording, in general -----------------------------------------------

  lemma {:induction false} CountOfBoth(a: seq<Closed>, b: seq<Closed>, id: WindowId)
    ensures Count(AllWindows(Sessions(a + b)), id)
            == Count(AllWindows(Sessions(a)), id) + Count(AllWindows(Sessions(b)), id)
  {
    hide *;
    SessionsAppend(a, b);
    AllWindowsAppend(Sessions(a), Sessions(b));
    CountAppend(AllWindows(Sessions(a)), AllWindows(Sessions(b)), id);
  }

  lemma {:induction false} TimesAfter(w: World, n: World, entries: seq<Closed>, id: WindowId)
    requires n.log == w.log + entries
    ensures Times(n, id) == Times(w, id) + Count(AllWindows(Sessions(entries)), id)
  {
    CountOfBoth(w.log, entries, id);
  }

  lemma {:induction false} EntryWindows(entries: seq<Closed>, c: Closed, v: WindowSnap)
    requires c in entries && v in c.session.windows
    ensures Placed(c.session.name, v) in AllWindows(Sessions(entries))
  {
    var i :| 0 <= i < |entries| && entries[i] == c;
    var s := c.session;
    AllWindowsSplit(Sessions(entries), i);
    var j :| 0 <= j < |s.windows| && s.windows[j] == v;
    assert Place(s.name, s.windows)[j] == Placed(s.name, v);
  }

  lemma {:induction false} FileStaysLogged(w: World, n: World, entries: seq<Closed>)
    requires FileLogged(w) && n.log == w.log + entries
    requires forall e :: e in n.file ==> e in w.file || exists c :: c in entries && e.session == c.session
    ensures FileLogged(n)
  {
    hide Count, AllWindows;
    forall e, v | e in n.file && v in e.session.windows
      ensures Times(n, v.id) > 0
    {
      TimesAfter(w, n, entries, v.id);
      if e !in w.file {
        var c :| c in entries && e.session == c.session;
        EntryWindows(entries, c, v);
        CountPositive(AllWindows(Sessions(entries)), v.id);
      }
    }
  }

  lemma {:induction false} YoungEndStays(prior: seq<ClosedEntry>, end: seq<ClosedEntry>, now: nat)
    requires |end| <= CLOSED_MAX && forall i :: 0 <= i < |end| ==> Young(end[i], now)
    ensures Suffix(end, Newest(Retain(prior + end, now), CLOSED_MAX))
  {
    RetainAppend(prior, end, now);
    RetainAllYoung(end, now);
    hide Retain;
    NewestOfTwo(Retain(prior, now), end, CLOSED_MAX);
  }

  lemma {:induction false} FitsIsYoung(recent: seq<ClosedEntry>, now: nat)
    requires Fits(recent, now)
    ensures |recent| <= CLOSED_MAX && forall i :: 0 <= i < |recent| ==> Young(recent[i], now)
  {
    assert forall i :: 0 <= i < |recent| ==> recent[i] in recent;
  }

  lemma {:induction false} SuffixSplit<T>(part: seq<T>, whole: seq<T>) returns (prior: seq<T>)
    requires Suffix(part, whole)
    ensures whole == prior + part
  {
    prior := whole[..|whole| - |part|];
  }

  /** While targets are closed the file ends with what was archived since the
      last tick and the entries of all the targets. */
  lemma {:induction false} RecordedEnds(file: seq<ClosedEntry>, recent: seq<ClosedEntry>, entries: seq<Closed>,
        reason: CloseReason, now: nat)
    returns (prior: seq<ClosedEntry>)
    requires Suffix(recent, file) && Fits(recent + Stamped(entries, reason, now, MaxId(file)), now)
    ensures Recorded(file, entries, reason, now) == prior + (recent + Stamped(entries, reason, now, MaxId(file)))
  {
    hide Retain, MaxId, Newest, Young, Suffix, Fits;
    var added := Stamped(entries, reason, now, MaxId(file));
    var before := SuffixSplit(recent, file);
    FitsIsYoung(recent + added, now);
    YoungEndStays(before, recent + added, now);
    assert before + recent + added == before + (recent + added);
    prior := SuffixSplit(recent + added, Recorded(file, entries, reason, now));
  }

  lemma {:induction false} OldIds(file: seq<ClosedEntry>, recent: seq<ClosedEntry>)
    requires Suffix(recent, file)
    ensures forall i :: 0 <= i < |recent| ==> recent[i].id <= MaxId(file)
  {
    assert forall i :: 0 <= i < |recent| ==> recent[i] in file;
  }

  /** Dropping the failed targets keeps what was archived since the last tick and
      the entries of the closed ones at the end of the file. */
  lemma {:induction false} DroppingKeepsRecent(file: seq<ClosedEntry>, recent: seq<ClosedEntry>,
        entries: seq<Closed>, reason: CloseReason, now: nat, closes: nat -> bool)
    requires Suffix(recent, file) && Fits(recent + Stamped(entries, reason, now, MaxId(file)), now)
    ensures var failed := IdsWhere(MaxId(file) + 1, closes, false, |entries|);
            Suffix(recent + StampedClosed(entries, reason, now, MaxId(file) + 1, closes, |entries|),
                   DropIds(Recorded(file, entries, reason, now), failed))
  {
    hide *;
    var failed := IdsWhere(MaxId(file) + 1, closes, false, |entries|);
    var stamped := Stamped(entries, reason, now, MaxId(file));
    var prior := RecordedEnds(file, recent, entries, reason, now);
    DropIdsAppend(prior, recent + stamped, failed);
    DropIdsAppend(recent, stamped, failed);
    OldIds(file, recent);
    DropNothing(recent, failed);
    assert entries[..|entries|] == entries;
    DropFailed(entries, reason, now, MaxId(file), closes, |entries|, failed);
    AtEndIsSuffix(DropIds(prior, failed),
                  recent + StampedClosed(entries, reason, now, MaxId(file) + 1, closes, |entries|));
  }

  lemma {:induction false} AtEndIsSuffix<T>(a: seq<T>, b: seq<T>)
    ensures Suffix(b, a + b)
  {
  }

  lemma {:induction false} RecentStays(file: seq<ClosedEntry>, recent: seq<ClosedEntry>, h: Haul,
        reason: CloseReason, now: nat, a: Answers)
    requires Suffix(recent, file) && Fits(recent + Stamped(h.entries, reason, now, MaxId(file)), now)
    requires |h.targets| == |h.entries| && Cleans(h, a)
    ensures Suffix(recent + StampedLogged(h, file, reason, now, a), FileAfter(file, Steps(h, file, reason, now, a)))
  {
    hide Retain, MaxId, Fits, IdsWhere, Recorded, Kills, Steps, DropIds, Suffix;
    if a.saves && h.targets != [] {
      if !a.resaves {
        NoneFailed(MaxId(file) + 1, a.closes, |h.targets|);
      }
      hide StampedClosed, FileAfter;
      DroppingKeepsRecent(file, recent, h.entries, reason, now, a.closes);
      LastSave(h, file, reason, now, a);
    } else {
      NoTargetsNoSteps(h, file, reason, now, a);
      assert recent + StampedLogged(h, file, reason, now, a) == recent;
    }
  }

  // ---- A tick --------------------------------------------------------------

  lemma {:induction false} RecentIsLogged(w: World, now: nat, session: string, id: WindowId)
    requires FileLogged(w) && RecentlyArchived(w.file, now, session, id)
    ensures Times(w, id) > 0
  {
    hide Times;
  }

  lemma {:induction false} ArchivedIsRecent(w: World, now: nat, session: string, id: WindowId)
    requires Suffix(w.recent, w.file) && Timely(w.recent, now) && Archived(w.recent, session, id)
    ensures RecentlyArchived(w.file, now, session, id)
  {
    var e, v :| e in w.recent && v in e.session.windows && e.session.name == session && v.id == id;
    assert e in w.file;
  }

  lemma {:induction false} DeadUnique(ps: seq<Placed>, live: set<WindowId>)
    requires Unique(ps)
    ensures Unique(Dead(ps, live))
    ensures forall p :: p in ps && p.window.id !in live ==> p in Dead(ps, live)
  {
    forall id: WindowId
      ensures Count(Dead(ps, live), id) <= 1
    {
      CountDead(ps, live, id);
      assert Count(ps, id) <= 1;
    }
    DeadMembers(ps, live);
  }

  lemma {:induction false} DeadMembers(ps: seq<Placed>, live: set<WindowId>)
    ensures forall p :: p in Dead(ps, live) <==> p in ps && p.window.id !in live
  {
    if ps != [] {
      DeadMembers(Front(ps), live);
      FrontLast(ps);
    }
  }

  /** What a tick records of a window it saw last time. */
  lemma {:induction false} RecordsOfTracked(prev: seq<SessionSnap>, cur: seq<SessionSnap>, file: seq<ClosedEntry>,
        now: nat, p: Placed)
    requires Unique(AllWindows(prev)) && p in AllWindows(prev)
    ensures var id := p.window.id;
            Count(AllWindows(Sessions(TickRecords(prev, cur, file, now))), id)
            == if id in WindowIds(cur) || RecentlyArchived(file, now, p.session, id) then 0 else 1
  {
    var id, dead := p.window.id, Dead(AllWindows(prev), WindowIds(cur));
    hide TickRecords, Count, Dead, AllWindows, Unrecent, WindowIds, Sessions;
    TickRecordsWindows(prev, cur, file, now);
    DeadUnique(AllWindows(prev), WindowIds(cur));
    CountDead(AllWindows(prev), WindowIds(cur), id);
    if id in WindowIds(cur) {
      CountUnrecentZero(dead, RecentPairs(file, now), id);
    } else {
      CountUnrecent(dead, RecentPairs(file, now), p);
    }
  }

  lemma {:induction false} RecordsOfOther(prev: seq<SessionSnap>, cur: seq<SessionSnap>, file: seq<ClosedEntry>,
        now: nat, id: WindowId)
    requires id !in WindowIds(prev)
    ensures Count(AllWindows(Sessions(TickRecords(prev, cur, file, now))), id) == 0
  {
    TickRecordsWindows(prev, cur, file, now);
    CountPositive(AllWindows(prev), id);
    CountDead(AllWindows(prev), WindowIds(cur), id);
    CountUnrecentZero(Dead(AllWindows(prev), WindowIds(cur)), RecentPairs(file, now), id);
  }

  lemma {:induction false} KeptAndDropped(left: seq<Closed>, saves: bool, id: WindowId)
    ensures Count(AllWindows(Sessions(left)), id)
            == Count(AllWindows(Sessions(Dropped(left, saves))), id)
              + Count(AllWindows(Sessions(Kept(left, saves))), id)
    ensures id in WindowIds(Sessions(Dropped(left, saves)))
            <==> Count(AllWindows(Sessions(Dropped(left, saves))), id) > 0
  {
    hide Count, AllWindows, Sessions, Dropped;
    assert left == Dropped(left, saves) + Kept(left, saves);
    CountOfBoth(Dropped(left, saves), Kept(left, saves), id);
    CountPositive(AllWindows(Sessions(Dropped(left, saves))), id);
  }

  /** What a tick is to record of a window it saw last time: once when it is gone
      and not yet recorded. */
  lemma {:induction false} TrackedRecords(w: World, cur: seq<SessionSnap>, now: nat, p: Placed)
    requires Unique(AllWindows(w.prev)) && Suffix(w.recent, w.file) && FileLogged(w)
    requires p in AllWindows(w.prev) && Tracked(w, p) && Timely(w.recent, now) && WindowIds(cur) == w.live.Keys
    requires p.window.id in w.live ==> Times(w, p.window.id) == 0
    ensures var id := p.window.id;
            Times(w, id) + Count(AllWindows(Sessions(TickRecords(w.prev, cur, w.file, now))), id)
            == if id in w.live then 0 else 1
  {
    var id := p.window.id;
    assert Times(w, id) == 0 || (Times(w, id) == 1 && id !in w.live && Archived(w.recent, p.session, id));
    hide *;
    RecordsOfTracked(w.prev, cur, w.file, now, p);
    if RecentlyArchived(w.file, now, p.session, id) {
      RecentIsLogged(w, now, p.session, id);
    }
    if Archived(w.recent, p.session, id) {
      ArchivedIsRecent(w, now, p.session, id);
    }
  }

  /** A tick records a window it saw last time exactly when that is gone, not yet
      recorded and not among those its save fails to keep. */
  lemma {:induction false} TickCount(w: World, cur: seq<SessionSnap>, now: nat, saves: bool, id: WindowId)
    requires Inv(w) && Allowed(w, Tick(cur, now, saves))
    ensures var n, lost := Next(w, Tick(cur, now, saves)), LostIn(w, Tick(cur, now, saves));
            && (id !in WindowIds(w.prev) ==> id !in lost && Times(n, id) == Times(w, id))
            && (id in lost ==> id !in w.live && Times(w, id) == 0)
            && (id in WindowIds(w.prev) ==> Times(n, id) == if id in w.live || id in lost then 0 else 1)
  {
    var n := Next(w, Tick(cur, now, saves));
    var left := TickRecords(w.prev, cur, w.file, now);
    hide Count, AllWindows, Sessions, TickRecords, Dropped, Kept, Tracked, FileLogged, WindowIds, AfterRecording, Times;
    assert n.log == w.log + Kept(left, saves);
    assert LostIn(w, Tick(cur, now, saves)) == WindowIds(Sessions(Dropped(left, saves)));
    assert Counted(w, id);
    hide *;
    TimesAfter(w, n, Kept(left, saves), id);
    KeptAndDropped(left, saves, id);
    if id in WindowIds(w.prev) {
      TickRecordsTracked(w, cur, now, saves, id);
    } else {
      RecordsOfOther(w.prev, cur, w.file, now, id);
    }
  }

  lemma {:induction false} TickRecordsTracked(w: World, cur: seq<SessionSnap>, now: nat, saves: bool, id: WindowId)
    requires Inv(w) && Allowed(w, Tick(cur, now, saves)) && id in WindowIds(w.prev)
    ensures Times(w, id) + Count(AllWindows(Sessions(TickRecords(w.prev, cur, w.file, now))), id)
            == if id in w.live then 0 else 1
  {
    var p :| p in AllWindows(w.prev) && p.window.id == id;
    assert Tracked(w, p) && Counted(w, id);
    hide AllWindows, Unique, Times, TickRecords, Count, Sessions, WindowIds, Suffix, Timely, FileLogged, Tracked;
    TrackedRecords(w, cur, now, p);
  }

  lemma {:induction false} TickKeeps(w: World, cur: seq<SessionSnap>, now: nat, saves: bool)
    requires Inv(w) && Allowed(w, Tick(cur, now, saves))
    ensures Inv(Next(w, Tick(cur, now, saves)))
  {
    var n := Next(w, Tick(cur, now, saves));
    var left := TickRecords(w.prev, cur, w.file, now);
    hide Times, AllWindows, TickRecords, Count, Recorded, Sessions, Kept, Dropped;
    forall id: WindowId
      ensures Counted(n, id)
    {
      assert Counted(w, id);
      TickCount(w, cur, now, saves, id);
    }
    if saves {
      TickFile(w.file, left, now);
    }
    hide AfterRecording;
    FileStaysLogged(w, n, Kept(left, saves));
    forall p | p in AllWindows(n.prev)
      ensures Tracked(n, p)
    {
      assert Counted(n, p.window.id);
    }
  }

  // ---- Closing -------------------------------------------------------------

  /** A target of the list closes this window. */
  ghost predicate Targeted(targets: seq<Target>, p: Placed) {
    SessionTarget(p.session) in targets || exists t :: t in targets && t.WindowTarget? && t.windowId == p.window.id
  }

  lemma {:induction false} TakenIsTargeted(ss: seq<SessionSnap>, target: Target, p: Placed)
    requires TakeTarget(ss, target).entry.Some? && p in AllWindows([TakeTarget(ss, target).entry.value.session])
    ensures Targeted([target], p)
  {
    AllWindowsOne(TakeTarget(ss, target).entry.value.session);
    assert target in [target];
  }

  /** Every window of an entry is one its target closes. */
  lemma {:induction false} EntryIsTargeted(ss: seq<SessionSnap>, targets: seq<Target>, i: nat, p: Placed)
    requires i < |TakeAll(ss, targets).entries| && p in AllWindows([TakeAll(ss, targets).entries[i].session])
    ensures Targeted([TakeAll(ss, targets).targets[i]], p)
  {
    var h := TakeAll(ss, Front(targets));
    hide TakeTarget, AllWindows, Targeted;
    if i < |h.entries| {
      EntryIsTargeted(ss, Front(targets), i, p);
    } else {
      TakenIsTargeted(h.rest, Last(targets), p);
    }
  }

  lemma {:induction false} ChosenHas<T>(s: seq<T>, closes: nat -> bool, n: nat, i: nat)
    requires i < n <= |s| && closes(i)
    ensures s[i] in Chosen(s, closes, n)
  {
    if i < n - 1 {
      ChosenHas(s, closes, n - 1, i);
    }
  }

  lemma {:induction false} ChosenWindow(entries: seq<Closed>, closes: nat -> bool, n: nat, p: Placed)
    returns (i: nat)
    requires n <= |entries| && p in AllWindows(Sessions(Chosen(entries, closes, n)))
    ensures i < n && closes(i) && p in AllWindows([entries[i].session])
  {
    NoEntriesNoWindows();
    assert n > 0;
    hide AllWindows, Sessions;
    var init := Chosen(entries, closes, n - 1);
    assert Chosen(entries, closes, n) == init + if closes(n - 1) then [entries[n - 1]] else [];
    assert init + [] == init;
    hide *;
    if p in AllWindows(Sessions(init)) {
      i := ChosenWindow(entries, closes, n - 1, p);
    } else {
      i := n - 1;
      SessionsAppend(init, [entries[i]]);
      assert Sessions([entries[i]]) == [entries[i].session];
      AllWindowsAppend(Sessions(init), [entries[i].session]);
      assert p in AllWindows([entries[i].session]);
    }
  }

  lemma {:induction false} NoEntriesNoWindows()
    ensures AllWindows(Sessions([])) == []
  {
    assert Sessions([]) == [];
  }

  /** Every window a close archived is one of its targets closes. */
  lemma {:induction false} LoggedIsStruck(ss: seq<SessionSnap>, targets: seq<Target>, a: Answers, p: Placed)
    requires p in AllWindows(Sessions(Logged(TakeAll(ss, targets), a)))
    ensures Targeted(Struck(TakeAll(ss, targets), a), p)
  {
    NoEntriesNoWindows();
    var h := TakeAll(ss, targets);
    hide AllWindows, TakeAll, Chosen, Sessions;
    var i := ChosenWindow(h.entries, a.closes, |h.entries|, p);
    EntryIsTargeted(ss, targets, i, p);
    ChosenHas(h.targets, a.closes, |h.targets|, i);
  }

  lemma {:induction false} ChosenCounts(entries: seq<Closed>, closes: nat -> bool, n: nat, id: WindowId)
    requires n <= |entries|
    ensures Count(AllWindows(Sessions(entries[..n])), id)
            == Count(AllWindows(Sessions(Chosen(entries, closes, n))), id)
               + Count(AllWindows(Sessions(Chosen(entries, Not(closes), n))), id)
  {
    hide Count, AllWindows, Sessions;
    if n == 0 {
      assert entries[..n] == [];
      NothingCounts(id);
    } else {
      var c, yes, no := entries[n - 1], Chosen(entries, closes, n - 1), Chosen(entries, Not(closes), n - 1);
      assert entries[..n] == entries[..n - 1] + [c] && yes + [] == yes && no + [] == no;
      assert Chosen(entries, closes, n) == if closes(n - 1) then yes + [c] else yes;
      assert Chosen(entries, Not(closes), n) == if closes(n - 1) then no else no + [c];
      hide *;
      ChosenCounts(entries, closes, n - 1, id);
      CountOfBoth(entries[..n - 1], [c], id);
      if closes(n - 1) {
        CountOfBoth(yes, [c], id);
      } else {
        CountOfBoth(no, [c], id);
      }
    }
  }

  lemma {:induction false} NothingCounts(id: WindowId)
    ensures Count(AllWindows(Sessions([])), id) == 0
  {
    NoEntriesNoWindows();
  }

  /** Taking targets splits the windows of a snapshot between what is closed, what
      is not and what is left. */
  lemma {:induction false} TakenCounts(ss: seq<SessionSnap>, targets: seq<Target>, a: Answers, id: WindowId)
    ensures var h := TakeAll(ss, targets);
            Count(AllWindows(ss), id)
            == Count(AllWindows(h.rest), id) + Count(AllWindows(Sessions(Logged(h, a))), id)
               + Count(AllWindows(Sessions(Unclosed(h, a))), id)
  {
    var h := TakeAll(ss, targets);
    NothingCounts(id);
    hide Count, AllWindows, Sessions, TakeAll, Chosen;
    TakeAllConserves(ss, targets);
    assert multiset(AllWindows(ss)) == multiset(AllWindows(h.rest) + AllWindows(Sessions(h.entries)));
    CountOfMultiset(AllWindows(ss), AllWindows(h.rest) + AllWindows(Sessions(h.entries)), id);
    CountAppend(AllWindows(h.rest), AllWindows(Sessions(h.entries)), id);
    ChosenCounts(h.entries, a.closes, |h.entries|, id);
    assert h.entries[..|h.entries|] == h.entries;
  }

  lemma {:induction false} RestIsListed(ss: seq<SessionSnap>, targets: seq<Target>)
    ensures forall p :: p in AllWindows(TakeAll(ss, targets).rest) ==> p in AllWindows(ss)
  {
    hide *;
    TakeAllConserves(ss, targets);
    forall p | p in AllWindows(TakeAll(ss, targets).rest)
      ensures p in AllWindows(ss)
    {
      assert p in multiset(AllWindows(TakeAll(ss, targets).rest));
      assert p in multiset(AllWindows(ss));
    }
  }

  /** What an archive is about: its windows are on the server, are listed once
      and are closed by it; what left the tracker's snapshot is among them, or
      lost. */
  ghost predicate Archives(w: World, h: Haul, a: Answers, prev: seq<SessionSnap>, lost: set<WindowId>) {
    var archived := AllWindows(Sessions(Logged(h, a)));
    && (forall p :: p in archived ==> p.window.id in w.live && p.window.id in Killed(w.live, Struck(h, a)))
    && (forall p :: p in AllWindows(prev) ==> p in AllWindows(w.prev))
    && (forall id: WindowId :: Count(archived, id) <= 1)
    && (forall id :: id in WindowIds(w.prev) && id !in WindowIds(prev) && id !in lost ==> Count(archived, id) == 1)
    && (forall id :: id in lost ==> id in WindowIds(w.prev) && id !in WindowIds(prev) && Count(archived, id) == 0)
  }

  lemma {:induction false} LoggedIsKilled(w: World, ss: seq<SessionSnap>, targets: seq<Target>, a: Answers)
    requires ActsOn(w, Logged(TakeAll(ss, targets), a))
    ensures var h := TakeAll(ss, targets);
            forall p :: p in AllWindows(Sessions(Logged(h, a))) ==>
              p.window.id in w.live && p.window.id in Killed(w.live, Struck(h, a))
  {
    hide TakeAll, AllWindows, Sessions, Logged, Struck;
    var h := TakeAll(ss, targets);
    forall p | p in AllWindows(Sessions(Logged(h, a)))
      ensures p.window.id in w.live && p.window.id in Killed(w.live, Struck(h, a))
    {
      LoggedIsStruck(ss, targets, a, p);
    }
  }

  lemma {:induction false} DaemonArchives(w: World, targets: seq<Target>, a: Answers)
    requires Inv(w) && ActsOn(w, Logged(TakeAll(w.prev, targets), a))
    ensures var h := TakeAll(w.prev, targets);
            && Archives(w, h, a, h.rest, WindowIds(Sessions(Unclosed(h, a)))) && Unique(AllWindows(h.rest))
            && TakenOut(h, a, h.rest)
  {
    var h := TakeAll(w.prev, targets);
    hide TakeAll, AllWindows, Sessions, Count, ActsOn, Killed, Logged, Unclosed, Counted, Tracked, FileLogged, Suffix;
    LoggedIsKilled(w, w.prev, targets, a);
    RestIsListed(w.prev, targets);
    forall id: WindowId
      ensures Count(AllWindows(Sessions(Logged(h, a))), id) <= 1 && Count(AllWindows(h.rest), id) <= 1
      ensures id in WindowIds(w.prev) && id !in WindowIds(h.rest) && id !in WindowIds(Sessions(Unclosed(h, a))) ==>
                Count(AllWindows(Sessions(Logged(h, a))), id) == 1
      ensures id in WindowIds(Sessions(Unclosed(h, a))) ==>
                id in WindowIds(w.prev) && id !in WindowIds(h.rest)
                && Count(AllWindows(Sessions(Logged(h, a))), id) == 0
      ensures id in WindowIds(h.rest) ==> Count(AllWindows(Sessions(Logged(h, a))), id) == 0
    {
      TakenCounts(w.prev, targets, a, id);
      CountPositive(AllWindows(w.prev), id);
      CountPositive(AllWindows(h.rest), id);
      CountPositive(AllWindows(Sessions(Unclosed(h, a))), id);
      assert Count(AllWindows(w.prev), id) <= 1;
    }
  }

  lemma {:induction false} OutsideArchives(w: World, snap: seq<SessionSnap>, targets: seq<Target>, a: Answers)
    requires Inv(w) && Unique(AllWindows(snap)) && ActsOn(w, Logged(TakeAll(snap, targets), a))
    ensures Archives(w, TakeAll(snap, targets), a, w.prev, {}) && Unique(AllWindows(w.prev))
  {
    var h := TakeAll(snap, targets);
    hide TakeAll, AllWindows, Sessions, Count, ActsOn, Killed, Logged, Unclosed, Counted, Tracked, FileLogged, Suffix;
    LoggedIsKilled(w, snap, targets, a);
    forall id: WindowId
      ensures Count(AllWindows(Sessions(Logged(h, a))), id) <= 1
    {
      TakenCounts(snap, targets, a, id);
      assert Count(AllWindows(snap), id) <= 1;
    }
  }

  /** An archived window is found in what was recorded since the last tick. */
  lemma {:induction false} LoggedIsArchived(recent: seq<ClosedEntry>, h: Haul, file: seq<ClosedEntry>,
        reason: CloseReason, now: nat, a: Answers, p: Placed)
    requires p in AllWindows(Sessions(Logged(h, a)))
    ensures Archived(recent + StampedLogged(h, file, reason, now, a), p.session, p.window.id)
  {
    NoEntriesNoWindows();
    hide AllWindows, StampedClosed, Chosen, MaxId;
    StampedChosen(h.entries, reason, now, MaxId(file) + 1, a.closes, |h.entries|);
    var i := EntryOf(Logged(h, a), p);
    var e := StampedLogged(h, file, reason, now, a)[i];
    assert Holding(e, Logged(h, a)[i], reason, now);
    assert e in recent + StampedLogged(h, file, reason, now, a);
    assert p.window in e.session.windows;
  }

  lemma {:induction false} EntryOf(entries: seq<Closed>, p: Placed) returns (i: nat)
    requires p in AllWindows(Sessions(entries))
    ensures i < |entries| && entries[i].session.name == p.session && p.window in entries[i].session.windows
  {
    NoEntriesNoWindows();
    assert entries != [];
    var ss := Sessions(entries);
    assert Front(ss) == Sessions(Front(entries));
    if p in AllWindows(Front(ss)) {
      i := EntryOf(Front(entries), p);
    } else {
      i := |entries| - 1;
      var j :| 0 <= j < |Last(ss).windows| && Place(Last(ss).name, Last(ss).windows)[j] == p;
      assert Last(ss).windows[j] == p.window;
    }
  }

  lemma {:induction false} ArchivedMore(a: seq<ClosedEntry>, b: seq<ClosedEntry>, session: string, id: WindowId)
    requires Archived(a, session, id)
    ensures Archived(a + b, session, id)
  {
    var e, v :| e in a && v in e.session.windows && e.session.name == session && v.id == id;
    assert e in a + b;
  }

  lemma {:induction false} ArchiveTracks(w: World, n: World, h: Haul, reason: CloseReason, now: nat, a: Answers,
        p: Placed)
    requires Tracked(w, p) && (p.window.id in w.live ==> Times(w, p.window.id) == 0)
    requires n.log == w.log + Logged(h, a) && n.live.Keys <= w.live.Keys && ActsOn(w, Logged(h, a))
    requires Count(AllWindows(Sessions(Logged(h, a))), p.window.id) <= 1 && p in AllWindows(w.prev)
    requires Count(AllWindows(Sessions(Logged(h, a))), p.window.id) > 0 ==> p.window.id !in n.live
    requires || n.recent == w.recent + StampedLogged(h, w.file, reason, now, a)
             || (n.recent == w.recent && Count(AllWindows(Sessions(Logged(h, a))), p.window.id) == 0)
    ensures Tracked(n, p)
  {
    var id, archived := p.window.id, AllWindows(Sessions(Logged(h, a)));
    var added := StampedLogged(h, w.file, reason, now, a);
    hide Count, AllWindows, Sessions, Logged, StampedLogged, Times, Archived;
    TimesAfter(w, n, Logged(h, a), id);
    CountPositive(archived, id);
    if Count(archived, id) > 0 {
      var q :| q in archived && q.window.id == id;
      LoggedIsArchived(w.recent, h, w.file, reason, now, a, q);
    } else if Times(w, id) == 1 && n.recent != w.recent {
      ArchivedMore(w.recent, added, p.session, id);
    }
  }

  lemma {:induction false} ArchiveCounts(w: World, n: World, h: Haul, a: Answers, prev: seq<SessionSnap>,
        lost: set<WindowId>, id: WindowId)
    requires Counted(w, id) && Archives(w, h, a, prev, lost)
    requires n.live == w.live - Killed(w.live, Struck(h, a)) && n.log == w.log + Logged(h, a)
    requires n.prev == prev && n.lost == w.lost + lost && n.seen == w.seen && n.used == w.used
    requires n.archived == w.archived + WindowIds(Sessions(Logged(h, a)))
    ensures Counted(n, id)
  {
    var archived := AllWindows(Sessions(Logged(h, a)));
    assert Count(archived, id) <= 1;
    assert id in lost ==> id in WindowIds(w.prev) && id !in WindowIds(prev) && Count(archived, id) == 0;
    assert id in WindowIds(w.prev) && id !in WindowIds(prev) && id !in lost ==> Count(archived, id) == 1;
    assert id in WindowIds(prev) ==> id in WindowIds(w.prev);
    assert Count(archived, id) > 0 ==> id in w.live && id !in n.live by { CountPositive(archived, id); }
    hide *;
    TimesAfter(w, n, Logged(h, a), id);
    CountPositive(archived, id);
    hide Counted;
    CountedAfter(w, n, prev, lost, id, Count(archived, id));
  }

  lemma {:induction false} CountedAfter(w: World, n: World, prev: seq<SessionSnap>, lost: set<WindowId>,
        id: WindowId, added: nat)
    requires Counted(w, id) && n.prev == prev && n.lost == w.lost + lost && n.seen == w.seen && n.used == w.used
    requires Times(n, id) == Times(w, id) + added && added <= 1 && n.live.Keys <= w.live.Keys
    requires id in n.archived <==> id in w.archived || added > 0
    requires id in lost ==> id in WindowIds(w.prev) && id !in WindowIds(prev) && added == 0
    requires id in WindowIds(w.prev) && id !in WindowIds(prev) && id !in lost ==> added == 1
    requires id in WindowIds(prev) ==> id in WindowIds(w.prev)
    requires added > 0 ==> id in w.live && id !in n.live
    ensures Counted(n, id)
  {
    hide Times, WindowIds;
  }

  /** Nothing archived is left in the snapshot. */
  ghost predicate TakenOut(h: Haul, a: Answers, prev: seq<SessionSnap>) {
    forall id :: id in WindowIds(prev) ==> Count(AllWindows(Sessions(Logged(h, a))), id) == 0
  }

  lemma {:induction false} ArchiveTracksAll(w: World, n: World, h: Haul, reason: CloseReason, now: nat, a: Answers,
        prev: seq<SessionSnap>, lost: set<WindowId>)
    requires Inv(w) && Archives(w, h, a, prev, lost) && ActsOn(w, Logged(h, a))
    requires n.live == w.live - Killed(w.live, Struck(h, a)) && n.log == w.log + Logged(h, a) && n.prev == prev
    requires || n.recent == w.recent + StampedLogged(h, w.file, reason, now, a)
             || (n.recent == w.recent && TakenOut(h, a, prev))
    ensures forall p :: p in AllWindows(prev) ==> Tracked(n, p)
  {
    var archived := AllWindows(Sessions(Logged(h, a)));
    hide AllWindows, Sessions, Count, Killed, Logged, Struck, StampedLogged, Times, ActsOn, FileLogged, Suffix, Unique,
         Tracked;
    forall p | p in AllWindows(prev)
      ensures Tracked(n, p)
    {
      var id := p.window.id;
      assert p in AllWindows(w.prev) && Tracked(w, p) && Counted(w, id) && Count(archived, id) <= 1;
      assert id in WindowIds(prev);
      CountPositive(archived, id);
      ArchiveTracks(w, n, h, reason, now, a, p);
    }
  }

  lemma {:induction false} ClosableParts(w: World, h: Haul, reason: CloseReason, now: nat, a: Answers)
    requires Closable(w, h, reason, now, a)
    ensures ActsOn(w, Logged(h, a)) && Cleans(h, a) && |h.entries| <= CLOSED_MAX
    ensures Fits(w.recent + Stamped(h.entries, reason, now, MaxId(w.file)), now)
  {
    hide ActsOn, Cleans, MaxId, Logged;
  }

  lemma {:induction false} ArchiveKeeps(w: World, h: Haul, reason: CloseReason, now: nat, a: Answers,
        prev: seq<SessionSnap>, lost: set<WindowId>, recent: seq<ClosedEntry>)
    requires Inv(w) && Archives(w, h, a, prev, lost) && Closable(w, h, reason, now, a) && Unique(AllWindows(prev))
    requires |h.targets| == |h.entries|
    requires || recent == w.recent + StampedLogged(h, w.file, reason, now, a)
             || (recent == w.recent == [] && TakenOut(h, a, prev))
    ensures Inv(Archive(w, h, reason, now, a, prev, lost, recent))
  {
    hide *;
    var n := Archive(w, h, reason, now, a, prev, lost, recent);
    ArchiveParts(w, h, reason, now, a, prev, lost, recent);
    InvParts(w);
    ClosableParts(w, h, reason, now, a);
    RecentStays(w.file, w.recent, h, reason, now, a);
    ArchiveFile(h, w.file, reason, now, a);
    FileStaysLogged(w, n, Logged(h, a));
    ArchiveTracksAll(w, n, h, reason, now, a, prev, lost);
    forall id: WindowId
      ensures Counted(n, id)
    {
      ArchiveCounts(w, n, h, a, prev, lost, id);
    }
    InvHolds(n);
  }

  lemma {:induction false} ArchiveParts(w: World, h: Haul, reason: CloseReason, now: nat, a: Answers,
        prev: seq<SessionSnap>, lost: set<WindowId>, recent: seq<ClosedEntry>)
    ensures var n := Archive(w, h, reason, now, a, prev, lost, recent);
            && n.live == w.live - Killed(w.live, Struck(h, a)) && n.log == w.log + Logged(h, a) && n.prev == prev
            && n.file == FileAfter(w.file, Steps(h, w.file, reason, now, a)) && n.recent == recent
            && n.lost == w.lost + lost && n.seen == w.seen && n.used == w.used
            && n.archived == w.archived + WindowIds(Sessions(Logged(h, a))) && Suffix([], n.file)
  {
    hide Killed, Struck, Logged, FileAfter, Steps, WindowIds, Sessions;
  }

  lemma {:induction false} InvParts(w: World)
    requires Inv(w)
    ensures Suffix(w.recent, w.file) && FileLogged(w) && forall id: WindowId :: Counted(w, id)
  {
    hide Suffix, FileLogged, Counted, Tracked, Unique;
  }

  lemma {:induction false} InvHolds(w: World)
    requires Unique(AllWindows(w.prev)) && Suffix(w.recent, w.file) && FileLogged(w)
    requires (forall id: WindowId :: Counted(w, id)) && forall p :: p in AllWindows(w.prev) ==> Tracked(w, p)
    ensures Inv(w)
  {
  }

  // ---- Whole runs ----------------------------------------------------------

  lemma {:induction false} NextKeeps(w: World, e: Event)
    requires Inv(w) && Allowed(w, e)
    ensures Inv(Next(w, e))
  {
    match e
    case Change(live) =>
      hide *;
      ChangeKeeps(w, live);
    case Tick(cur, now, saves) =>
      hide *;
      TickKeeps(w, cur, now, saves);
    case Skipped =>
      hide *;
      SkipKeeps(w);
    case DaemonClose(targets, reason, now, a) =>
      var h := TakeAll(w.prev, targets);
      var recent := if w.recent == [] then [] else w.recent + StampedLogged(h, w.file, reason, now, a);
      assert Next(w, e) == Archive(w, h, reason, now, a, h.rest, LostIn(w, e), recent);
      assert ActsOn(w, Logged(h, a)) && LostIn(w, e) == WindowIds(Sessions(Unclosed(h, a)));
      hide *;
      DaemonArchives(w, targets, a);
      ArchiveKeeps(w, h, reason, now, a, h.rest, LostIn(w, e), recent);
    case OutsideArchive(snap, targets, reason, now, a) =>
      var h := TakeAll(snap, targets);
      var recent := w.recent + StampedLogged(h, w.file, reason, now, a);
      assert Next(w, e) == Archive(w, h, reason, now, a, w.prev, {}, recent);
      assert ActsOn(w, Logged(h, a)) && Unique(AllWindows(snap));
      hide *;
      OutsideArchives(w, snap, targets, a);
      ArchiveKeeps(w, h, reason, now, a, w.prev, {}, recent);
    case Reopen(id) =>
      hide *;
      ReopenKeeps(w, id);
  }

  lemma {:induction false} RunKeeps(w: World, events: seq<Event>)
    requires Initial(w) && AllowedRun(w, events)
    ensures Inv(Run(w, events))
  {
    hide Inv, Next, Allowed, Initial;
    if events == [] {
      InitialInv(w);
    } else {
      RunKeeps(w, Front(events));
      NextKeeps(Run(w, Front(events)), Last(events));
    }
  }

  /** Over any run: no window on the server has been recorded, and a window seen
      in a tick has been recorded once, or not at all, which it has not exactly
      while no close archived it and the tracker still watches it or has lost it.
      After a tick, skipped or not, that is: while it lives, or when it was lost. */
  lemma {:induction false} EachClosedWindowOnce(w: World, events: seq<Event>)
    requires Initial(w) && AllowedRun(w, events)
    ensures var n := Run(w, events);
            && (forall id :: id in n.live ==> Times(n, id) == 0)
            && (forall id :: id in n.seen ==>
                  Times(n, id) == if id !in n.archived && (id in WindowIds(n.prev) || id in n.lost) then 0 else 1)
            && (events != [] && (Last(events).Tick? || Last(events).Skipped?) ==>
                  forall id :: id in n.seen ==>
                    Times(n, id) == if id in n.live || (id in n.lost && id !in n.archived) then 0 else 1)
  {
    var n := Run(w, events);
    RunKeeps(w, events);
    if events != [] && (Last(events).Tick? || Last(events).Skipped?) {
      TickWatchesTheLiving(Run(w, Front(events)), Last(events));
    }
    hide Times, Next, AllowedRun, Initial, WindowIds, Run;
    forall id | id in n.seen
      ensures Times(n, id) == if id !in n.archived && (id in WindowIds(n.prev) || id in n.lost) then 0 else 1
    {
      assert Counted(n, id);
    }
    assert forall id :: id in n.live ==> Counted(n, id);
  }

  lemma {:induction false} TickWatchesTheLiving(w: World, e: Event)
    requires Allowed(w, e) && (e.Tick? || e.Skipped?)
    ensures WindowIds(Next(w, e).prev) <= Next(w, e).live.Keys
  {
    hide TickRecords, AfterRecording;
  }

  /** A step at which the tracker lost sight of the window, no later tick having
      seen it. */
  ghost predicate LostAt(w: World, events: seq<Event>, id: WindowId, k: nat) {
    && k < |events| && id in LostIn(Run(w, events[..k]), events[k])
    && forall j: nat :: k < j < |events| && events[j].Tick? ==> id !in WindowIds(events[j].cur)
  }

  lemma {:induction false} LostBefore(w: World, events: seq<Event>, id: WindowId, k: nat)
    requires events != [] && k < |events| - 1
    ensures LostAt(w, events, id, k)
            <==> LostAt(w, Front(events), id, k) && !(Last(events).Tick? && id in WindowIds(Last(events).cur))
  {
    hide LostIn, Run, WindowIds;
    assert events[..k] == Front(events)[..k];
    assert forall j: nat :: j < |events| - 1 ==> events[j] == Front(events)[j];
  }

  ghost predicate LostBy(w: World, events: seq<Event>, id: WindowId) {
    exists k: nat :: LostAt(w, events, id, k)
  }

  /** A window is lost exactly when some step lost it for good: a skipped tick
      that ended the watch on it, a tick whose save did not keep it, or a close
      that took it out of the snapshot and failed. */
  lemma {:induction false} LostIff(w: World, events: seq<Event>, id: WindowId)
    requires w.lost == {}
    ensures id in Run(w, events).lost <==> LostBy(w, events, id)
  {
    if events != [] {
      var init, e := Front(events), Last(events);
      assert Run(w, events) == Next(Run(w, init), e);
      hide *;
      LostIff(w, init, id);
      LostStep(Run(w, init), e, id);
      LostByStep(w, events, id);
    }
  }

  lemma {:induction false} LostByStep(w: World, events: seq<Event>, id: WindowId)
    requires events != []
    ensures var init, e := Front(events), Last(events);
            LostBy(w, events, id)
            <==> id in LostIn(Run(w, init), e) || (LostBy(w, init, id) && !(e.Tick? && id in WindowIds(e.cur)))
  {
    var init, e, last := Front(events), Last(events), |events| - 1;
    assert events[..last] == init;
    assert LostAt(w, events, id, last) <==> id in LostIn(Run(w, init), e);
    hide LostAt, LostIn, Run, WindowIds;
    if LostBy(w, init, id) && !(e.Tick? && id in WindowIds(e.cur)) {
      var k: nat :| LostAt(w, init, id, k);
      LostIsEarly(w, init, id, k);
      LostBefore(w, events, id, k);
    }
    if LostBy(w, events, id) && id !in LostIn(Run(w, init), e) {
      var k: nat :| LostAt(w, events, id, k);
      LostIsEarly(w, events, id, k);
      LostBefore(w, events, id, k);
    }
  }

  lemma {:induction false} LostIsEarly(w: World, events: seq<Event>, id: WindowId, k: nat)
    requires LostAt(w, events, id, k)
    ensures k < |events|
  {
  }

  lemma {:induction false} LostStep(w: World, e: Event, id: WindowId)
    ensures id in Next(w, e).lost
            <==> id in LostIn(w, e) || (id in w.lost && !(e.Tick? && id in WindowIds(e.cur)))
  {
    hide TickRecords, AfterRecording, TakeAll, Unclosed, Logged, WindowIds;
  }

  /** When no step loses a window, every window seen in a tick and gone has been
      recorded exactly once after the next. */
  lemma {:induction false} NothingLostNothingMissed(w: World, events: seq<Event>)
    requires Initial(w) && AllowedRun(w, events) && events != [] && Last(events).Tick?
    requires forall k: nat :: k < |events| ==> LostIn(Run(w, events[..k]), events[k]) == {}
    ensures var n := Run(w, events);
            forall id :: id in n.seen ==> Times(n, id) == if id in n.live then 0 else 1
  {
    var n := Run(w, events);
    assert w.lost == {};
    hide Times, Run, Inv, LostIn, Initial, AllowedRun;
    EachClosedWindowOnce(w, events);
    NothingLost(w, events);
  }

  lemma {:induction false} NothingLost(w: World, events: seq<Event>)
    requires w.lost == {} && forall k: nat :: k < |events| ==> LostIn(Run(w, events[..k]), events[k]) == {}
    ensures Run(w, events).lost == {}
  {
    if events != [] {
      var init, e, last := Front(events), Last(events), |events| - 1;
      assert events[..last] == init && LostIn(Run(w, init), e) == {};
      assert Run(w, events) == Next(Run(w, init), e);
      forall k: nat | k < last
        ensures LostIn(Run(w, init[..k]), init[k]) == {}
      {
        assert init[..k] == events[..k] && init[k] == events[k];
      }
      hide *;
      NothingLost(w, init);
      forall id: WindowId
        ensures id !in Run(w, events).lost
      {
        LostStep(Run(w, init), e, id);
      }
    }
  }

  // ---- Recorded means on file ----------------------------------------------

  /** What a step adds to the log. */
  function Adds(w: World, e: Event): seq<Closed> {
    match e
    case Tick(cur, now, saves) => Kept(TickRecords(w.prev, cur, w.file, now), saves)
    case DaemonClose(targets, reason, now, a) => Logged(TakeAll(w.prev, targets), a)
    case OutsideArchive(snap, targets, reason, now, a) => Logged(TakeAll(snap, targets), a)
    case _ => []
  }

  /** Whatever a step logs is in the history file after it, at its end and in
      order, with its reason and time. */
  lemma {:induction false} LoggedIsOnFile(w: World, e: Event)
    requires Allowed(w, e)
    ensures var n, added := Next(w, e), Adds(w, e);
            && n.log == w.log + added
            && (e.Change? || e.Skipped? ==> n.file == w.file)
            && (e.Tick? ==> EndsHolding(n.file, added, Manual, e.now))
            && (e.DaemonClose? || e.OutsideArchive? ==> EndsHolding(n.file, added, e.reason, e.now))
  {
    match e
    case Change(live) =>
    case Skipped =>
    case Reopen(id) =>
    case Tick(cur, now, saves) =>
      hide TickRecords, AfterRecording, WindowIds, LostIn, Locates, Timely;
      TickFile(w.file, TickRecords(w.prev, cur, w.file, now), now);
    case DaemonClose(targets, reason, now, a) =>
      hide TakeAll, FileAfter, Steps, Logged, LostIn, WindowIds, MaxId, ActsOn, Cleans;
      ArchiveFile(TakeAll(w.prev, targets), w.file, reason, now, a);
    case OutsideArchive(snap, targets, reason, now, a) =>
      hide TakeAll, FileAfter, Steps, Logged, LostIn, WindowIds, MaxId, ActsOn, Cleans, Locates;
      ArchiveFile(TakeAll(snap, targets), w.file, reason, now, a);
  }

  ghost predicate OnFile(file: seq<ClosedEntry>, id: WindowId) {
    exists e, v :: e in file && v in e.session.windows && v.id == id
  }

  ghost predicate OnFileAfter(w: World, events: seq<Event>, id: WindowId, k: nat) {
    k <= |events| && OnFile(Run(w, events[..k]).file, id)
  }

  lemma {:induction false} LaterToo(w: World, events: seq<Event>, id: WindowId, k: nat)
    requires events != [] && OnFileAfter(w, Front(events), id, k)
    ensures OnFileAfter(w, events, id, k)
  {
    hide Run, OnFile;
    assert events[..k] == Front(events)[..k];
  }

  lemma {:induction false} AtTheEnd(w: World, events: seq<Event>, id: WindowId)
    requires OnFile(Run(w, events).file, id)
    ensures OnFileAfter(w, events, id, |events|)
  {
    hide Run, OnFile;
    assert events[..|events|] == events;
  }

  /** A window counted as recorded in a run was in the history file at some point
      of it. */
  lemma {:induction false} RecordedWasOnFile(w: World, events: seq<Event>, id: WindowId)
    requires AllowedRun(w, events) && Times(Run(w, events), id) > Times(w, id)
    ensures exists k: nat :: OnFileAfter(w, events, id, k)
  {
    assert events != [];
    var init, e := Front(events), Last(events);
    var before, n, added := Run(w, init), Run(w, events), Adds(Run(w, init), e);
    assert n == Next(before, e) && Allowed(before, e) && AllowedRun(w, init);
    hide *;
    LoggedIsOnFile(before, e);
    TimesAfter(before, n, added, id);
    if Times(before, id) > Times(w, id) {
      RecordedWasOnFile(w, init, id);
      var k: nat :| OnFileAfter(w, init, id, k);
      LaterToo(w, events, id, k);
    } else {
      CountPositive(AllWindows(Sessions(added)), id);
      var p :| p in AllWindows(Sessions(added)) && p.window.id == id;
      AddedIsOnFile(before, e, p);
      AtTheEnd(w, events, id);
    }
  }

  lemma {:induction false} AddedIsOnFile(w: World, e: Event, p: Placed)
    requires Allowed(w, e) && p in AllWindows(Sessions(Adds(w, e)))
    ensures OnFile(Next(w, e).file, p.window.id)
  {
    var n, added := Next(w, e), Adds(w, e);
    hide Adds, AllWindows, Next, Allowed;
    LoggedIsOnFile(w, e);
    var i := EntryOf(added, p);
    NoAdditions(w, e);
    var j := |n.file| - |added| + i;
    assert Holding(n.file[j], added[i], if e.Tick? then Manual else e.reason, e.now);
    assert n.file[j] in n.file && p.window in n.file[j].session.windows;
  }

  lemma {:induction false} NoAdditions(w: World, e: Event)
    ensures e.Change? || e.Skipped? || e.Reopen? ==> Adds(w, e) == []
  {
  }
}
