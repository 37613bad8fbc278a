/** The history of closed windows and sessions (src/snapshot.rs): what vanished
    between two snapshots, the bounded list it is appended to, and taking a
    target out of a snapshot. */
module ClosedHistory {
  import opened Wrappers
  import opened Inventory
  import opened Snapshots

  datatype ClosedKind = WholeSession | OneWindow

  datatype CloseReason = Manual | AutoClose

  /** A closed session, or its session holding only the closed window. */
  datatype Closed = Closed(kind: ClosedKind, session: SessionSnap)

  datatype ClosedEntry =
    ClosedEntry(id: nat, kind: ClosedKind, reason: CloseReason, closedAt: nat, session: SessionSnap)

  const CLOSED_MAX: nat := 100
  const CLOSED_MAX_AGE: nat := 7 * 86400

  // ---- Windows of a list of sessions ---------------------------------------

  /** A window and the session listing it. */
  datatype Placed = Placed(session: string, window: WindowSnap)

  function Place(session: string, ws: seq<WindowSnap>): (ps: seq<Placed>)
    ensures |ps| == |ws| && forall i :: 0 <= i < |ws| ==> ps[i] == Placed(session, ws[i])
  {
    if ws == [] then [] else Place(session, Front(ws)) + [Placed(session, Last(ws))]
  }

  function AllWindows(ss: seq<SessionSnap>): seq<Placed> {
    if ss == [] then [] else AllWindows(Front(ss)) + Place(Last(ss).name, Last(ss).windows)
  }

  function Sessions(cs: seq<Closed>): (ss: seq<SessionSnap>)
    ensures |ss| == |cs| && forall i :: 0 <= i < |cs| ==> ss[i] == cs[i].session
  {
    if cs == [] then [] else Sessions(Front(cs)) + [Last(cs).session]
  }

  lemma {:induction false} AllWindowsAppend(a: seq<SessionSnap>, b: seq<SessionSnap>)
    ensures AllWindows(a + b) == AllWindows(a) + AllWindows(b)
  {
    if b == [] {
      assert a + b == a;
    } else {
      var s := Last(b);
      assert Front(a + b) == a + Front(b) && Last(a + b) == s;
      assert AllWindows(a + b) == AllWindows(a + Front(b)) + Place(s.name, s.windows);
      assert AllWindows(b) == AllWindows(Front(b)) + Place(s.name, s.windows);
      hide *;
      AllWindowsAppend(a, Front(b));
    }
  }

  lemma {:induction false} SessionsAppend(a: seq<Closed>, b: seq<Closed>)
    ensures Sessions(a + b) == Sessions(a) + Sessions(b)
  {
  }

  // ---- What vanished between two snapshots ---------------------------------

  function Gone(ws: seq<WindowSnap>, live: set<WindowId>): seq<WindowSnap> {
    if ws == [] then [] else
    if Last(ws).id in live then Gone(Front(ws), live) else Gone(Front(ws), live) + [Last(ws)]
  }

  function OneByOne(s: SessionSnap, ws: seq<WindowSnap>): (cs: seq<Closed>)
    ensures |cs| == |ws| && forall i :: 0 <= i < |ws| ==> cs[i] == Closed(OneWindow, s.(windows := [ws[i]]))
  {
    if ws == [] then [] else OneByOne(s, Front(ws)) + [Closed(OneWindow, s.(windows := [Last(ws)]))]
  }

  function ClosedOf(s: SessionSnap, live: set<WindowId>, names: set<string>): seq<Closed> {
    var gone := Gone(s.windows, live);
    if gone == [] then []
    else if |gone| == |s.windows| && s.name !in names then [Closed(WholeSession, s)]
    else OneByOne(s, gone)
  }

  function ClosedAmong(ss: seq<SessionSnap>, live: set<WindowId>, names: set<string>): seq<Closed> {
    if ss == [] then [] else ClosedAmong(Front(ss), live, names) + ClosedOf(Last(ss), live, names)
  }

  function WindowIds(ss: seq<SessionSnap>): (ids: set<WindowId>)
    ensures forall w :: w in ids <==> exists p :: p in AllWindows(ss) && p.window.id == w
  {
    set p | p in AllWindows(ss) :: p.window.id
  }

  function Names(ss: seq<SessionSnap>): set<string> {
    set s | s in ss :: s.name
  }

  method Vanished(ws: seq<WindowSnap>, live: set<WindowId>) returns (gone: seq<WindowSnap>)
    ensures gone == Gone(ws, live)
  {
    gone := [];
    for j := 0 to |ws|
      invariant gone == Gone(ws[..j], live)
    {
      assert Front(ws[..j + 1]) == ws[..j] && Last(ws[..j + 1]) == ws[j];
      if ws[j].id !in live {
        gone := gone + [ws[j]];
      }
    }
    assert ws[..|ws|] == ws;
  }

  method Separately(s: SessionSnap, gone: seq<WindowSnap>) returns (each: seq<Closed>)
    ensures each == OneByOne(s, gone)
  {
    each := [];
    for j := 0 to |gone|
      invariant each == OneByOne(s, gone[..j])
    {
      assert Front(gone[..j + 1]) == gone[..j] && Last(gone[..j + 1]) == gone[j];
      each := each + [Closed(OneWindow, s.(windows := [gone[j]]))];
    }
    assert gone[..|gone|] == gone;
  }

  /** Everything about the session but its windows is the same. */
  ghost predicate SameHead(a: SessionSnap, b: SessionSnap) {
    a.name == b.name && a.category == b.category && a.env == b.env
  }

  /** The entry is one of the sessions with all its windows, or it with one of
      them, and what it holds is gone. */
  ghost predicate VanishedFrom(ss: seq<SessionSnap>, live: set<WindowId>, names: set<string>, c: Closed) {
    exists s :: s in ss && GoneFrom(s, live, names, c)
  }

  ghost predicate GoneFrom(s: SessionSnap, live: set<WindowId>, names: set<string>, c: Closed) {
    && SameHead(c.session, s) && c.session.windows != []
    && (forall v :: v in c.session.windows ==> v in s.windows && v.id !in live)
    && match c.kind
       case WholeSession => c.session.windows == s.windows && s.name !in names
       case OneWindow => |c.session.windows| == 1
  }

  lemma {:induction false} GoneMembers(ws: seq<WindowSnap>, live: set<WindowId>)
    ensures forall v :: v in Gone(ws, live) ==> v in ws && v.id !in live
  {
    if ws != [] {
      GoneMembers(Front(ws), live);
      FrontLast(ws);
    }
  }

  lemma {:induction false} ClosedOfSession(s: SessionSnap, live: set<WindowId>, names: set<string>)
    ensures forall c :: c in ClosedOf(s, live, names) ==> GoneFrom(s, live, names, c)
  {
    GoneMembers(s.windows, live);
    GoneIsAll(s.windows, live);
    hide Gone;
    var gone := Gone(s.windows, live);
    if !(|gone| == |s.windows| && s.name !in names) {
      forall c | c in OneByOne(s, gone)
        ensures GoneFrom(s, live, names, c)
      {
        var i :| 0 <= i < |gone| && OneByOne(s, gone)[i] == c;
        assert c.session.windows == [gone[i]] && gone[i] in gone;
      }
    }
  }

  /** What vanished is archived with its session's name, category and environment. */
  lemma {:induction false} VanishedCarry(ss: seq<SessionSnap>, live: set<WindowId>, names: set<string>)
    ensures forall c :: c in ClosedAmong(ss, live, names) ==> VanishedFrom(ss, live, names, c)
  {
    if ss != [] {
      hide ClosedOf, GoneFrom;
      VanishedCarry(Front(ss), live, names);
      ClosedOfSession(Last(ss), live, names);
      assert forall s :: s in Front(ss) ==> s in ss;
      assert Last(ss) in ss;
    }
  }

  /** Windows of `prev` gone from `cur`, by id; a session that vanished with all
      its windows is one entry. */
  method ClosedBetween(prev: seq<SessionSnap>, cur: seq<SessionSnap>) returns (out: seq<Closed>)
    ensures out == ClosedAmong(prev, WindowIds(cur), Names(cur))
    ensures forall c :: c in out ==> VanishedFrom(prev, WindowIds(cur), Names(cur), c)
  {
    VanishedCarry(prev, WindowIds(cur), Names(cur));
    var live := WindowIds(cur);
    var names := Names(cur);
    out := [];
    for i := 0 to |prev|
      invariant out == ClosedAmong(prev[..i], live, names)
    {
      assert Front(prev[..i + 1]) == prev[..i] && Last(prev[..i + 1]) == prev[i];
      var s := prev[i];
      var gone := Vanished(s.windows, live);
      if gone == [] {
        continue;
      }
      if |gone| == |s.windows| && s.name !in names {
        out := out + [Closed(WholeSession, s)];
        continue;
      }
      var each := Separately(s, gone);
      out := out + each;
    }
    assert prev[..|prev|] == prev;
  }

  /** The placed windows that are not live, in order. */
  function Dead(ps: seq<Placed>, live: set<WindowId>): seq<Placed> {
    if ps == [] then [] else
    if Last(ps).window.id in live then Dead(Front(ps), live) else Dead(Front(ps), live) + [Last(ps)]
  }

  lemma {:induction false} DeadAppend(a: seq<Placed>, b: seq<Placed>, live: set<WindowId>)
    ensures Dead(a + b, live) == Dead(a, live) + Dead(b, live)
  {
    if b == [] {
      assert a + b == a;
    } else {
      DeadAppend(a, Front(b), live);
      assert Front(a + b) == a + Front(b);
    }
  }

  lemma {:induction false} DeadLast(ps: seq<Placed>, p: Placed, live: set<WindowId>)
    ensures Dead(ps + [p], live) == if p.window.id in live then Dead(ps, live) else Dead(ps, live) + [p]
  {
    assert Front(ps + [p]) == ps && Last(ps + [p]) == p;
  }

  lemma {:induction false} DeadOfSession(session: string, ws: seq<WindowSnap>, live: set<WindowId>)
    ensures Dead(Place(session, ws), live) == Place(session, Gone(ws, live))
    ensures |Gone(ws, live)| == |ws| ==> Gone(ws, live) == ws
    ensures |Gone(ws, live)| <= |ws|
  {
    if ws != [] {
      var v, front := Last(ws), Front(ws);
      var gone := Gone(front, live);
      assert front + [v] == ws;
      assert Gone(ws, live) == if v.id in live then gone else gone + [v];
      assert Place(session, ws) == Place(session, front) + [Placed(session, v)];
      assert Place(session, gone + [v]) == Place(session, gone) + [Placed(session, v)];
      hide *;
      DeadOfSession(session, front, live);
      DeadLast(Place(session, front), Placed(session, v), live);
    }
  }

  lemma {:induction false} WindowsOneByOne(s: SessionSnap, ws: seq<WindowSnap>)
    ensures AllWindows(Sessions(OneByOne(s, ws))) == Place(s.name, ws)
  {
    if ws == [] {
    } else {
      WindowsOneByOne(s, Front(ws));
      var one := s.(windows := [Last(ws)]);
      assert Sessions(OneByOne(s, ws)) == Sessions(OneByOne(s, Front(ws))) + [one];
      AllWindowsAppend(Sessions(OneByOne(s, Front(ws))), [one]);
      assert Front([one]) == [] && Place(s.name, [Last(ws)]) == [Placed(s.name, Last(ws))];
    }
  }

  lemma {:induction false} ClosedOfWindows(s: SessionSnap, live: set<WindowId>, names: set<string>)
    ensures AllWindows(Sessions(ClosedOf(s, live, names))) == Dead(Place(s.name, s.windows), live)
  {
    DeadOfSession(s.name, s.windows, live);
    var gone := Gone(s.windows, live);
    if gone != [] && |gone| == |s.windows| && s.name !in names {
      assert Sessions([Closed(WholeSession, s)]) == [s] && Front([s]) == [];
    } else {
      WindowsOneByOne(s, gone);
    }
  }

  /** The entries hold exactly the vanished windows, each once, in order, under
      the session that last held it. */
  lemma {:induction false} ClosedAmongWindows(ss: seq<SessionSnap>, live: set<WindowId>, names: set<string>)
    ensures AllWindows(Sessions(ClosedAmong(ss, live, names))) == Dead(AllWindows(ss), live)
  {
    if ss != [] {
      var s := Last(ss);
      hide ClosedOf, Dead;
      ClosedAmongWindows(Front(ss), live, names);
      ClosedOfWindows(s, live, names);
      SessionsAppend(ClosedAmong(Front(ss), live, names), ClosedOf(s, live, names));
      AllWindowsAppend(Sessions(ClosedAmong(Front(ss), live, names)), Sessions(ClosedOf(s, live, names)));
      DeadAppend(AllWindows(Front(ss)), Place(s.name, s.windows), live);
    } else {
      assert AllWindows(Sessions([])) == [];
    }
  }

  /** A vanished session is one entry exactly when its name is gone and none of
      its windows lives on elsewhere. */
  lemma {:induction false} WholeSessionEntry(s: SessionSnap, live: set<WindowId>, names: set<string>)
    requires s.windows != []
    ensures ClosedOf(s, live, names) == [Closed(WholeSession, s)]
            <==> s.name !in names && forall w :: w in s.windows ==> w.id !in live
  {
    DeadOfSession(s.name, s.windows, live);
    GoneIsAll(s.windows, live);
  }

  lemma {:induction false} GoneIsAll(ws: seq<WindowSnap>, live: set<WindowId>)
    ensures |Gone(ws, live)| <= |ws|
    ensures |Gone(ws, live)| == |ws| <==> forall w :: w in ws ==> w.id !in live
  {
    if ws != [] {
      GoneIsAll(Front(ws), live);
      assert ws == Front(ws) + [Last(ws)];
    }
  }

  // ---- Recording -----------------------------------------------------------

  function MaxId(history: seq<ClosedEntry>): (m: nat)
    ensures forall e :: e in history ==> e.id <= m
  {
    if history == [] then 0 else
    assert history == Front(history) + [Last(history)];
    var m := MaxId(Front(history));
    if Last(history).id > m then Last(history).id else m
  }

  function Stamped(closed: seq<Closed>, reason: CloseReason, now: nat, after: nat): (es: seq<ClosedEntry>)
    ensures |es| == |closed|
    ensures forall i :: 0 <= i < |es| ==>
              es[i] == ClosedEntry(after + 1 + i, closed[i].kind, reason, now, closed[i].session)
  {
    seq(|closed|, i requires 0 <= i < |closed| =>
      ClosedEntry(after + 1 + i, closed[i].kind, reason, now, closed[i].session))
  }

  predicate Young(e: ClosedEntry, now: nat) {
    Elapsed(now, e.closedAt) < CLOSED_MAX_AGE
  }

  function Retain(history: seq<ClosedEntry>, now: nat): seq<ClosedEntry> {
    if history == [] then [] else
    if Young(Last(history), now) then Retain(Front(history), now) + [Last(history)] else Retain(Front(history), now)
  }

  function Newest(history: seq<ClosedEntry>, n: nat): seq<ClosedEntry> {
    if |history| <= n then history else history[|history| - n..]
  }

  function Recorded(history: seq<ClosedEntry>, closed: seq<Closed>, reason: CloseReason, now: nat): seq<ClosedEntry> {
    Newest(Retain(history + Stamped(closed, reason, now, MaxId(history)), now), CLOSED_MAX)
  }

  /** Append closed targets, then keep the newest young entries. */
  method RecordClosed(before: seq<ClosedEntry>, closed: seq<Closed>, reason: CloseReason, now: nat)
    returns (history: seq<ClosedEntry>, ids: seq<nat>)
    ensures history == Recorded(before, closed, reason, now)
    ensures |ids| == |closed| && forall i :: 0 <= i < |ids| ==> ids[i] == MaxId(before) + 1 + i
  {
    history := before;
    var last := Highest(before);
    ids := seq(|closed|, i requires 0 <= i => last + 1 + i);
    for i := 0 to |closed|
      invariant history == before + Stamped(closed[..i], reason, now, last)
    {
      history := history + [ClosedEntry(ids[i], closed[i].kind, reason, now, closed[i].session)];
    }
    assert closed[..|closed|] == closed;
    history := KeepYoung(history, now);
    var excess := if |history| < CLOSED_MAX then 0 else |history| - CLOSED_MAX;
    history := history[excess..];
  }

  method Highest(history: seq<ClosedEntry>) returns (m: nat)
    ensures m == MaxId(history)
  {
    m := 0;
    for i := 0 to |history|
      invariant m == MaxId(history[..i])
    {
      assert Front(history[..i + 1]) == history[..i] && Last(history[..i + 1]) == history[i];
      if history[i].id > m {
        m := history[i].id;
      }
    }
    assert history[..|history|] == history;
  }

  method KeepYoung(history: seq<ClosedEntry>, now: nat) returns (kept: seq<ClosedEntry>)
    ensures kept == Retain(history, now)
  {
    kept := [];
    for i := 0 to |history|
      invariant kept == Retain(history[..i], now)
    {
      assert Front(history[..i + 1]) == history[..i] && Last(history[..i + 1]) == history[i];
      if Young(history[i], now) {
        kept := kept + [history[i]];
      }
    }
    assert history[..|history|] == history;
  }

  lemma {:induction false} RetainAppend(a: seq<ClosedEntry>, b: seq<ClosedEntry>, now: nat)
    ensures Retain(a + b, now) == Retain(a, now) + Retain(b, now)
  {
    if b == [] {
      assert a + b == a;
    } else {
      RetainAppend(a, Front(b), now);
      assert Front(a + b) == a + Front(b);
    }
  }

  lemma {:induction false} RetainMembers(es: seq<ClosedEntry>, now: nat)
    ensures forall e :: e in Retain(es, now) <==> e in es && Young(e, now)
  {
    hide Young;
    if es != [] {
      RetainMembers(Front(es), now);
      assert es == Front(es) + [Last(es)];
    }
  }

  lemma {:induction false} RetainAllYoung(es: seq<ClosedEntry>, now: nat)
    requires forall i :: 0 <= i < |es| ==> Young(es[i], now)
    ensures Retain(es, now) == es
  {
    if es != [] {
      var front := Front(es);
      hide Young;
      RetainAllYoung(front, now);
      hide *;
      FrontLast(es);
    }
  }

  /** `part` is the newest end of `whole`. */
  ghost predicate Suffix<T>(part: seq<T>, whole: seq<T>) {
    |part| <= |whole| && part == whole[|whole| - |part|..]
  }

  ghost predicate DistinctIds(history: seq<ClosedEntry>) {
    forall i, j :: 0 <= i < j < |history| ==> history[i].id != history[j].id
  }

  /** At most a hundred closes: the new entries all stay, in order, after the
      newest of the old ones that are still young. */
  lemma {:induction false} RecordedShape(history: seq<ClosedEntry>, closed: seq<Closed>, reason: CloseReason, now: nat)
    requires |closed| <= CLOSED_MAX
    ensures var r, added := Recorded(history, closed, reason, now), Stamped(closed, reason, now, MaxId(history));
            && |added| <= |r| && r[|r| - |added|..] == added
            && Suffix(r[..|r| - |added|], Retain(history, now))
  {
    hide Retain, Young, MaxId;
    StampedStay(history, closed, reason, now);
    NewestOfTwo(Retain(history, now), Stamped(closed, reason, now, MaxId(history)), CLOSED_MAX);
  }

  /** Entries are dropped for no other reason: while a hundred are enough, all that
      are under seven days old stay. */
  lemma {:induction false} RoomForAll(history: seq<ClosedEntry>, closed: seq<Closed>, reason: CloseReason, now: nat)
    requires |history| + |closed| <= 100
    requires forall i :: 0 <= i < |history| ==> Elapsed(now, history[i].closedAt) < 604800
    ensures Recorded(history, closed, reason, now) == history + Stamped(closed, reason, now, MaxId(history))
  {
    hide MaxId;
    RetainAllYoung(history + Stamped(closed, reason, now, MaxId(history)), now);
    hide Retain;
  }

  lemma {:induction false} NewestOfTwo(a: seq<ClosedEntry>, b: seq<ClosedEntry>, n: nat)
    requires |b| <= n
    ensures var r := Newest(a + b, n);
            |b| <= |r| && r[|r| - |b|..] == b && Suffix(r[..|r| - |b|], a)
  {
  }

  /** More than a hundred closes: only the last hundred are recorded. */
  lemma {:induction false} RecordedOverflow(history: seq<ClosedEntry>, closed: seq<Closed>, reason: CloseReason,
        now: nat)
    requires |closed| > CLOSED_MAX
    ensures var added := Stamped(closed, reason, now, MaxId(history));
            Recorded(history, closed, reason, now) == added[|added| - CLOSED_MAX..]
  {
    hide Retain, Young, MaxId;
    StampedStay(history, closed, reason, now);
    NewestOfSecond(Retain(history, now), Stamped(closed, reason, now, MaxId(history)), CLOSED_MAX);
  }

  lemma {:induction false} StampedStay(history: seq<ClosedEntry>, closed: seq<Closed>, reason: CloseReason, now: nat)
    ensures var added := Stamped(closed, reason, now, MaxId(history));
            Retain(history + added, now) == Retain(history, now) + added
  {
    var added := Stamped(closed, reason, now, MaxId(history));
    RetainAppend(history, added, now);
    RetainAllYoung(added, now);
  }

  lemma {:induction false} NewestOfSecond(a: seq<ClosedEntry>, b: seq<ClosedEntry>, n: nat)
    requires |b| > n
    ensures Newest(a + b, n) == b[|b| - n..]
  {
  }

  /** The history stays within a hundred young entries with distinct ids. */
  lemma {:induction false} RecordedBounded(history: seq<ClosedEntry>, closed: seq<Closed>, reason: CloseReason,
        now: nat)
    ensures var r := Recorded(history, closed, reason, now);
            && |r| <= CLOSED_MAX
            && (forall e :: e in r ==> Young(e, now))
            && |r| <= 100 && (forall e :: e in r ==> Elapsed(now, e.closedAt) < 604800)
            && (DistinctIds(history) ==> DistinctIds(r))
  {
    var all := history + Stamped(closed, reason, now, MaxId(history));
    var kept := Retain(all, now);
    RetainMembers(all, now);
    assert forall e :: e in Newest(kept, CLOSED_MAX) ==> e in kept;
    if DistinctIds(history) {
      assert forall i :: 0 <= i < |history| ==> history[i] in history;
      assert DistinctIds(all);
      RetainDistinct(all, now);
    }
  }

  lemma {:induction false} RetainDistinct(es: seq<ClosedEntry>, now: nat)
    requires DistinctIds(es)
    ensures DistinctIds(Retain(es, now))
  {
    if es != [] {
      RetainDistinct(Front(es), now);
      RetainMembers(Front(es), now);
      assert forall i :: 0 <= i < |Retain(Front(es), now)| ==> Retain(Front(es), now)[i] in Retain(Front(es), now);
    }
  }

  // ---- Taking a target out of a snapshot -----------------------------------

  datatype Target = SessionTarget(name: string) | WindowTarget(session: string, windowId: WindowId)

  /** Position of the first session named `name`; `|ss|` when there is none. */
  function SessionAt(ss: seq<SessionSnap>, name: string): (i: nat)
    ensures i <= |ss| && (i < |ss| ==> ss[i].name == name)
    ensures forall k :: 0 <= k < i ==> ss[k].name != name
  {
    if ss == [] then 0 else if ss[0].name == name then 0 else 1 + SessionAt(ss[1..], name)
  }

  function WindowAt(ws: seq<WindowSnap>, id: WindowId): (i: nat)
    ensures i <= |ws| && (i < |ws| ==> ws[i].id == id)
    ensures forall k :: 0 <= k < i ==> ws[k].id != id
  {
    if ws == [] then 0 else if ws[0].id == id then 0 else 1 + WindowAt(ws[1..], id)
  }

  function Without<T>(s: seq<T>, i: nat): seq<T>
    requires i < |s|
  {
    s[..i] + s[i + 1..]
  }

  /** Position of the first entry with this id; `|history|` when there is none. */
  function EntryAt(history: seq<ClosedEntry>, id: nat): (i: nat)
    ensures i <= |history| && (i < |history| ==> history[i].id == id)
    ensures forall k :: 0 <= k < i ==> history[k].id != id
  {
    if history == [] then 0 else if history[0].id == id then 0 else 1 + EntryAt(history[1..], id)
  }

  /** The history once entry `id` was reopened. */
  function Reopened(history: seq<ClosedEntry>, id: nat): seq<ClosedEntry> {
    var i := EntryAt(history, id);
    if i == |history| then history else Without(history, i)
  }

  datatype Taken = Taken(entry: Option<Closed>, rest: seq<SessionSnap>)

  /** Take `target` out of the sessions. */
  function TakeTarget(ss: seq<SessionSnap>, target: Target): Taken {
    match target
    case SessionTarget(name) =>
      var i := SessionAt(ss, name);
      if i == |ss| then Taken(None, ss) else Taken(Some(Closed(WholeSession, ss[i])), Without(ss, i))
    case WindowTarget(session, id) =>
      var i := SessionAt(ss, session);
      if i == |ss| then Taken(None, ss) else
      var s := ss[i];
      var j := WindowAt(s.windows, id);
      if j == |s.windows| then Taken(None, ss) else
      Taken(Some(Closed(OneWindow, s.(windows := [s.windows[j]]))), ss[i := s.(windows := Without(s.windows, j))])
  }

  // ---- What a taken entry holds --------------------------------------------

  /** `part` is some elements of `whole`, in order. */
  ghost predicate Within<T>(part: seq<T>, whole: seq<T>) {
    exists at: seq<nat> :: WithinAt(part, whole, at)
  }

  ghost predicate WithinAt<T>(part: seq<T>, whole: seq<T>, at: seq<nat>) {
    && |at| == |part|
    && (forall k :: 0 <= k < |at| ==> at[k] < |whole| && part[k] == whole[at[k]])
    && (forall j, k :: 0 <= j < k < |at| ==> at[j] < at[k])
  }

  lemma {:induction false} WithinItself<T>(s: seq<T>)
    ensures Within(s, s)
  {
    assert WithinAt(s, s, seq(|s|, i => i));
  }

  lemma {:induction false} WithoutIsWithin<T>(s: seq<T>, i: nat)
    requires i < |s|
    ensures Within(Without(s, i), s)
  {
    assert WithinAt(Without(s, i), s, seq(|s| - 1, k requires 0 <= k => if k < i then k else k + 1));
  }

  lemma {:induction false} WithinTwice<T>(a: seq<T>, b: seq<T>, c: seq<T>)
    requires Within(a, b) && Within(b, c)
    ensures Within(a, c)
  {
    var f: seq<nat> :| WithinAt(a, b, f);
    var g: seq<nat> :| WithinAt(b, c, g);
    assert WithinAt(a, c, seq(|f|, k requires 0 <= k < |f| => g[f[k]]));
  }

  /** The session target's first session is taken out as it is. */
  ghost predicate SessionOut(ss: seq<SessionSnap>, name: string, t: Taken, i: nat) {
    && i < |ss| && ss[i].name == name && (forall k :: 0 <= k < i ==> ss[k].name != name)
    && t.entry.Some? && t.entry.value.kind == WholeSession && t.entry.value.session == ss[i]
    && t.rest == ss[..i] + ss[i + 1..]
  }

  /** The window is taken out of its session, which keeps everything else; the
      entry is that session with this window alone. */
  ghost predicate WindowOut(ss: seq<SessionSnap>, session: string, id: WindowId, t: Taken, i: nat, j: nat) {
    && i < |ss| && ss[i].name == session && (forall k :: 0 <= k < i ==> ss[k].name != session)
    && j < |ss[i].windows| && ss[i].windows[j].id == id
    && t.entry.Some? && t.entry.value.kind == OneWindow
    && SameHead(t.entry.value.session, ss[i]) && t.entry.value.session.windows == [ss[i].windows[j]]
    && |t.rest| == |ss| && (forall k :: 0 <= k < |ss| && k != i ==> t.rest[k] == ss[k])
    && SameHead(t.rest[i], ss[i]) && t.rest[i].windows == ss[i].windows[..j] + ss[i].windows[j + 1..]
  }

  /** Nothing is taken, there being no such session or no such window in it. */
  ghost predicate NothingOut(ss: seq<SessionSnap>, target: Target, t: Taken) {
    && t.entry == None && t.rest == ss
    && match target
       case SessionTarget(name) => forall k :: 0 <= k < |ss| ==> ss[k].name != name
       case WindowTarget(session, id) =>
         forall i :: 0 <= i < |ss| && ss[i].name == session && (forall k :: 0 <= k < i ==> ss[k].name != session) ==>
           forall v :: v in ss[i].windows ==> v.id != id
  }

  ghost predicate TakenOut(ss: seq<SessionSnap>, target: Target, t: Taken) {
    || NothingOut(ss, target, t)
    || (target.SessionTarget? && exists i: nat :: SessionOut(ss, target.name, t, i))
    || (target.WindowTarget? && exists i: nat, j: nat :: WindowOut(ss, target.session, target.windowId, t, i, j))
  }

  lemma {:induction false} TakeTargetTakes(ss: seq<SessionSnap>, target: Target)
    ensures TakenOut(ss, target, TakeTarget(ss, target))
  {
    var t := TakeTarget(ss, target);
    var i := SessionAt(ss, if target.SessionTarget? then target.name else target.session);
    if i < |ss| && target.SessionTarget? {
      assert SessionOut(ss, target.name, t, i);
    } else if i < |ss| {
      var j := WindowAt(ss[i].windows, target.windowId);
      if j < |ss[i].windows| {
        assert WindowOut(ss, target.session, target.windowId, t, i, j);
      } else {
        assert NothingOut(ss, target, t);
      }
    }
  }

  /** What is left of a session: some of its windows, in order, and all else. */
  ghost predicate Trimmed(s: SessionSnap, left: SessionSnap) {
    SameHead(left, s) && Within(left.windows, s.windows)
  }

  /** The entry holds windows of a listed session, with its name, category and
      environment; a window target's holds that window alone. */
  ghost predicate EntryFits(ss: seq<SessionSnap>, target: Target, c: Closed) {
    exists s :: s in ss && Trimmed(s, c.session) && EntryNames(s, target, c)
  }

  ghost predicate EntryNames(s: SessionSnap, target: Target, c: Closed) {
    match target
    case SessionTarget(name) => c.kind == WholeSession && s.name == name
    case WindowTarget(session, id) =>
      c.kind == OneWindow && s.name == session && |c.session.windows| == 1 && c.session.windows[0].id == id
  }

  ghost predicate RestFits(ss: seq<SessionSnap>, rest: seq<SessionSnap>) {
    exists at: seq<nat> :: RestAt(ss, rest, at)
  }

  ghost predicate RestAt(ss: seq<SessionSnap>, rest: seq<SessionSnap>, at: seq<nat>) {
    && |at| == |rest|
    && (forall k :: 0 <= k < |at| ==> at[k] < |ss| && Trimmed(ss[at[k]], rest[k]))
    && (forall j, k :: 0 <= j < k < |at| ==> at[j] < at[k])
  }

  /** Every entry fits its target, and what is left is the sessions in order, each
      with some of its windows. */
  ghost predicate HaulFits(ss: seq<SessionSnap>, h: Haul) {
    |h.targets| == |h.entries| && RestFits(ss, h.rest)
    && forall k :: 0 <= k < |h.entries| ==> EntryFits(ss, h.targets[k], h.entries[k])
  }

  lemma {:induction false} TrimmedTwice(a: SessionSnap, b: SessionSnap, c: SessionSnap)
    requires Trimmed(a, b) && Trimmed(b, c)
    ensures Trimmed(a, c)
  {
    hide Within;
    WithinTwice(c.windows, b.windows, a.windows);
  }

  lemma {:induction false} TrimmedItself(s: SessionSnap)
    ensures Trimmed(s, s)
  {
    WithinItself(s.windows);
  }

  lemma {:induction false} RestItself(ss: seq<SessionSnap>)
    ensures RestFits(ss, ss)
  {
    hide Trimmed, RestFits;
    forall k | 0 <= k < |ss|
      ensures Trimmed(ss[k], ss[k])
    {
      TrimmedItself(ss[k]);
    }
    EachTrimmed(ss, ss);
  }

  lemma {:induction false} SessionFits(ss: seq<SessionSnap>, name: string, t: Taken, i: nat)
    requires SessionOut(ss, name, t, i)
    ensures RestFits(ss, t.rest) && t.entry.Some? && EntryFits(ss, SessionTarget(name), t.entry.value)
  {
    hide Trimmed;
    forall s: SessionSnap
      ensures Trimmed(s, s)
    {
      TrimmedItself(s);
    }
    assert RestAt(ss, t.rest, seq(|ss| - 1, k requires 0 <= k => if k < i then k else k + 1));
    assert ss[i] in ss;
  }

  lemma {:induction false} WindowFits(ss: seq<SessionSnap>, session: string, id: WindowId, t: Taken, i: nat, j: nat)
    requires WindowOut(ss, session, id, t, i, j)
    ensures RestFits(ss, t.rest) && t.entry.Some? && EntryFits(ss, WindowTarget(session, id), t.entry.value)
  {
    var one := t.entry.value.session;
    WithoutIsWithin(ss[i].windows, j);
    OneIsWithin(ss[i].windows, j);
    hide Within;
    assert Trimmed(ss[i], t.rest[i]) && Trimmed(ss[i], one);
    assert ss[i] in ss && EntryNames(ss[i], WindowTarget(session, id), t.entry.value);
    hide Trimmed, SameHead, EntryNames;
    forall k | 0 <= k < |ss|
      ensures Trimmed(ss[k], t.rest[k])
    {
      TrimmedItself(ss[k]);
    }
    EachTrimmed(ss, t.rest);
  }

  lemma {:induction false} EachTrimmed(ss: seq<SessionSnap>, rest: seq<SessionSnap>)
    requires |rest| == |ss| && forall k :: 0 <= k < |ss| ==> Trimmed(ss[k], rest[k])
    ensures RestFits(ss, rest)
  {
    hide Trimmed;
    assert RestAt(ss, rest, seq(|ss|, k => k));
  }

  lemma {:induction false} OneTaken(ss: seq<SessionSnap>, target: Target)
    ensures var t := TakeTarget(ss, target);
            && RestFits(ss, t.rest)
            && (t.entry.Some? ==> EntryFits(ss, target, t.entry.value))
  {
    var t := TakeTarget(ss, target);
    TakeTargetTakes(ss, target);
    hide TakeTarget, SessionOut, WindowOut, RestFits, EntryFits;
    if NothingOut(ss, target, t) {
      RestItself(ss);
    } else if target.SessionTarget? {
      var i: nat :| SessionOut(ss, target.name, t, i);
      SessionFits(ss, target.name, t, i);
    } else {
      var i: nat, j: nat :| WindowOut(ss, target.session, target.windowId, t, i, j);
      WindowFits(ss, target.session, target.windowId, t, i, j);
    }
  }

  lemma {:induction false} OneIsWithin<T>(s: seq<T>, j: nat)
    requires j < |s|
    ensures Within([s[j]], s)
  {
    assert WithinAt([s[j]], s, [j]);
  }

  lemma {:induction false} RestTwice(a: seq<SessionSnap>, b: seq<SessionSnap>, c: seq<SessionSnap>)
    requires RestFits(a, b) && RestFits(b, c)
    ensures RestFits(a, c)
  {
    var f: seq<nat> :| RestAt(a, b, f);
    var g: seq<nat> :| RestAt(b, c, g);
    var at := seq(|g|, k requires 0 <= k < |g| => f[g[k]]);
    hide Trimmed;
    forall k | 0 <= k < |at|
      ensures at[k] < |a| && Trimmed(a[at[k]], c[k])
    {
      TrimmedTwice(a[at[k]], b[g[k]], c[k]);
    }
    assert RestAt(a, c, at);
  }

  /** An entry of what is left is one of the whole. */
  lemma {:induction false} EntryOfRest(ss: seq<SessionSnap>, rest: seq<SessionSnap>, target: Target, c: Closed)
    requires RestFits(ss, rest) && EntryFits(rest, target, c)
    ensures EntryFits(ss, target, c)
  {
    var at: seq<nat> :| RestAt(ss, rest, at);
    var s :| s in rest && Trimmed(s, c.session) && EntryNames(s, target, c);
    var k :| 0 <= k < |rest| && rest[k] == s;
    TrimmedTwice(ss[at[k]], s, c.session);
    assert ss[at[k]] in ss;
    hide Within;
  }

  /** The entries carry their sessions' name, category and environment, and only
      windows leave the snapshot. */
  lemma {:induction false} TakeAllFits(ss: seq<SessionSnap>, targets: seq<Target>)
    ensures HaulFits(ss, TakeAll(ss, targets))
  {
    if targets == [] {
      hide RestFits;
      RestItself(ss);
    } else {
      var h, t := TakeAll(ss, Front(targets)), TakeTarget(TakeAll(ss, Front(targets)).rest, Last(targets));
      hide TakeTarget, HaulFits;
      TakeAllFits(ss, Front(targets));
      OneTaken(h.rest, Last(targets));
      if t.entry.Some? {
        HaulMore(ss, h, Last(targets), t);
      }
    }
  }

  lemma {:induction false} HaulMore(ss: seq<SessionSnap>, h: Haul, target: Target, t: Taken)
    requires HaulFits(ss, h) && RestFits(h.rest, t.rest)
    requires t.entry.Some? && EntryFits(h.rest, target, t.entry.value)
    ensures HaulFits(ss, Haul(h.targets + [target], h.entries + [t.entry.value], t.rest))
  {
    hide RestFits, EntryFits;
    RestTwice(ss, h.rest, t.rest);
    EntryOfRest(ss, h.rest, target, t.entry.value);
  }

  lemma {:induction false} PlaceAppend(session: string, a: seq<WindowSnap>, b: seq<WindowSnap>)
    ensures Place(session, a + b) == Place(session, a) + Place(session, b)
  {
  }

  lemma {:induction false} AllWindowsSplit(ss: seq<SessionSnap>, i: nat)
    requires i < |ss|
    ensures AllWindows(ss) == AllWindows(ss[..i]) + Place(ss[i].name, ss[i].windows) + AllWindows(ss[i + 1..])
  {
    assert ss == ss[..i] + ([ss[i]] + ss[i + 1..]);
    AllWindowsAppend(ss[..i], [ss[i]] + ss[i + 1..]);
    AllWindowsAppend([ss[i]], ss[i + 1..]);
    AllWindowsOne(ss[i]);
  }

  lemma {:induction false} AllWindowsOne(s: SessionSnap)
    ensures AllWindows([s]) == Place(s.name, s.windows)
  {
    assert Front([s]) == [];
  }

  lemma {:induction false} SessionTaken(ss: seq<SessionSnap>, i: nat)
    requires i < |ss|
    ensures multiset(AllWindows(ss)) == multiset(AllWindows(Without(ss, i))) + multiset(AllWindows([ss[i]]))
  {
    hide AllWindows;
    AllWindowsSplit(ss, i);
    AllWindowsAppend(ss[..i], ss[i + 1..]);
    AllWindowsOne(ss[i]);
  }

  lemma {:induction false} PlaceSplit(session: string, ws: seq<WindowSnap>, j: nat)
    requires j < |ws|
    ensures multiset(Place(session, ws)) == multiset(Place(session, Without(ws, j))) + multiset(Place(session, [ws[j]]))
  {
    hide Place;
    assert ws == ws[..j] + ([ws[j]] + ws[j + 1..]);
    PlaceAppend(session, ws[..j], [ws[j]] + ws[j + 1..]);
    PlaceAppend(session, [ws[j]], ws[j + 1..]);
    PlaceAppend(session, ws[..j], ws[j + 1..]);
  }

  lemma {:induction false} WindowTaken(ss: seq<SessionSnap>, i: nat, j: nat)
    requires i < |ss| && j < |ss[i].windows|
    ensures var s := ss[i];
            multiset(AllWindows(ss)) == multiset(AllWindows(ss[i := s.(windows := Without(s.windows, j))]))
                                        + multiset(AllWindows([s.(windows := [s.windows[j]])]))
  {
    var s := ss[i];
    var left := s.(windows := Without(s.windows, j));
    var rest := ss[i := left];
    assert rest[..i] == ss[..i] && rest[i + 1..] == ss[i + 1..];
    hide AllWindows, Place, Without;
    AllWindowsSplit(ss, i);
    AllWindowsSplit(rest, i);
    PlaceSplit(s.name, s.windows, j);
    AllWindowsOne(s.(windows := [s.windows[j]]));
  }

  /** Taking a target moves its windows from the snapshot into the entry: none
      is lost, duplicated or renamed. */
  lemma {:induction false} TakeTargetConserves(ss: seq<SessionSnap>, target: Target)
    ensures var t := TakeTarget(ss, target);
            multiset(AllWindows(ss)) == multiset(AllWindows(t.rest))
              + (match t.entry case None => multiset{} case Some(c) => multiset(AllWindows([c.session])))
  {
    hide AllWindows;
    var i := SessionAt(ss, if target.SessionTarget? then target.name else target.session);
    if i < |ss| {
      SessionTaken(ss, i);
      if target.WindowTarget? && WindowAt(ss[i].windows, target.windowId) < |ss[i].windows| {
        WindowTaken(ss, i, WindowAt(ss[i].windows, target.windowId));
      }
    }
  }

  /** The targets found, in order, what each took, and what is left. */
  datatype Haul = Haul(targets: seq<Target>, entries: seq<Closed>, rest: seq<SessionSnap>)

  function TakeAll(ss: seq<SessionSnap>, targets: seq<Target>): (h: Haul)
    ensures |h.targets| == |h.entries|
  {
    if targets == [] then Haul([], [], ss) else
    var h := TakeAll(ss, Front(targets));
    var t := TakeTarget(h.rest, Last(targets));
    match t.entry
    case None => h
    case Some(c) => Haul(h.targets + [Last(targets)], h.entries + [c], t.rest)
  }

  /** The windows of all entries and of what is left are those of the snapshot. */
  lemma {:induction false} TakeAllConserves(ss: seq<SessionSnap>, targets: seq<Target>)
    ensures var h := TakeAll(ss, targets);
            multiset(AllWindows(ss)) == multiset(AllWindows(h.rest)) + multiset(AllWindows(Sessions(h.entries)))
  {
    if targets == [] {
      assert AllWindows(Sessions([])) == [];
    } else {
      hide TakeTarget;
      TakeAllConserves(ss, Front(targets));
      var h := TakeAll(ss, Front(targets));
      TakeTargetConserves(h.rest, Last(targets));
      var t := TakeTarget(h.rest, Last(targets));
      if t.entry.Some? {
        SessionsAppend(h.entries, [t.entry.value]);
        assert Sessions([t.entry.value]) == [t.entry.value.session];
        AllWindowsAppend(Sessions(h.entries), [t.entry.value.session]);
      }
    }
  }

  method Take(ss: seq<SessionSnap>, targets: seq<Target>)
    returns (found: seq<Target>, entries: seq<Closed>, rest: seq<SessionSnap>)
    ensures Haul(found, entries, rest) == TakeAll(ss, targets)
    ensures HaulFits(ss, Haul(found, entries, rest))
  {
    TakeAllFits(ss, targets);
    found, entries, rest := [], [], ss;
    for i := 0 to |targets|
      invariant Haul(found, entries, rest) == TakeAll(ss, targets[..i])
    {
      assert Front(targets[..i + 1]) == targets[..i] && Last(targets[..i + 1]) == targets[i];
      var t := TakeTarget(rest, targets[i]);
      if t.entry.Some? {
        found, entries := found + [targets[i]], entries + [t.entry.value];
      }
      rest := t.rest;
    }
    assert targets[..|targets|] == targets;
  }
}
