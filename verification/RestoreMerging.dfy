/** The laws of restoring (src/restore.rs): without force exactly the missing
    windows are added, with force one per snapshot window, and exactly when a
    forced restore fails. */
module RestoreMerging {
  import opened Wrappers
  import opened Snapshots
  import opened TmuxServer
  import opened RestoreWindow
  import opened RestoreSessions
  import opened RestorePlan

  // ---- Plans ---------------------------------------------------------------

  /** How many windows of a snapshot session are to be created. */
  function WantedCount(taken: set<nat>, ws: seq<WindowSnap>, o: Options): nat {
    if ws == [] then 0 else WantedCount(taken, Front(ws), o) + if Wanted(taken, Last(ws), o) then 1 else 0
  }

  /** The indexes of the windows whose own index was free. */
  function Direct(taken: set<nat>, ws: seq<WindowSnap>): set<nat> {
    if ws == [] then {} else
    Direct(taken, Front(ws)) + if Last(ws).panes != [] && Last(ws).index !in taken then {Last(ws).index} else {}
  }

  /** How many windows' own index was taken. */
  function Displaced(taken: set<nat>, ws: seq<WindowSnap>): nat {
    if ws == [] then 0 else
    Displaced(taken, Front(ws)) + if Last(ws).panes != [] && Last(ws).index in taken then 1 else 0
  }

  lemma {:induction false} DirectIs(taken: set<nat>, ws: seq<WindowSnap>, x: nat)
    ensures x in Direct(taken, ws)
            <==> x !in taken && exists k :: 0 <= k < |ws| && ws[k].panes != [] && ws[k].index == x
  {
    if ws != [] {
      DirectIs(taken, Front(ws), x);
      if x in Direct(taken, Front(ws)) {
        var k :| 0 <= k < |Front(ws)| && Front(ws)[k].panes != [] && Front(ws)[k].index == x;
        assert ws[k].panes != [] && ws[k].index == x;
      }
      if k: nat :| k < |ws| && ws[k].panes != [] && ws[k].index == x {
        assert k < |ws| - 1 ==> Front(ws)[k] == ws[k];
      }
    }
  }

  lemma {:induction false} PlanShape(taken: set<nat>, base: nat, ws: seq<WindowSnap>, o: Options)
    ensures var p := Planned(taken, base, ws, o);
            && Indexes(p.spots) !! taken && Occupied(taken, p.spots) == taken + Indexes(p.spots)
            && |Indexes(p.spots)| == |p.spots|
            && (p.ok ==> |p.spots| == WantedCount(taken, ws, o))
  {
    if ws != [] {
      PlanShape(taken, base, Front(ws), o);
      var before := Planned(taken, base, Front(ws), o);
      if before.ok && Wanted(taken, Last(ws), o) {
        var x := IndexFor(taken, before.spots, base, Last(ws));
        var more := before.spots + [Spot(x, Last(ws))];
        assert Front(more) == before.spots;
        hide Occupied, IndexFor;
        assert Indexes(more) == Indexes(before.spots) + {x} by { OneMoreOccupied({}, before.spots, Spot(x, Last(ws))); }
        OneMoreOccupied(taken, before.spots, Spot(x, Last(ws)));
      }
    }
  }

  lemma {:induction false} OneMoreOccupied(taken: set<nat>, spots: seq<Spot>, spot: Spot)
    ensures Occupied(taken, spots + [spot]) == Occupied(taken, spots) + {spot.index}
  {
    assert Front(spots + [spot]) == spots;
  }

  // ---- Without force -------------------------------------------------------

  /** Without force every planned window has its own index. */
  lemma {:induction false} UnforcedPlan(taken: set<nat>, base: nat, ws: seq<WindowSnap>, o: Options)
    requires !o.force
    ensures var p := Planned(taken, base, ws, o);
            && (forall k :: 0 <= k < |p.spots| ==>
                  p.spots[k].index == p.spots[k].window.index && p.spots[k].window in ws)
            && (p.ok ==> Indexes(p.spots) == Direct(taken, ws))
            && Indexes(p.spots) <= Direct(taken, ws)
  {
    if ws != [] {
      UnforcedPlan(taken, base, Front(ws), o);
      var before := Planned(taken, base, Front(ws), o);
      assert forall w :: w in Front(ws) ==> w in ws;
      if before.ok && Wanted(taken, Last(ws), o) {
        OneMoreOccupied({}, before.spots, Spot(Last(ws).index, Last(ws)));
      }
    }
  }

  /** No two windows missing from the server have the same index. */
  ghost predicate MissingDistinct(taken: set<nat>, ws: seq<WindowSnap>) {
    forall i, j :: 0 <= i < j < |ws| && ws[i].panes != [] && ws[j].panes != [] && ws[i].index !in taken ==>
      ws[i].index != ws[j].index
  }

  lemma {:induction false} MissingDistinctStep(taken: set<nat>, ws: seq<WindowSnap>)
    requires ws != []
    ensures MissingDistinct(taken, ws) <==>
            MissingDistinct(taken, Front(ws)) && (Last(ws).panes != [] ==> Last(ws).index !in Direct(taken, Front(ws)))
  {
    var front, x := Front(ws), Last(ws).index;
    DirectIs(taken, front, x);
    hide Direct;
    assert forall i :: 0 <= i < |front| ==> front[i] == ws[i];
    if Last(ws).panes != [] && x in Direct(taken, front) {
      var k :| 0 <= k < |front| && front[k].panes != [] && front[k].index == x;
      assert ws[k].index == ws[|ws| - 1].index;
    }
  }

  /** Without force a session is restored without a fault exactly when its missing
      windows have different indexes. */
  lemma {:induction false} UnforcedWorksIff(taken: set<nat>, base: nat, ws: seq<WindowSnap>, o: Options)
    requires !o.force
    ensures Planned(taken, base, ws, o).ok <==> MissingDistinct(taken, ws)
  {
    if ws != [] {
      UnforcedWorksIff(taken, base, Front(ws), o);
      UnforcedPlan(taken, base, Front(ws), o);
      PlanShape(taken, base, Front(ws), o);
      MissingDistinctStep(taken, ws);
      DirectIs(taken, Front(ws), Last(ws).index);
      hide Occupied, Indexes, Direct, MissingDistinct;
    }
  }

  // ---- With force ----------------------------------------------------------

  function Gaps(base: nat, x: nat, direct: set<nat>): set<nat> {
    set y: nat | base <= y < x && y !in direct
  }

  /** The window at `k` finds its index free when the restore begins and taken
      when its turn comes: by an earlier window with the same index, or because
      earlier windows were displaced to it, there being more of them than free
      indexes before it. */
  ghost predicate Collides(taken: set<nat>, base: nat, ws: seq<WindowSnap>, k: nat)
    requires k < |ws|
  {
    var x, direct := ws[k].index, Direct(taken, ws[..k]);
    && ws[k].panes != [] && x !in taken
    && (x in direct || (base <= x && Displaced(taken, ws[..k]) > |Gaps(base, x, taken + direct)|))
  }

  lemma {:induction false} SubsetSize(a: set<nat>, b: set<nat>)
    requires a <= b
    ensures |a| <= |b|
  {
    assert b == a + (b - a);
  }

  /** Windows displaced to the places `p` filled every gap before them. */
  ghost predicate Packed(p: set<nat>, direct: set<nat>, base: nat) {
    p !! direct && forall x, y: nat :: x in p && base <= y <= x ==> base <= x && (y in direct || y in p)
  }

  /** Whether some displaced window is at `x`, told from their number alone. */
  lemma {:induction false} DisplacedTo(p: set<nat>, direct: set<nat>, base: nat, x: nat)
    requires Packed(p, direct, base) && x !in direct && forall y :: y in p ==> base <= y
    ensures x in p <==> base <= x && |p| > |Gaps(base, x, direct)|
  {
    var gaps := Gaps(base, x, direct);
    if x in p {
      SubsetSize(gaps, p - {x});
    } else if base <= x {
      SubsetSize(p, gaps);
    }
  }

  /** Where displaced windows went: `f` of them, the rest at their own indexes. */
  ghost predicate PlacedSo(p: set<nat>, taken: set<nat>, direct: set<nat>, occupied: set<nat>, base: nat, f: nat) {
    && Packed(p, taken + direct, base) && |p| == f && (forall y :: y in p ==> base <= y)
    && occupied == taken + direct + p
  }

  lemma {:induction false} PackedMore(p: set<nat>, direct: set<nat>, base: nat, x: nat)
    requires Packed(p, direct, base) && x !in direct && base <= x
    requires forall y: nat :: base <= y < x ==> y in direct || y in p
    ensures Packed(p + {x}, direct, base)
  {
  }

  lemma {:induction false} OneMoreDisplaced(p: set<nat>, taken: set<nat>, direct: set<nat>, occupied: set<nat>,
        base: nat, f: nat)
    requires PlacedSo(p, taken, direct, occupied, base, f)
    ensures var x := FirstUnused(occupied, base); PlacedSo(p + {x}, taken, direct, occupied + {x}, base, f + 1)
  {
    var x := FirstUnused(occupied, base);
    assert x !in taken + direct && x !in p && forall y: nat :: base <= y < x ==> y in taken + direct || y in p;
    hide Packed, PlacedSo, FirstUnused;
    PackedMore(p, taken + direct, base, x);
    SetMore(p, taken + direct, occupied, x);
    PlacedSoHas(p, taken, direct, occupied, base, f);
    PlacedSoWhen(p + {x}, taken, direct, occupied + {x}, base, f + 1);
  }

  lemma {:induction false} SetMore(p: set<nat>, direct: set<nat>, occupied: set<nat>, x: nat)
    requires occupied == direct + p && x !in p
    ensures occupied + {x} == direct + (p + {x}) && |p + {x}| == |p| + 1
  {
  }

  lemma {:induction false} PlacedSoHas(p: set<nat>, taken: set<nat>, direct: set<nat>, occupied: set<nat>,
        base: nat, f: nat)
    requires PlacedSo(p, taken, direct, occupied, base, f)
    ensures Packed(p, taken + direct, base) && |p| == f && occupied == taken + direct + p
    ensures forall y :: y in p ==> base <= y
  {
  }

  lemma {:induction false} PlacedSoWhen(p: set<nat>, taken: set<nat>, direct: set<nat>, occupied: set<nat>,
        base: nat, f: nat)
    requires Packed(p, taken + direct, base) && |p| == f && occupied == taken + direct + p
    requires forall y :: y in p ==> base <= y
    ensures PlacedSo(p, taken, direct, occupied, base, f)
  {
  }

  lemma {:induction false} OneMoreDirect(p: set<nat>, taken: set<nat>, direct: set<nat>, occupied: set<nat>,
        base: nat, f: nat, y: nat)
    requires PlacedSo(p, taken, direct, occupied, base, f) && y !in occupied
    ensures PlacedSo(p, taken, direct + {y}, occupied + {y}, base, f)
  {
    assert taken + (direct + {y}) == taken + direct + {y};
  }

  /** One more window of a forced plan that works. */
  lemma {:induction false} ForcedUnfolds(taken: set<nat>, base: nat, ws: seq<WindowSnap>, o: Options)
    requires o.force && ws != [] && Planned(taken, base, ws, o).ok
    ensures var w, direct, f := Last(ws), Direct(taken, Front(ws)), Displaced(taken, Front(ws));
            var before := Planned(taken, base, Front(ws), o);
            var occupied := Occupied(taken, before.spots);
            var x := if w.index in taken then FirstUnused(occupied, base) else w.index;
            && before.ok
            && Direct(taken, ws) == (if w.panes != [] && w.index !in taken then direct + {w.index} else direct)
            && Displaced(taken, ws) == (if w.panes != [] && w.index in taken then f + 1 else f)
            && Occupied(taken, Planned(taken, base, ws, o).spots)
              == (if w.panes == [] then occupied else occupied + {x})
            && (w.panes != [] ==> x !in occupied)
  {
    var before, w := Planned(taken, base, Front(ws), o), Last(ws);
    OneMoreOccupied(taken, before.spots, Spot(IndexFor(taken, before.spots, base, w), w));
    hide Occupied;
  }

  lemma {:induction false} OneMorePlaced(p: set<nat>, taken: set<nat>, direct: set<nat>, occupied: set<nat>,
        base: nat, f: nat, w: WindowSnap)
    returns (q: set<nat>)
    requires PlacedSo(p, taken, direct, occupied, base, f)
    requires w.panes != [] && w.index !in taken ==> w.index !in occupied
    ensures PlacedSo(q, taken, if w.panes != [] && w.index !in taken then direct + {w.index} else direct,
                     if w.panes == [] then occupied
                     else occupied + {if w.index in taken then FirstUnused(occupied, base) else w.index},
                     base, if w.panes != [] && w.index in taken then f + 1 else f)
  {
    hide *;
    q := p;
    if w.panes != [] {
      if w.index in taken {
        OneMoreDisplaced(p, taken, direct, occupied, base, f);
        q := p + {FirstUnused(occupied, base)};
      } else {
        OneMoreDirect(p, taken, direct, occupied, base, f, w.index);
      }
    }
  }

  /** Where the displaced windows of a plan went. */
  lemma {:induction false} DisplacedPlaces(taken: set<nat>, base: nat, ws: seq<WindowSnap>, o: Options)
    returns (p: set<nat>)
    requires o.force && Planned(taken, base, ws, o).ok
    ensures PlacedSo(p, taken, Direct(taken, ws), Occupied(taken, Planned(taken, base, ws, o).spots), base,
                     Displaced(taken, ws))
    decreases |ws|
  {
    p := {};
    if ws == [] {
      PlacedSoWhen({}, taken, {}, taken, base, 0);
    } else {
      assert |Front(ws)| < |ws|;
      hide *;
      var w := Last(ws);
      ForcedUnfolds(taken, base, ws, o);
      var before := Planned(taken, base, Front(ws), o);
      p := DisplacedPlaces(taken, base, Front(ws), o);
      p := OneMorePlaced(p, taken, Direct(taken, Front(ws)), Occupied(taken, before.spots), base,
                         Displaced(taken, Front(ws)), w);
    }
  }

  lemma {:induction false} ForcedStep(taken: set<nat>, base: nat, ws: seq<WindowSnap>, o: Options)
    requires o.force && ws != [] && Planned(taken, base, Front(ws), o).ok
    ensures Planned(taken, base, ws, o).ok <==> !Collides(taken, base, ws, |ws| - 1)
  {
    var before, w := Planned(taken, base, Front(ws), o), Last(ws);
    assert ws[..|ws| - 1] == Front(ws);
    var p := DisplacedPlaces(taken, base, Front(ws), o);
    var direct := Direct(taken, Front(ws));
    hide Occupied, Direct, Displaced, Gaps;
    if w.panes != [] && w.index !in taken {
      if w.index !in direct {
        DisplacedTo(p, taken + direct, base, w.index);
      }
    }
  }

  /** A forced restore of a session works exactly when no window collides. */
  lemma {:induction false} ForcedWorksIff(taken: set<nat>, base: nat, ws: seq<WindowSnap>, o: Options)
    requires o.force
    ensures Planned(taken, base, ws, o).ok <==> forall k :: 0 <= k < |ws| ==> !Collides(taken, base, ws, k)
  {
    if ws != [] {
      ForcedWorksIff(taken, base, Front(ws), o);
      forall k | 0 <= k < |Front(ws)|
        ensures Collides(taken, base, Front(ws), k) <==> Collides(taken, base, ws, k)
      {
        assert Front(ws)[..k] == ws[..k] && Front(ws)[k] == ws[k];
      }
      hide Collides;
      if Planned(taken, base, Front(ws), o).ok {
        ForcedStep(taken, base, ws, o);
      }
    }
  }

  /** A single window is always reopened, whatever indexes are taken, and so are
      the windows of a session that is gone when their indexes differ. */
  lemma {:induction false} ReopeningWorks(taken: set<nat>, base: nat, ws: seq<WindowSnap>, o: Options)
    requires o.force
    ensures |ws| == 1 ==> Planned(taken, base, ws, o).ok
    ensures taken == {} ==> (Planned(taken, base, ws, o).ok <==> MissingDistinct(taken, ws))
  {
    ForcedWorksIff(taken, base, ws, o);
    if taken == {} {
      NoneDisplaced(ws);
      forall k: nat | k < |ws|
        ensures Collides(taken, base, ws, k)
                <==> ws[k].panes != [] && exists i :: 0 <= i < k && ws[i].panes != [] && ws[i].index == ws[k].index
      {
        NoneDisplaced(ws[..k]);
        DirectIs(taken, ws[..k], ws[k].index);
        if i :| 0 <= i < k && ws[i].panes != [] && ws[i].index == ws[k].index {
          assert ws[..k][i] == ws[i];
        }
      }
    }
  }

  lemma {:induction false} NoneDisplaced(ws: seq<WindowSnap>)
    ensures Displaced({}, ws) == 0
  {
    if ws != [] {
      NoneDisplaced(Front(ws));
    }
  }

  function Window(index: nat): WindowSnap {
    WindowSnap(0, index, "w", false, false, "", "", false, [PaneSnap(0, "/", true, None, None)])
  }

  /** A forced restore of two windows fails on a server that has the first one's
      index: the first is displaced to the second one's. */
  lemma {:induction false} ForcedCanFail(o: Options)
    requires o.force
    ensures !Planned({0}, 0, [Window(0), Window(1)], o).ok
  {
    var ws := [Window(0), Window(1)];
    ForcedWorksIff({0}, 0, ws, o);
    assert ws[..1] == [Window(0)] && Front([Window(0)]) == [];
    assert Displaced({0}, []) == 0 && Direct({0}, []) == {};
    assert Displaced({0}, [Window(0)]) == 1 && Direct({0}, [Window(0)]) == {};
    assert Gaps(0, 1, {0} + {}) == {};
    assert Collides({0}, 0, ws, 1);
  }

  // ---- Whole snapshots -----------------------------------------------------

  /** A session of the snapshot meets what a faultless restore of it takes. */
  ghost predicate Works(taken: set<nat>, base: nat, ws: seq<WindowSnap>, o: Options) {
    if o.force then forall k :: 0 <= k < |ws| ==> !Collides(taken, base, ws, k) else MissingDistinct(taken, ws)
  }

  ghost predicate SlotsUnchanged(s0: Server, s1: Server) {
    forall n, i :: n in s0.sessions && i in s0.sessions[n].slots ==>
      n in s1.sessions && i in s1.sessions[n].slots && s1.sessions[n].slots[i] == s0.sessions[n].slots[i]
  }

  /** Nothing that existed changed: every window is as it was and where it was. */
  ghost predicate Untouched(s0: Server, s1: Server) {
    Valid(s1) && SameSettings(s0, s1) && WindowsKept(s0.windows, s1.windows) && SlotsUnchanged(s0, s1)
    && s0.nextWindow <= s1.nextWindow
  }

  /** Some window of the snapshot is recorded at this place. */
  ghost predicate Listed(sessions: seq<SessionSnap>, name: string, index: nat) {
    exists s, w :: s in sessions && s.name == name && w in s.windows && w.panes != [] && w.index == index
  }

  /** The place holds a window as the snapshot recorded it there. */
  ghost predicate ShownAt(sessions: seq<SessionSnap>, s1: Server, name: string, index: nat) {
    exists s, w :: s in sessions && s.name == name && w in s.windows && w.panes != [] && w.index == index
                   && name in s1.sessions && index in s1.sessions[name].slots
                   && s1.sessions[name].slots[index] in s1.windows
                   && Shows(s1.windows[s1.sessions[name].slots[index]], w, s1.shell)
  }

  lemma {:induction false} PlanDistinct(taken: set<nat>, base: nat, ws: seq<WindowSnap>, o: Options)
    ensures DistinctSpots(Planned(taken, base, ws, o).spots)
  {
    if ws != [] {
      PlanDistinct(taken, base, Front(ws), o);
      var before := Planned(taken, base, Front(ws), o);
      forall k | 0 <= k < |before.spots|
        ensures before.spots[k].index in Occupied(taken, before.spots)
      {
        SpotOccupied(taken, before.spots, k);
      }
    }
  }

  lemma {:induction false} SpotOccupied(taken: set<nat>, spots: seq<Spot>, k: nat)
    requires k < |spots|
    ensures spots[k].index in Occupied(taken, spots)
  {
    if k < |spots| - 1 {
      SpotOccupied(taken, Front(spots), k);
    }
  }

  /** What restoring one session does to the rest of the server. */
  lemma {:induction false} SessionKeeps(s0: Server, session: SessionSnap, o: Options)
    requires Valid(s0)
    ensures var taken, p := TakenIn(s0, session.name), SessionRestored(s0, session, o);
            && Untouched(s0, p.server) && p.server.nextWindow == s0.nextWindow + p.created
            && (p.fault.None? <==> Works(taken, s0.baseIndex, session.windows, o))
            && (p.fault.None? ==> p.created == WantedCount(taken, session.windows, o))
            && TakenIn(p.server, session.name)
              == taken + Indexes(Planned(taken, s0.baseIndex, session.windows, o).spots)
            && OthersKept(s0, p.server, session.name)
  {
    var taken, ws := TakenIn(s0, session.name), session.windows;
    SessionMerges(s0, session, o);
    PlanShape(taken, s0.baseIndex, ws, o);
    if o.force { ForcedWorksIff(taken, s0.baseIndex, ws, o); } else { UnforcedWorksIff(taken, s0.baseIndex, ws, o); }
    var s1 := SessionRestored(s0, session, o).server;
    hide SessionRestored, Planned, Collides, MissingDistinct, WantedCount, Occupied, Indexes, WindowsAdded,
         WindowsKept, DistinctSpots, Valid;
    forall n, i | n in s0.sessions && i in s0.sessions[n].slots
      ensures n in s1.sessions && i in s1.sessions[n].slots && s1.sessions[n].slots[i] == s0.sessions[n].slots[i]
    {
      if n != session.name {
        assert SessionIn(s1, n) == SessionIn(s0, n);
      } else {
        assert i in taken;
      }
    }
  }

  lemma {:induction false} UntouchedTrans(a: Server, b: Server, c: Server)
    requires Untouched(a, b) && Untouched(b, c)
    ensures Untouched(a, c)
  {
    forall n, i | n in a.sessions && i in a.sessions[n].slots
      ensures n in c.sessions && i in c.sessions[n].slots && c.sessions[n].slots[i] == a.sessions[n].slots[i]
    {
      assert n in b.sessions && i in b.sessions[n].slots;
    }
  }

  /** A restore, forced or not and whatever fails, leaves every existing window as
      and where it is, and reports the windows it added. */
  lemma {:induction false} RestoreTouchesNothing(s0: Server, sessions: seq<SessionSnap>, o: Options)
    requires Valid(s0)
    ensures var r := Restored(s0, sessions, o);
            Untouched(s0, r.server) && (r.errors == [] ==> r.server.nextWindow == s0.nextWindow + r.windows)
  {
    hide SessionRestored, Untouched;
    if sessions == [] {
      UntouchedSame(s0);
    } else {
      RestoreTouchesNothing(s0, Front(sessions), o);
      var before := Restored(s0, Front(sessions), o);
      UntouchedValid(s0, before.server);
      SessionKeeps(before.server, Last(sessions), o);
      UntouchedTrans(s0, before.server, SessionRestored(before.server, Last(sessions), o).server);
    }
  }

  lemma {:induction false} UntouchedSame(s: Server)
    requires Valid(s)
    ensures Untouched(s, s)
  {
  }

  lemma {:induction false} UntouchedValid(s0: Server, s1: Server)
    requires Untouched(s0, s1)
    ensures Valid(s1) && SameSettings(s0, s1)
  {
  }

  lemma {:induction false} NotYetTouched(s0: Server, sessions: seq<SessionSnap>, o: Options, name: string)
    requires Valid(s0) && forall i :: 0 <= i < |sessions| ==> sessions[i].name != name
    ensures SessionIn(Restored(s0, sessions, o).server, name) == SessionIn(s0, name)
  {
    hide SessionRestored, Untouched;
    if sessions != [] {
      NotYetTouched(s0, Front(sessions), o, name);
      RestoreTouchesNothing(s0, Front(sessions), o);
      UntouchedValid(s0, Restored(s0, Front(sessions), o).server);
      SessionKeeps(Restored(s0, Front(sessions), o).server, Last(sessions), o);
    }
  }

  lemma {:induction false} SameSessionSameTaken(a: Server, b: Server, name: string)
    requires SessionIn(a, name) == SessionIn(b, name)
    ensures TakenIn(a, name) == TakenIn(b, name)
  {
  }

  /** A restore reports no error exactly when every session can be restored on the
      server as it was found. */
  lemma {:induction false} RestoreWorksIff(s0: Server, sessions: seq<SessionSnap>, o: Options)
    requires Valid(s0) && DistinctNames(sessions)
    ensures Restored(s0, sessions, o).errors == [] <==>
            forall s :: s in sessions ==> Works(TakenIn(s0, s.name), s0.baseIndex, s.windows, o)
  {
    hide SessionRestored, Untouched, Works, TakenIn;
    if sessions != [] {
      var front, last := Front(sessions), Last(sessions);
      FrontLast(sessions);
      RestoreWorksIff(s0, front, o);
      RestoreTouchesNothing(s0, front, o);
      var before := Restored(s0, front, o);
      UntouchedValid(s0, before.server);
      NotYetTouched(s0, front, o, last.name);
      SameSessionSameTaken(s0, before.server, last.name);
      SessionKeeps(before.server, last, o);
    }
  }

  function WindowCount(ws: seq<WindowSnap>): nat {
    if ws == [] then 0 else WindowCount(Front(ws)) + if Last(ws).panes != [] then 1 else 0
  }

  function TotalWindows(sessions: seq<SessionSnap>): nat {
    if sessions == [] then 0 else TotalWindows(Front(sessions)) + WindowCount(Last(sessions).windows)
  }

  lemma {:induction false} AllWanted(taken: set<nat>, ws: seq<WindowSnap>, o: Options)
    requires o.force
    ensures WantedCount(taken, ws, o) == WindowCount(ws)
  {
    if ws != [] {
      AllWanted(taken, Front(ws), o);
    }
  }

  /** With force, a restore without errors adds one window for each window of the
      snapshot that has panes, whatever indexes are taken. */
  lemma {:induction false} ForcedAddsEach(s0: Server, sessions: seq<SessionSnap>, o: Options)
    requires Valid(s0) && o.force && Restored(s0, sessions, o).errors == []
    ensures Restored(s0, sessions, o).windows == TotalWindows(sessions)
    ensures Restored(s0, sessions, o).server.nextWindow == s0.nextWindow + TotalWindows(sessions)
  {
    RestoreTouchesNothing(s0, sessions, o);
    hide SessionRestored, Untouched;
    if sessions != [] {
      ForcedAddsEach(s0, Front(sessions), o);
      RestoreTouchesNothing(s0, Front(sessions), o);
      UntouchedValid(s0, Restored(s0, Front(sessions), o).server);
      SessionKeeps(Restored(s0, Front(sessions), o).server, Last(sessions), o);
      AllWanted(TakenIn(Restored(s0, Front(sessions), o).server, Last(sessions).name), Last(sessions).windows, o);
    }
  }

  // ---- Exactly the missing windows -----------------------------------------

  lemma {:induction false} ShownStays(a: seq<SessionSnap>, b: seq<SessionSnap>, s1: Server, s2: Server,
        name: string, index: nat)
    requires ShownAt(a, s1, name, index) && Untouched(s1, s2) && forall s :: s in a ==> s in b
    ensures ShownAt(b, s2, name, index)
  {
    hide Shows, Valid;
    var s, w :| s in a && s.name == name && w in s.windows && w.panes != [] && w.index == index
                && name in s1.sessions && index in s1.sessions[name].slots
                && s1.sessions[name].slots[index] in s1.windows
                && Shows(s1.windows[s1.sessions[name].slots[index]], w, s1.shell);
    assert s in b;
  }

  /** A session's windows that were missing are now there, as recorded. */
  lemma {:induction false} SessionShows(s0: Server, session: SessionSnap, o: Options, index: nat)
    requires Valid(s0) && !o.force
    requires index in TakenIn(SessionRestored(s0, session, o).server, session.name)
             && index !in TakenIn(s0, session.name)
    ensures ShownAt([session], SessionRestored(s0, session, o).server, session.name, index)
  {
    var taken, s1 := TakenIn(s0, session.name), SessionRestored(s0, session, o).server;
    var plan := Planned(taken, s0.baseIndex, session.windows, o);
    SessionMerges(s0, session, o);
    PlanShape(taken, s0.baseIndex, session.windows, o);
    PlanDistinct(taken, s0.baseIndex, session.windows, o);
    UnforcedPlan(taken, s0.baseIndex, session.windows, o);
    var k := SpotAt(plan.spots, index);
    assert SpotShown(s1.windows, s0.nextWindow + k, plan.spots[k], s0.shell);
    PlannedHavePanes(taken, s0.baseIndex, session.windows, o, k);
    hide SessionRestored, Planned, Shows, Indexes, Valid;
    assert session in [session] && plan.spots[k].window in session.windows;
  }

  lemma {:induction false} SpotAt(spots: seq<Spot>, index: nat) returns (k: nat)
    requires index in Indexes(spots)
    ensures k < |spots| && spots[k].index == index
  {
    if Last(spots).index == index {
      k := |spots| - 1;
    } else {
      k := SpotAt(Front(spots), index);
    }
  }

  lemma {:induction false} PlannedHavePanes(taken: set<nat>, base: nat, ws: seq<WindowSnap>, o: Options, k: nat)
    requires k < |Planned(taken, base, ws, o).spots|
    ensures Planned(taken, base, ws, o).spots[k].window.panes != []
  {
    if k < |Planned(taken, base, Front(ws), o).spots| {
      PlannedHavePanes(taken, base, Front(ws), o, k);
    }
  }

  /** Without force, what a restore adds is listed in the snapshot and is as
      recorded there; and everything listed is there unless errors are reported. */
  lemma {:induction false} UnforcedAddsMissing(s0: Server, sessions: seq<SessionSnap>, o: Options, name: string,
        index: nat)
    requires Valid(s0) && !o.force
    ensures var r := Restored(s0, sessions, o);
            && (index in TakenIn(s0, name) ==> index in TakenIn(r.server, name))
            && (index in TakenIn(r.server, name) && index !in TakenIn(s0, name) ==>
              ShownAt(sessions, r.server, name, index))
            && (r.errors == [] && Listed(sessions, name, index) ==> index in TakenIn(r.server, name))
  {
    RestoreTouchesNothing(s0, sessions, o);
    TakenStays(s0, Restored(s0, sessions, o).server, name, index);
    if sessions != [] {
      var front, last, before := Front(sessions), Last(sessions), Restored(s0, Front(sessions), o);
      FrontLast(sessions);
      var s1, s2 := before.server, SessionRestored(before.server, last, o).server;
      hide SessionRestored, Untouched, ShownAt, Listed, TakenIn;
      UnforcedAddsMissing(s0, front, o, name, index);
      RestoreTouchesNothing(s0, front, o);
      UntouchedValid(s0, s1);
      SessionKeeps(s1, last, o);
      TakenStays(s1, s2, name, index);
      if index in TakenIn(s1, name) {
        if index !in TakenIn(s0, name) {
          ShownStays(front, sessions, s1, s2, name, index);
        }
      } else {
        LastListed(s1, sessions, o, name, index);
        if index in TakenIn(s2, name) {
          LastShown(s1, sessions, o, name, index);
        }
      }
    }
  }

  lemma {:induction false} TakenStays(s0: Server, s1: Server, name: string, index: nat)
    requires Untouched(s0, s1)
    ensures index in TakenIn(s0, name) ==> index in TakenIn(s1, name)
  {
  }

  lemma {:induction false} LastShown(s1: Server, sessions: seq<SessionSnap>, o: Options, name: string, index: nat)
    requires Valid(s1) && !o.force && sessions != [] && index !in TakenIn(s1, name)
    requires index in TakenIn(SessionRestored(s1, Last(sessions), o).server, name)
    ensures ShownAt(sessions, SessionRestored(s1, Last(sessions), o).server, name, index)
  {
    var last, s2 := Last(sessions), SessionRestored(s1, Last(sessions), o).server;
    SessionKeeps(s1, last, o);
    hide SessionRestored, ShownAt, Untouched;
    if name != last.name {
      SameSessionSameTaken(s1, s2, name);
    }
    SessionShows(s1, last, o, index);
    UntouchedSame(s2);
    ShownStays([last], sessions, s2, s2, name, index);
  }

  lemma {:induction false} LastListed(s1: Server, sessions: seq<SessionSnap>, o: Options, name: string, index: nat)
    requires Valid(s1) && !o.force && sessions != [] && index !in TakenIn(s1, name)
    ensures var p := SessionRestored(s1, Last(sessions), o);
            p.fault.None? && Listed(sessions, name, index) && !Listed(Front(sessions), name, index) ==>
              index in TakenIn(p.server, name)
  {
    hide SessionRestored, Planned, Occupied, Indexes, Direct, Valid;
    var last, p := Last(sessions), SessionRestored(s1, Last(sessions), o);
    var taken := TakenIn(s1, last.name);
    FrontLast(sessions);
    SessionMerges(s1, last, o);
    PlanShape(taken, s1.baseIndex, last.windows, o);
    UnforcedPlan(taken, s1.baseIndex, last.windows, o);
    DirectIs(taken, last.windows, index);
    if p.fault.None? && Listed(sessions, name, index) && !Listed(Front(sessions), name, index) {
      var s, w :| s in sessions && s.name == name && w in s.windows && w.panes != [] && w.index == index;
      assert s == last;
      var i :| 0 <= i < |last.windows| && last.windows[i] == w;
    }
  }

  // ---- A second run --------------------------------------------------------

  ghost predicate AllThere(s: Server, name: string, ws: seq<WindowSnap>) {
    forall w :: w in ws && w.panes != [] ==> w.index in TakenIn(s, name)
  }

  lemma {:induction false} NothingWanted(s: Server, name: string, ws: seq<WindowSnap>, o: Options)
    requires !o.force && AllThere(s, name, ws)
    ensures AddWindows(s, name, TakenIn(s, name), ws, o) == Progress(s, 0, [], None)
  {
    if ws != [] {
      FrontLast(ws);
      NothingWanted(s, name, Front(ws), o);
      hide Opened, PastesAmong;
    }
  }

  lemma {:induction false} SameWindowsTrans(a: Server, b: Server, c: Server)
    requires SameWindows(a, b) && SameWindows(b, c)
    ensures SameWindows(a, c)
  {
  }

  lemma {:induction false} SameWindowsSameTaken(a: Server, b: Server, name: string)
    requires SameWindows(a, b)
    ensures TakenIn(a, name) == TakenIn(b, name)
  {
  }

  lemma {:induction false} NothingToAdd(s: Server, sessions: seq<SessionSnap>, o: Options)
    requires !o.force && forall session :: session in sessions ==> AllThere(s, session.name, session.windows)
    ensures var r := Restored(s, sessions, o);
            r.windows == 0 && r.pastes == [] && r.errors == [] && SameWindows(s, r.server)
  {
    if sessions == [] {
      NothingChanged(s, "");
    } else {
      var last, before := Last(sessions), Restored(s, Front(sessions), o);
      FrontLast(sessions);
      NothingToAdd(s, Front(sessions), o);
      assert AllThere(s, last.name, last.windows);
      SameWindowsSameTaken(s, before.server, last.name);
      NothingWanted(before.server, last.name, last.windows, o);
      ConfiguredKeeps(before.server, last);
      hide SameWindows, Configured, AddWindows, TakenIn, OthersKept;
      SameWindowsTrans(s, before.server, Configured(before.server, last));
    }
  }

  /** Once a restore without force reported no errors, running it again creates
      nothing and pastes nothing. */
  lemma {:induction false} SecondRunCreatesNothing(s0: Server, sessions: seq<SessionSnap>, o: Options)
    requires Valid(s0) && !o.force && Restored(s0, sessions, o).errors == []
    ensures var s1 := Restored(s0, sessions, o).server;
            var r := Restored(s1, sessions, o);
            r.windows == 0 && r.pastes == [] && r.errors == [] && SameWindows(s1, r.server)
  {
    var s1 := Restored(s0, sessions, o).server;
    hide Restored, SameWindows, TakenIn;
    forall session | session in sessions
      ensures AllThere(s1, session.name, session.windows)
    {
      forall w | w in session.windows && w.panes != []
        ensures w.index in TakenIn(s1, session.name)
      {
        assert Listed(sessions, session.name, w.index);
        UnforcedAddsMissing(s0, sessions, o, session.name, w.index);
      }
    }
    NothingToAdd(s1, sessions, o);
  }
}
