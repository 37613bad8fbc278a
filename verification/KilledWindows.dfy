/** Which windows a close destroys, and whether their entries are among what it
    archived (src/snapshot.rs). */
module KilledWindows {
  import opened Inventory
  import opened Snapshots
  import opened ClosedHistory
  import opened ArchiveClose
  import opened ExactlyOnce

  // ---- What taking a session leaves ----------------------------------------

  lemma {:induction false} TakeTargetNames(ss: seq<SessionSnap>, target: Target)
    requires DistinctNames(ss)
    ensures var t := TakeTarget(ss, target);
            && DistinctNames(t.rest) && Names(t.rest) <= Names(ss)
            && (target.SessionTarget? && t.entry.Some? ==> target.name !in Names(t.rest))
  {
    var t := TakeTarget(ss, target);
    if target.SessionTarget? {
      var i := SessionAt(ss, target.name);
      if i < |ss| {
        assert forall k :: 0 <= k < |t.rest| ==> t.rest[k] == ss[if k < i then k else k + 1];
      }
    } else {
      assert |t.rest| == |ss| && forall k :: 0 <= k < |ss| ==> t.rest[k].name == ss[k].name;
      assert forall k :: 0 <= k < |ss| ==> ss[k] in ss;
    }
  }

  /** Nothing is left of the sessions taken. */
  lemma {:induction false} TakenNames(ss: seq<SessionSnap>, targets: seq<Target>)
    requires DistinctNames(ss)
    ensures var h := TakeAll(ss, targets);
            && DistinctNames(h.rest) && Names(h.rest) <= Names(ss)
            && forall t :: t in h.targets && t.SessionTarget? ==> t.name !in Names(h.rest)
  {
    if targets != [] {
      hide TakeTarget, Names, DistinctNames;
      TakenNames(ss, Front(targets));
      TakeTargetNames(TakeAll(ss, Front(targets)).rest, Last(targets));
    }
  }

  lemma {:induction false} PlacedNamed(ss: seq<SessionSnap>, p: Placed)
    requires p in AllWindows(ss)
    ensures p.session in Names(ss)
  {
    assert ss != [];
    if p in AllWindows(Front(ss)) {
      PlacedNamed(Front(ss), p);
      assert forall s :: s in Front(ss) ==> s in ss;
    } else {
      assert Last(ss) in ss;
    }
  }

  // ---- What a struck target archived ---------------------------------------

  lemma {:induction false} ChosenFrom<T>(s: seq<T>, closes: nat -> bool, n: nat, x: T) returns (i: nat)
    requires n <= |s| && x in Chosen(s, closes, n)
    ensures i < n && closes(i) && s[i] == x
  {
    if x in Chosen(s, closes, n - 1) {
      i := ChosenFrom(s, closes, n - 1, x);
    } else {
      i := n - 1;
    }
  }

  /** The entry of a window target holds that window. */
  lemma {:induction false} EntryHasTarget(ss: seq<SessionSnap>, targets: seq<Target>, i: nat) returns (v: WindowSnap)
    requires i < |TakeAll(ss, targets).targets| && TakeAll(ss, targets).targets[i].WindowTarget?
    ensures var h := TakeAll(ss, targets);
            v in h.entries[i].session.windows && v.id == h.targets[i].windowId
  {
    var h := TakeAll(ss, Front(targets));
    if i < |h.targets| {
      hide TakeTarget;
      v := EntryHasTarget(ss, Front(targets), i);
    } else {
      v := WindowTaken(h.rest, Last(targets));
    }
  }

  lemma {:induction false} WindowTaken(ss: seq<SessionSnap>, target: Target) returns (v: WindowSnap)
    requires target.WindowTarget? && TakeTarget(ss, target).entry.Some?
    ensures v in TakeTarget(ss, target).entry.value.session.windows && v.id == target.windowId
  {
    v := TakeTarget(ss, target).entry.value.session.windows[0];
  }

  /** A window closed by its own target is in an entry. */
  lemma {:induction false} WindowTargetLogged(ss: seq<SessionSnap>, targets: seq<Target>, a: Answers, t: Target)
    requires t in Struck(TakeAll(ss, targets), a) && t.WindowTarget?
    ensures t.windowId in WindowIds(Sessions(Logged(TakeAll(ss, targets), a)))
  {
    var h := TakeAll(ss, targets);
    hide TakeAll, Chosen, Sessions, AllWindows;
    var i := ChosenFrom(h.targets, a.closes, |h.targets|, t);
    var v := EntryHasTarget(ss, targets, i);
    ChosenHas(h.entries, a.closes, |h.entries|, i);
    EntryWindows(Logged(h, a), h.entries[i], v);
  }

  lemma {:induction false} StruckIsFound(h: Haul, a: Answers, t: Target)
    requires t in Struck(h, a)
    ensures t in h.targets
  {
    hide Chosen;
    var i := ChosenFrom(h.targets, a.closes, |h.targets|, t);
  }

  lemma {:induction false} LoggedIsListed(ss: seq<SessionSnap>, targets: seq<Target>, a: Answers, p: Placed)
    requires p in AllWindows(Sessions(Logged(TakeAll(ss, targets), a)))
    ensures p in AllWindows(ss)
  {
    var h := TakeAll(ss, targets);
    NoEntriesNoWindows();
    hide TakeAll, Chosen, Sessions, AllWindows;
    var i := ChosenWindow(h.entries, a.closes, |h.entries|, p);
    AllWindowsSplit(Sessions(h.entries), i);
    AllWindowsOne(h.entries[i].session);
    TakeAllConserves(ss, targets);
    assert p in multiset(AllWindows(Sessions(h.entries)));
    assert p in multiset(AllWindows(ss));
  }

  // ---- Windows killed and windows archived ---------------------------------

  /** The snapshot lists the window where a struck target closes it, and no target
      took it that was then not closed. */
  ghost predicate Covered(ss: seq<SessionSnap>, h: Haul, a: Answers, id: WindowId) {
    && id !in WindowIds(Sessions(Unclosed(h, a)))
    && exists p :: p in AllWindows(ss) && p.window.id == id && Targeted(Struck(h, a), p)
  }

  lemma {:induction false} CoveredIsLogged(ss: seq<SessionSnap>, targets: seq<Target>, a: Answers, id: WindowId)
    requires DistinctNames(ss) && Unique(AllWindows(ss)) && Covered(ss, TakeAll(ss, targets), a, id)
    ensures id in WindowIds(Sessions(Logged(TakeAll(ss, targets), a)))
  {
    var h := TakeAll(ss, targets);
    var p :| p in AllWindows(ss) && p.window.id == id && Targeted(Struck(h, a), p);
    hide TakeAll, AllWindows, Sessions, Struck, Logged, Unclosed, Count, DistinctNames, Names;
    if SessionTarget(p.session) in Struck(h, a) {
      StruckIsFound(h, a, SessionTarget(p.session));
      TakenNames(ss, targets);
      TakenCounts(ss, targets, a, id);
      CountPositive(AllWindows(ss), id);
      CountPositive(AllWindows(h.rest), id);
      CountPositive(AllWindows(Sessions(Logged(h, a))), id);
      CountPositive(AllWindows(Sessions(Unclosed(h, a))), id);
      NotLeft(ss, targets, p);
    } else {
      var t :| t in Struck(h, a) && t.WindowTarget? && t.windowId == id;
      WindowTargetLogged(ss, targets, a, t);
    }
  }

  lemma {:induction false} NotLeft(ss: seq<SessionSnap>, targets: seq<Target>, p: Placed)
    requires Unique(AllWindows(ss)) && p in AllWindows(ss) && p.session !in Names(TakeAll(ss, targets).rest)
    ensures forall q :: q in AllWindows(TakeAll(ss, targets).rest) ==> q.window.id != p.window.id
  {
    hide TakeAll, AllWindows, Names, Unique;
    RestIsListed(ss, targets);
    forall q | q in AllWindows(TakeAll(ss, targets).rest)
      ensures q.window.id != p.window.id
    {
      PlacedNamed(TakeAll(ss, targets).rest, q);
      if q.window.id == p.window.id {
        UniquePlace(AllWindows(ss), p, q);
      }
    }
  }

  lemma {:induction false} LoggedIsCovered(ss: seq<SessionSnap>, targets: seq<Target>, a: Answers, id: WindowId)
    requires Unique(AllWindows(ss)) && id in WindowIds(Sessions(Logged(TakeAll(ss, targets), a)))
    ensures Covered(ss, TakeAll(ss, targets), a, id)
  {
    var h := TakeAll(ss, targets);
    hide TakeAll, AllWindows, Sessions, Struck, Logged, Unclosed, Count, Targeted;
    var p :| p in AllWindows(Sessions(Logged(h, a))) && p.window.id == id;
    LoggedIsListed(ss, targets, a, p);
    LoggedIsStruck(ss, targets, a, p);
    TakenCounts(ss, targets, a, id);
    CountPositive(AllWindows(Sessions(Logged(h, a))), id);
    CountPositive(AllWindows(Sessions(Unclosed(h, a))), id);
    assert Count(AllWindows(ss), id) <= 1;
  }

  /** Every window a close destroys is in an entry it archived exactly when every
      window now in a session it destroys is covered by what the snapshot listed. */
  lemma {:induction false} KilledAreArchivedIff(ss: seq<SessionSnap>, targets: seq<Target>, a: Answers,
        live: map<WindowId, string>)
    requires DistinctNames(ss) && Unique(AllWindows(ss))
    ensures var h := TakeAll(ss, targets);
            Killed(live, Struck(h, a)) <= WindowIds(Sessions(Logged(h, a)))
            <==> forall id :: id in live && SessionTarget(live[id]) in Struck(h, a) ==> Covered(ss, h, a, id)
  {
    var h := TakeAll(ss, targets);
    hide TakeAll, AllWindows, Sessions, Struck, Logged, Covered, WindowIds, Unique, DistinctNames;
    forall id | id in live && SessionTarget(live[id]) in Struck(h, a)
      ensures Covered(ss, h, a, id) <==> id in WindowIds(Sessions(Logged(h, a)))
      ensures id in Killed(live, Struck(h, a))
    {
      if Covered(ss, h, a, id) {
        CoveredIsLogged(ss, targets, a, id);
      }
      if id in WindowIds(Sessions(Logged(h, a))) {
        LoggedIsCovered(ss, targets, a, id);
      }
    }
    forall id | id in Killed(live, Struck(h, a)) && SessionTarget(live[id]) !in Struck(h, a)
      ensures id in WindowIds(Sessions(Logged(h, a)))
    {
      var t :| t in Struck(h, a) && t.WindowTarget? && t.windowId == id;
      WindowTargetLogged(ss, targets, a, t);
    }
  }

  /** So when every target is closed and no window moved, no window is destroyed
      unarchived exactly when the snapshot lists every window now in the sessions
      destroyed: one opened since then dies in no entry. */
  lemma {:induction false} OpenedSinceIsLostIff(ss: seq<SessionSnap>, targets: seq<Target>, a: Answers,
        live: map<WindowId, string>)
    requires DistinctNames(ss) && Unique(AllWindows(ss)) && Unclosed(TakeAll(ss, targets), a) == []
    requires forall p :: p in AllWindows(ss) && p.window.id in live ==> live[p.window.id] == p.session
    ensures var h := TakeAll(ss, targets);
            Killed(live, Struck(h, a)) <= WindowIds(Sessions(Logged(h, a)))
            <==> forall id :: id in live && SessionTarget(live[id]) in Struck(h, a) ==> id in WindowIds(ss)
  {
    var h := TakeAll(ss, targets);
    NoEntriesNoWindows();
    hide TakeAll, AllWindows, Sessions, Struck, Logged, Killed, Unique, DistinctNames, Unclosed;
    KilledAreArchivedIff(ss, targets, a, live);
    forall id | id in live && SessionTarget(live[id]) in Struck(h, a)
      ensures Covered(ss, h, a, id) <==> id in WindowIds(ss)
    {
      if id in WindowIds(ss) {
        var p :| p in AllWindows(ss) && p.window.id == id;
        assert Targeted(Struck(h, a), p);
      }
    }
  }
}
