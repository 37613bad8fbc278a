/** Closing targets with their windows archived first (src/snapshot.rs). The
    steps that reach the outside are recorded in order, so what holds between
    any two of them can be stated. */
module ArchiveClose {
  import opened Snapshots
  import opened ClosedHistory

  /** What happened outside, in order: the history file was replaced, or tmux
      was asked to close a target. */
  datatype Step = Saved(history: seq<ClosedEntry>) | Kill(target: Target, id: nat, ok: bool)

  /** How the outside answers: whether each save of the history works, and
      whether tmux closes the `i`-th target. */
  datatype Answers = Answers(saves: bool, closes: nat -> bool, resaves: bool)

  /** The history file after some steps. */
  function FileAfter(file: seq<ClosedEntry>, steps: seq<Step>): seq<ClosedEntry> {
    if steps == [] then file
    else if Last(steps).Saved? then Last(steps).history
    else FileAfter(file, Front(steps))
  }

  function Kills(found: seq<Target>, first: nat, closes: nat -> bool, n: nat): (ks: seq<Step>)
    requires n <= |found|
    ensures |ks| == n && forall i :: 0 <= i < n ==> ks[i] == Kill(found[i], first + i, closes(i))
  {
    seq(n, i requires 0 <= i < n => Kill(found[i], first + i, closes(i)))
  }

  /** The entries of the targets tmux closed, or did not. */
  function IdsWhere(first: nat, closes: nat -> bool, wanted: bool, n: nat): (ids: seq<nat>)
    ensures forall id: nat :: id in ids <==> first <= id < first + n && closes(id - first) == wanted
  {
    if n == 0 then []
    else IdsWhere(first, closes, wanted, n - 1) + if closes(n - 1) == wanted then [first + n - 1] else []
  }

  function DropIds(history: seq<ClosedEntry>, ids: seq<nat>): seq<ClosedEntry> {
    if history == [] then [] else
    if Last(history).id in ids then DropIds(Front(history), ids) else DropIds(Front(history), ids) + [Last(history)]
  }

  datatype ClosedTarget = ClosedTarget(target: Target, id: nat)

  function ClosedTargets(found: seq<Target>, first: nat, closes: nat -> bool, n: nat): seq<ClosedTarget>
    requires n <= |found|
  {
    if n == 0 then []
    else ClosedTargets(found, first, closes, n - 1)
         + if closes(n - 1) then [ClosedTarget(found[n - 1], first + n - 1)] else []
  }

  /** Every step of closing what `h` found. */
  function Steps(h: Haul, file: seq<ClosedEntry>, reason: CloseReason, now: nat, a: Answers): seq<Step> {
    if h.targets == [] || !a.saves then [] else
    var history := Recorded(file, h.entries, reason, now);
    var first := MaxId(file) + 1;
    var failed := IdsWhere(first, a.closes, false, |h.targets|);
    [Saved(history)] + Kills(h.targets, first, a.closes, |h.targets|)
      + if failed != [] && a.resaves then [Saved(DropIds(history, failed))] else []
  }

  method ArchiveAndClose(sessions: seq<SessionSnap>, targets: seq<Target>, reason: CloseReason, now: nat,
                         file: seq<ClosedEntry>, a: Answers)
    returns (rest: seq<SessionSnap>, closed: seq<ClosedTarget>, steps: seq<Step>)
    ensures rest == TakeAll(sessions, targets).rest
    ensures steps == Steps(TakeAll(sessions, targets), file, reason, now, a)
    ensures var found := TakeAll(sessions, targets).targets;
            closed == if a.saves then ClosedTargets(found, MaxId(file) + 1, a.closes, |found|) else []
  {
    hide Recorded, TakeAll, DropIds, MaxId, HaulFits;
    var found, entries;
    found, entries, rest := Take(sessions, targets);
    steps, closed := [], [];
    if found == [] {
      return;
    }
    var history, ids := RecordClosed(file, entries, reason, now);
    if !a.saves {
      return;
    }
    steps := [Saved(history)];
    var failed := [];
    ghost var first := MaxId(file) + 1;
    for i := 0 to |found|
      invariant steps == [Saved(history)] + Kills(found, first, a.closes, i)
      invariant closed == ClosedTargets(found, first, a.closes, i)
      invariant failed == IdsWhere(first, a.closes, false, i)
    {
      var ok := a.closes(i);
      steps := steps + [Kill(found[i], ids[i], ok)];
      if ok {
        closed := closed + [ClosedTarget(found[i], ids[i])];
      } else {
        failed := failed + [ids[i]];
      }
    }
    if failed != [] {
      var left := WithoutIds(history, failed);
      if a.resaves {
        steps := steps + [Saved(left)];
      }
    }
  }

  method WithoutIds(history: seq<ClosedEntry>, ids: seq<nat>) returns (left: seq<ClosedEntry>)
    ensures left == DropIds(history, ids)
  {
    left := [];
    for i := 0 to |history|
      invariant left == DropIds(history[..i], ids)
    {
      assert Front(history[..i + 1]) == history[..i] && Last(history[..i + 1]) == history[i];
      if history[i].id !in ids {
        left := left + [history[i]];
      }
    }
    assert history[..|history|] == history;
  }

  // ---- Archived before killed ----------------------------------------------

  /** The file holds, under `id`, the entry taken for a target. */
  ghost predicate Holds(file: seq<ClosedEntry>, id: nat, c: Closed) {
    exists e :: e in file && e.id == id && e.kind == c.kind && e.session == c.session
  }

  /** Whenever tmux is asked to close a target, its windows are in the file. */
  ghost predicate ArchivedFirst(h: Haul, file: seq<ClosedEntry>, steps: seq<Step>) {
    forall k, i :: 0 <= k < |steps| && steps[k].Kill? && 0 <= i < |h.targets| && steps[k].id == MaxId(file) + 1 + i
      ==> |h.entries| > i && Holds(FileAfter(file, steps[..k]), steps[k].id, h.entries[i])
  }

  lemma {:induction false} FileAfterSave(file: seq<ClosedEntry>, history: seq<ClosedEntry>, ks: seq<Step>)
    requires forall i :: 0 <= i < |ks| ==> ks[i].Kill?
    ensures FileAfter(file, [Saved(history)] + ks) == history
  {
    if ks == [] {
      assert [Saved(history)] + ks == [Saved(history)];
    } else {
      FileAfterSave(file, history, Front(ks));
      assert Front([Saved(history)] + ks) == [Saved(history)] + Front(ks);
    }
  }

  /** During the closing the file is the history recorded before it. */
  lemma {:induction false} FileDuringKills(h: Haul, file: seq<ClosedEntry>, reason: CloseReason, now: nat,
        a: Answers, k: nat)
    requires h.targets != [] && |h.targets| == |h.entries| && a.saves && 1 <= k <= 1 + |h.targets|
    ensures var steps := Steps(h, file, reason, now, a);
            k <= |steps| && FileAfter(file, steps[..k]) == Recorded(file, h.entries, reason, now)
            && (k <= |h.targets| ==>
                  k < |steps| && steps[k] == Kill(h.targets[k - 1], MaxId(file) + k, a.closes(k - 1)))
  {
    hide Recorded, MaxId, IdsWhere, DropIds, FileAfter;
    var ks := Kills(h.targets, MaxId(file) + 1, a.closes, |h.targets|);
    var history := Recorded(file, h.entries, reason, now);
    assert Steps(h, file, reason, now, a)[..k] == [Saved(history)] + ks[..k - 1];
    FileAfterSave(file, history, ks[..k - 1]);
  }

  lemma {:induction false} StampedHeld(file: seq<ClosedEntry>, entries: seq<Closed>, reason: CloseReason, now: nat,
        i: nat)
    requires i < |entries|
    ensures Holds(Recorded(file, entries, reason, now), MaxId(file) + 1 + i, entries[i])
            <==> i + CLOSED_MAX >= |entries|
  {
    hide MaxId, Recorded, Retain;
    var r, added := Recorded(file, entries, reason, now), Stamped(entries, reason, now, MaxId(file));
    if |entries| <= CLOSED_MAX {
      RecordedShape(file, entries, reason, now);
      assert r[|r| - |added| + i] == added[i];
      assert added[i] in r;
    } else {
      RecordedOverflow(file, entries, reason, now);
      if i + CLOSED_MAX >= |entries| {
        assert r[i + CLOSED_MAX - |added|] == added[i];
        assert added[i] in r;
      }
      assert forall x :: 0 <= x < |r| ==> r[x].id == MaxId(file) + 1 + |added| - CLOSED_MAX + x;
    }
  }

  /** Every target is archived before it is closed, exactly when at most a
      hundred targets are closed at once: beyond that, the first ones are
      pushed out of the history by the last ones and closed all the same. */
  lemma {:induction false} ArchivedFirstIff(h: Haul, file: seq<ClosedEntry>, reason: CloseReason, now: nat, a: Answers)
    requires |h.targets| == |h.entries| && a.saves
    ensures ArchivedFirst(h, file, Steps(h, file, reason, now, a)) <==> |h.entries| <= CLOSED_MAX
  {
    hide Recorded, Steps, FileAfter, MaxId, Holds;
    var steps := Steps(h, file, reason, now, a);
    if h.entries == [] {
      assert steps == [] by { NoTargetsNoSteps(h, file, reason, now, a); }
    } else if |h.entries| <= CLOSED_MAX {
      forall k, i | 0 <= k < |steps| && steps[k].Kill? && 0 <= i < |h.targets| && steps[k].id == MaxId(file) + 1 + i
        ensures Holds(FileAfter(file, steps[..k]), steps[k].id, h.entries[i])
      {
        KillPosition(h, file, reason, now, a, k);
        FileDuringKills(h, file, reason, now, a, k);
        StampedHeld(file, h.entries, reason, now, i);
      }
    } else {
      FileDuringKills(h, file, reason, now, a, 1);
      StampedHeld(file, h.entries, reason, now, 0);
      assert steps[1].Kill? && steps[1].id == MaxId(file) + 1 + 0;
    }
  }

  lemma {:induction false} NoTargetsNoSteps(h: Haul, file: seq<ClosedEntry>, reason: CloseReason, now: nat, a: Answers)
    requires h.targets == [] || !a.saves
    ensures Steps(h, file, reason, now, a) == []
  {
  }

  lemma {:induction false} KillPosition(h: Haul, file: seq<ClosedEntry>, reason: CloseReason, now: nat, a: Answers,
        k: nat)
    requires h.targets != [] && a.saves
    requires k < |Steps(h, file, reason, now, a)| && Steps(h, file, reason, now, a)[k].Kill?
    ensures 1 <= k <= |h.targets|
  {
    hide Recorded, MaxId, IdsWhere, DropIds;
  }

  // ---- What is left in the file --------------------------------------------

  lemma {:induction false} DropIdsAppend(x: seq<ClosedEntry>, y: seq<ClosedEntry>, ids: seq<nat>)
    ensures DropIds(x + y, ids) == DropIds(x, ids) + DropIds(y, ids)
  {
    if y == [] {
      assert x + y == x;
    } else {
      DropIdsAppend(x, Front(y), ids);
      assert Front(x + y) == x + Front(y);
    }
  }

  lemma {:induction false} DropNothing(x: seq<ClosedEntry>, ids: seq<nat>)
    requires forall i :: 0 <= i < |x| ==> x[i].id !in ids
    ensures DropIds(x, ids) == x
  {
    if x != [] {
      DropNothing(Front(x), ids);
      FrontLast(x);
    }
  }

  /** The stamped entries of the targets tmux closed. */
  function StampedClosed(entries: seq<Closed>, reason: CloseReason, now: nat, first: nat, closes: nat -> bool,
        n: nat): seq<ClosedEntry>
    requires n <= |entries|
  {
    if n == 0 then []
    else StampedClosed(entries, reason, now, first, closes, n - 1)
         + if closes(n - 1)
           then [ClosedEntry(first + n - 1, entries[n - 1].kind, reason, now, entries[n - 1].session)]
           else []
  }

  lemma {:induction false} DropFailed(entries: seq<Closed>, reason: CloseReason, now: nat, last: nat,
        closes: nat -> bool, n: nat, ids: seq<nat>)
    requires n <= |entries|
    requires forall i :: 0 <= i < n ==> (last + 1 + i in ids <==> !closes(i))
    ensures DropIds(Stamped(entries[..n], reason, now, last), ids)
            == StampedClosed(entries, reason, now, last + 1, closes, n)
  {
    if n > 0 {
      DropFailed(entries, reason, now, last, closes, n - 1, ids);
      assert Front(Stamped(entries[..n], reason, now, last)) == Stamped(entries[..n - 1], reason, now, last);
    }
  }

  /** When at most a hundred targets are closed and the failed ones, if any, can
      be taken out of the file again, it ends as the newest young part of what it held followed by exactly the
      entries of the closed targets, in order. */
  lemma {:induction false} FileAtEnd(h: Haul, file: seq<ClosedEntry>, reason: CloseReason, now: nat, a: Answers)
    requires h.targets != [] && |h.targets| == |h.entries| <= CLOSED_MAX && a.saves
    requires a.resaves || IdsWhere(MaxId(file) + 1, a.closes, false, |h.targets|) == []
    ensures var end := FileAfter(file, Steps(h, file, reason, now, a));
            var added := StampedClosed(h.entries, reason, now, MaxId(file) + 1, a.closes, |h.entries|);
            && |added| <= |end| && end[|end| - |added|..] == added
            && Suffix(end[..|end| - |added|], Retain(file, now))
  {
    hide *;
    LastSave(h, file, reason, now, a);
    FailedDropped(h.entries, file, reason, now, a.closes);
  }

  /** Dropping the failed targets leaves the prior entries and the closed ones. */
  lemma {:induction false} FailedDropped(entries: seq<Closed>, file: seq<ClosedEntry>, reason: CloseReason,
        now: nat, closes: nat -> bool)
    requires |entries| <= CLOSED_MAX
    ensures var failed := IdsWhere(MaxId(file) + 1, closes, false, |entries|);
            var end := DropIds(Recorded(file, entries, reason, now), failed);
            var added := StampedClosed(entries, reason, now, MaxId(file) + 1, closes, |entries|);
            && |added| <= |end| && end[|end| - |added|..] == added
            && Suffix(end[..|end| - |added|], Retain(file, now))
  {
    hide *;
    var stamped := Stamped(entries, reason, now, MaxId(file));
    var failed := IdsWhere(MaxId(file) + 1, closes, false, |entries|);
    var prior := PriorPart(file, entries, reason, now, failed);
    DropIdsAppend(prior, stamped, failed);
    assert entries[..|entries|] == entries;
    DropFailed(entries, reason, now, MaxId(file), closes, |entries|, failed);
    AtEnd(prior, StampedClosed(entries, reason, now, MaxId(file) + 1, closes, |entries|));
  }

  lemma {:induction false} AtEnd<T>(a: seq<T>, b: seq<T>)
    ensures |b| <= |a + b| && (a + b)[|a + b| - |b|..] == b && (a + b)[..|a + b| - |b|] == a
  {
  }

  lemma {:induction false} PriorPart(file: seq<ClosedEntry>, entries: seq<Closed>, reason: CloseReason, now: nat,
        failed: seq<nat>)
    returns (prior: seq<ClosedEntry>)
    requires |entries| <= CLOSED_MAX && forall id: nat :: id in failed ==> id > MaxId(file)
    ensures Recorded(file, entries, reason, now) == prior + Stamped(entries, reason, now, MaxId(file))
    ensures Suffix(prior, Retain(file, now)) && DropIds(prior, failed) == prior
  {
    hide Recorded, Retain, MaxId, DropIds;
    var history := Recorded(file, entries, reason, now);
    RecordedShape(file, entries, reason, now);
    prior := history[..|history| - |entries|];
    PriorIds(file, prior, now);
    DropNothing(prior, failed);
  }

  lemma {:induction false} PriorIds(file: seq<ClosedEntry>, prior: seq<ClosedEntry>, now: nat)
    requires Suffix(prior, Retain(file, now))
    ensures forall i :: 0 <= i < |prior| ==> prior[i].id <= MaxId(file)
  {
    RetainMembers(file, now);
    assert forall i :: 0 <= i < |prior| ==> prior[i] in Retain(file, now);
  }

  lemma {:induction false} LastSave(h: Haul, file: seq<ClosedEntry>, reason: CloseReason, now: nat, a: Answers)
    requires h.targets != [] && |h.targets| == |h.entries| && a.saves
    requires a.resaves || IdsWhere(MaxId(file) + 1, a.closes, false, |h.targets|) == []
    ensures var history := Recorded(file, h.entries, reason, now);
            var failed := IdsWhere(MaxId(file) + 1, a.closes, false, |h.targets|);
            FileAfter(file, Steps(h, file, reason, now, a)) == DropIds(history, failed)
  {
    hide Recorded, MaxId, IdsWhere, DropIds, FileAfter;
    var history := Recorded(file, h.entries, reason, now);
    var failed := IdsWhere(MaxId(file) + 1, a.closes, false, |h.targets|);
    var ks := Kills(h.targets, MaxId(file) + 1, a.closes, |h.targets|);
    var last := if failed != [] then [Saved(DropIds(history, failed))] else [];
    assert Steps(h, file, reason, now, a) == [Saved(history)] + ks + last;
    hide *;
    if failed == [] {
      assert [Saved(history)] + ks + last == [Saved(history)] + ks;
      FileAfterSave(file, history, ks);
      DropNothing(history, failed);
    } else {
      FileAfterLastSave(file, [Saved(history)] + ks, DropIds(history, failed));
    }
  }

  lemma {:induction false} FileAfterLastSave(file: seq<ClosedEntry>, steps: seq<Step>, history: seq<ClosedEntry>)
    ensures FileAfter(file, steps + [Saved(history)]) == history
  {
  }

  /** The reported targets are the closed ones, each with the id of its entry. */
  lemma {:induction false} ReportedAreArchived(h: Haul, reason: CloseReason, now: nat, first: nat,
        closes: nat -> bool, n: nat)
    requires n <= |h.targets| == |h.entries|
    ensures var c := ClosedTargets(h.targets, first, closes, n);
            var e := StampedClosed(h.entries, reason, now, first, closes, n);
            |c| == |e| && forall k :: 0 <= k < |c| ==>
              && c[k].id == e[k].id
              && exists i ::
                   0 <= i < n && closes(i) && c[k].target == h.targets[i] && e[k].session == h.entries[i].session
  {
    if n > 0 {
      ReportedAreArchived(h, reason, now, first, closes, n - 1);
    }
  }

  /** Ids in the file stay distinct, its size within a hundred and its entries
      within seven days, after every step. */
  lemma {:induction false} FileStaysBounded(h: Haul, file: seq<ClosedEntry>, reason: CloseReason, now: nat,
        a: Answers, k: nat)
    requires |h.targets| == |h.entries| && 0 < k <= |Steps(h, file, reason, now, a)| && DistinctIds(file)
    ensures var f := FileAfter(file, Steps(h, file, reason, now, a)[..k]);
            |f| <= CLOSED_MAX && DistinctIds(f) && forall e :: e in f ==> Young(e, now)
  {
    var history := Recorded(file, h.entries, reason, now);
    RecordedBounded(file, h.entries, reason, now);
    hide Recorded, MaxId, IdsWhere, FileAfter;
    var steps := Steps(h, file, reason, now, a);
    if k <= 1 + |h.targets| {
      FileDuringKills(h, file, reason, now, a, k);
    } else {
      var failed := IdsWhere(MaxId(file) + 1, a.closes, false, |h.targets|);
      assert steps[..k] == steps;
      LastSave(h, file, reason, now, a);
      DropKeeps(history, failed);
    }
  }

  lemma {:induction false} DropKeeps(history: seq<ClosedEntry>, ids: seq<nat>)
    requires DistinctIds(history)
    ensures DistinctIds(DropIds(history, ids)) && |DropIds(history, ids)| <= |history|
    ensures forall i :: 0 <= i < |DropIds(history, ids)| ==> DropIds(history, ids)[i] in history
  {
    if history != [] {
      DropKeeps(Front(history), ids);
      assert forall e :: e in Front(history) ==> e in history && e.id != Last(history).id;
    }
  }
}
