/** Suspending idle agents (src/suspend.rs): which panes qualify, what the pane
    is marked with, and not trying the same agent again and again. */
module Suspension {
  import opened Wrappers
  import opened Inventory
  import opened Snapshots
  import opened ResumeCommand
  import ShellQuote
  import RestoreWindow

  datatype Config = Config(enabled: bool, idleSecs: nat, excludeCategories: seq<string>, respectDirty: bool)

  datatype Candidate = Candidate(pane: Pane, kind: string, sessionId: string)

  /** The agent and session to resume, when the pane's agent can be suspended. */
  function Suspendable(cfg: Config, kinds: map<string, AgentKind>, states: map<PaneId, PaneState>, now: nat,
        p: Pane): Option<Candidate> {
    if !cfg.enabled || Elapsed(now, p.activity) < cfg.idleSecs || (p.active && p.attached) || p.keep
       || p.pendingRestore.Some? || p.category in cfg.excludeCategories || p.id !in states then None
    else
      var st := states[p.id];
      if st.agent.Some? && st.agent.value in kinds && st.agentSessionId.Some? && st.status == Some(IsIdle)
         && !kinds[st.agent.value].Pi?
      then Some(Candidate(p, st.agent.value, st.agentSessionId.value)) else None
  }

  function Candidates(cfg: Config, kinds: map<string, AgentKind>, states: map<PaneId, PaneState>, now: nat,
        panes: seq<Pane>): seq<Candidate> {
    if panes == [] then [] else
    Candidates(cfg, kinds, states, now, Front(panes)) +
      match Suspendable(cfg, kinds, states, now, Last(panes))
      case None => []
      case Some(c) => [c]
  }

  // ---- What qualifies ------------------------------------------------------

  /** The pane has been quiet for long enough, off screen, and nothing keeps it. */
  ghost predicate Undisturbed(cfg: Config, now: nat, p: Pane) {
    && cfg.enabled && cfg.idleSecs <= Elapsed(now, p.activity)
    && (p.active ==> !p.attached) && p.keep == false && p.pendingRestore == None
    && forall k :: 0 <= k < |cfg.excludeCategories| ==> cfg.excludeCategories[k] != p.category
  }

  /** The pane runs this known agent, idle, in this session; Pi cannot be resumed. */
  ghost predicate IdleIn(kinds: map<string, AgentKind>, states: map<PaneId, PaneState>, p: Pane, kind: string,
        sessionId: string)
  {
    && p.id in states && states[p.id].agent == Some(kind) && states[p.id].agentSessionId == Some(sessionId)
    && states[p.id].status == Some(IsIdle) && kind in kinds && kinds[kind] != Pi
  }

  /** The pane can be suspended. */
  ghost predicate Qualifies(cfg: Config, kinds: map<string, AgentKind>, states: map<PaneId, PaneState>, now: nat,
        p: Pane)
  {
    Undisturbed(cfg, now, p) && exists kind, sessionId :: IdleIn(kinds, states, p, kind, sessionId)
  }

  lemma {:induction false} SuspendableIff(cfg: Config, kinds: map<string, AgentKind>, states: map<PaneId, PaneState>,
        now: nat, p: Pane)
    ensures Suspendable(cfg, kinds, states, now, p).Some? <==> Qualifies(cfg, kinds, states, now, p)
    ensures Suspendable(cfg, kinds, states, now, p).Some? ==>
              var c := Suspendable(cfg, kinds, states, now, p).value;
              c.pane == p && IdleIn(kinds, states, p, c.kind, c.sessionId)
  {
    var s := Suspendable(cfg, kinds, states, now, p);
    if s.Some? {
      assert IdleIn(kinds, states, p, s.value.kind, s.value.sessionId);
    }
  }

  /** Each candidate is a listed pane that qualifies, with its agent and session. */
  lemma {:induction false} CandidatesQualify(cfg: Config, kinds: map<string, AgentKind>,
        states: map<PaneId, PaneState>, now: nat, panes: seq<Pane>)
    ensures forall c :: c in Candidates(cfg, kinds, states, now, panes) ==>
              c.pane in panes && Qualifies(cfg, kinds, states, now, c.pane)
              && IdleIn(kinds, states, c.pane, c.kind, c.sessionId)
  {
    if panes != [] {
      CandidatesQualify(cfg, kinds, states, now, Front(panes));
      SuspendableIff(cfg, kinds, states, now, Last(panes));
      FrontLast(panes);
      hide Suspendable, Qualifies, IdleIn;
    }
  }

  /** Where a pane that qualifies is among the candidates: after only those of
      earlier panes. */
  lemma {:induction false} CandidateOf(cfg: Config, kinds: map<string, AgentKind>, states: map<PaneId, PaneState>,
        now: nat, panes: seq<Pane>, i: nat) returns (k: nat)
    requires i < |panes| && Qualifies(cfg, kinds, states, now, panes[i])
    ensures var found := Candidates(cfg, kinds, states, now, panes);
            && k < |found| && found[k].pane == panes[i]
            && forall c :: c in found[..k] ==> c.pane in panes[..i] && Qualifies(cfg, kinds, states, now, c.pane)
    decreases |panes|
  {
    var front, before := Front(panes), Candidates(cfg, kinds, states, now, Front(panes));
    hide Suspendable, Qualifies;
    if i < |front| {
      k := CandidateOf(cfg, kinds, states, now, front, i);
      assert Candidates(cfg, kinds, states, now, panes)[..k] == before[..k] && panes[..i] == front[..i];
    } else {
      k := |before|;
      SuspendableIff(cfg, kinds, states, now, panes[i]);
      CandidatesQualify(cfg, kinds, states, now, front);
      assert Candidates(cfg, kinds, states, now, panes)[..k] == before && panes[..i] == front;
    }
  }

  // ---- What a suspended pane keeps -----------------------------------------

  /** What suspending records in the pane's pending option. */
  function PendingFor(f: Facts, c: Candidate): Pending {
    Pending(if c.pane.id in f.argvs then Some(Redacted(f.argvs[c.pane.id], f.redact)) else None,
            Some(AgentResume(c.kind, Some(c.sessionId))))
  }

  function SuspendedPane(f: Facts, c: Candidate): Pane {
    c.pane.(pendingRestore := Some(PendingFor(f, c)))
  }

  /** The next snapshot, taken once the agent is gone, records the suspended pane
      as the last one with the agent running did. */
  lemma {:induction false} SuspendingKeepsTheSnapshot(cfg: Config, kinds: map<string, AgentKind>, now: nat,
        f: Facts, p: Pane, g: Facts)
    requires Suspendable(cfg, kinds, f.states, now, p).Some?
    requires p.id !in g.argvs && (p.id in g.states ==> g.states[p.id].agent.None?)
    ensures PaneOf(g, SuspendedPane(f, Suspendable(cfg, kinds, f.states, now, p).value)) == PaneOf(f, p)
  {
    hide Redacted;
  }

  /** The pasted command, read by the shell, resumes the suspended session, with
      the agent's name for a command line that could not be read. */
  lemma {:induction false} PastedCommandResumes(cfg: Config, kinds: map<string, AgentKind>, now: nat, f: Facts, p: Pane)
    requires Suspendable(cfg, kinds, f.states, now, p).Some?
    ensures var c := Suspendable(cfg, kinds, f.states, now, p).value;
            var argv := if p.id in f.argvs then Redacted(f.argvs[p.id], f.redact) else [c.kind];
            var r := RestoreWindow.PaneCommand(PaneOf(f, p), kinds);
            r.Some? && ShellQuote.Words(ShellQuote.Between, r.value.0)
                       == Some(ResumeSpec(kinds[c.kind], argv, Some(c.sessionId)))
  {
    hide Redacted, ResumeSpec;
    RestoreWindow.PaneCommandReads(PaneOf(f, p), kinds);
  }

  // ---- Not trying again ----------------------------------------------------

  function Ids(found: seq<Candidate>): (ids: set<PaneId>)
    ensures forall c :: c in found ==> c.pane.id in ids
  {
    set c | c in found :: c.pane.id
  }

  /** The candidates tried in a step: the first for each pane not tried before,
      unless its directory is dirty. */
  function Tries(cfg: Config, dirty: set<string>, tried: set<PaneId>, found: seq<Candidate>): seq<Candidate> {
    if found == [] then [] else
    var c := Last(found);
    Tries(cfg, dirty, tried, Front(found))
    + if c.pane.id in tried || c.pane.id in Ids(Front(found)) || (cfg.respectDirty && c.pane.cwd in dirty) then []
      else [c]
  }

  /** Those whose agent gave the prompt back. */
  function Stopped(attempts: seq<Candidate>, stops: set<PaneId>): seq<Candidate> {
    if attempts == [] then [] else
    Stopped(Front(attempts), stops) + if Last(attempts).pane.id in stops then [Last(attempts)] else []
  }

  lemma {:induction false} OneMoreTry(cfg: Config, dirty: set<string>, tried: set<PaneId>, found: seq<Candidate>,
        i: nat, stops: set<PaneId>)
    requires i < |found|
    ensures var c, ids := found[i], (tried * Ids(found)) + Ids(found[..i]);
            var again := c.pane.id in ids || (cfg.respectDirty && c.pane.cwd in dirty);
            var tries, more := Tries(cfg, dirty, tried, found[..i]), Tries(cfg, dirty, tried, found[..i + 1]);
            && (tried * Ids(found)) + Ids(found[..i + 1]) == ids + {c.pane.id}
            && more == (if again then tries else tries + [c])
            && Stopped(more, stops) == Stopped(tries, stops) + if !again && c.pane.id in stops then [c] else []
  {
    hide Suspendable;
    var c, tries := found[i], Tries(cfg, dirty, tried, found[..i]);
    assert Front(found[..i + 1]) == found[..i] && Last(found[..i + 1]) == c;
    assert Ids(found[..i + 1]) == Ids(found[..i]) + {c.pane.id};
    assert c in found;
    assert Front(tries + [c]) == tries;
    hide Ids;
  }

  lemma {:induction false} NoTries(cfg: Config, dirty: set<string>, tried: set<PaneId>, found: seq<Candidate>,
        stops: set<PaneId>)
    ensures Tries(cfg, dirty, tried, found[..0]) == [] && Stopped([], stops) == [] && Ids(found[..0]) == {}
  {
  }

  /** The first candidate of a pane not tried before is tried when it is clean. */
  lemma {:induction false} FirstTried(cfg: Config, dirty: set<string>, tried: set<PaneId>, found: seq<Candidate>,
        k: nat)
    requires k < |found| && found[k].pane.id !in tried && !(cfg.respectDirty && found[k].pane.cwd in dirty)
    requires forall c :: c in found[..k] ==> c.pane.id != found[k].pane.id
    ensures found[k] in Tries(cfg, dirty, tried, found)
  {
    if k < |found| - 1 {
      assert Front(found)[..k] == found[..k];
      FirstTried(cfg, dirty, tried, Front(found), k);
    } else {
      assert Front(found) == found[..k];
    }
  }

  /** Every pane tried is listed, qualifies, was not tried before and is clean, and
      its agent and session are those of the attempt; and the first such pane of an
      id is tried. */
  ghost predicate TriesRightly(cfg: Config, kinds: map<string, AgentKind>, panes: seq<Pane>,
        states: map<PaneId, PaneState>, now: nat, dirty: set<string>, tried: set<PaneId>, attempts: seq<Candidate>)
  {
    && (forall c :: c in attempts ==>
          && c.pane in panes && Qualifies(cfg, kinds, states, now, c.pane) && c.pane.id !in tried
          && !(cfg.respectDirty && c.pane.cwd in dirty) && IdleIn(kinds, states, c.pane, c.kind, c.sessionId))
    && (forall i :: 0 <= i < |panes| && Qualifies(cfg, kinds, states, now, panes[i]) && panes[i].id !in tried
                    && !(cfg.respectDirty && panes[i].cwd in dirty)
                    && (forall p ::
                          p in panes[..i] && Qualifies(cfg, kinds, states, now, p) ==> p.id != panes[i].id) ==>
          exists c :: c in attempts && c.pane == panes[i])
  }

  lemma {:induction false} TriesAreRight(cfg: Config, kinds: map<string, AgentKind>, panes: seq<Pane>,
        states: map<PaneId, PaneState>, now: nat, dirty: set<string>, tried: set<PaneId>)
    ensures var found := Candidates(cfg, kinds, states, now, panes);
            TriesRightly(cfg, kinds, panes, states, now, dirty, tried, Tries(cfg, dirty, tried, found))
  {
    var found := Candidates(cfg, kinds, states, now, panes);
    hide Candidates, Tries, Qualifies, IdleIn;
    CandidatesQualify(cfg, kinds, states, now, panes);
    TriedFrom(cfg, dirty, tried, found);
    forall i | 0 <= i < |panes| && Qualifies(cfg, kinds, states, now, panes[i]) && panes[i].id !in tried
               && !(cfg.respectDirty && panes[i].cwd in dirty)
               && (forall p :: p in panes[..i] && Qualifies(cfg, kinds, states, now, p) ==> p.id != panes[i].id)
      ensures exists c :: c in Tries(cfg, dirty, tried, found) && c.pane == panes[i]
    {
      var k := CandidateOf(cfg, kinds, states, now, panes, i);
      FirstTried(cfg, dirty, tried, found, k);
    }
  }

  class Suspender {
    var tried: set<PaneId>

    constructor ()
      ensures tried == {}
    {
      tried := {};
    }

    /** Try every candidate not tried yet. `dirty`: directories with uncommitted
        changes; `stops`: panes whose agent gives the prompt back. */
    method Step(cfg: Config, kinds: map<string, AgentKind>, panes: seq<Pane>, states: map<PaneId, PaneState>, now: nat,
                dirty: set<string>, stops: set<PaneId>)
      returns (attempts: seq<Candidate>, done: seq<Candidate>)
      modifies this
      ensures var found := Candidates(cfg, kinds, states, now, panes);
              tried == Ids(found) && attempts == Tries(cfg, dirty, old(tried), found)
      ensures TriesRightly(cfg, kinds, panes, states, now, dirty, old(tried), attempts)
      ensures done == Stopped(attempts, stops) && forall c :: c in done <==> c in attempts && c.pane.id in stops
    {
      TriesAreRight(cfg, kinds, panes, states, now, dirty, tried);
      hide Candidates, Tries, Stopped;
      var found := Candidates(cfg, kinds, states, now, panes);
      tried := set id | id in tried && id in Ids(found);
      attempts, done := [], [];
      NoTries(cfg, dirty, old(tried), found, stops);
      for i := 0 to |found|
        invariant tried == (old(tried) * Ids(found)) + Ids(found[..i])
        invariant attempts == Tries(cfg, dirty, old(tried), found[..i])
        invariant done == Stopped(attempts, stops)
      {
        var c := found[i];
        OneMoreTry(cfg, dirty, old(tried), found, i, stops);
        var isNew := c.pane.id !in tried;
        tried := tried + {c.pane.id};
        if !isNew || (cfg.respectDirty && c.pane.cwd in dirty) {
          continue;
        }
        attempts := attempts + [c];
        if c.pane.id in stops {
          done := done + [c];
        }
      }
      assert found[..|found|] == found;
      StoppedAre(attempts, stops);
    }
  }

  lemma {:induction false} StoppedAre(attempts: seq<Candidate>, stops: set<PaneId>)
    ensures forall c :: c in Stopped(attempts, stops) <==> c in attempts && c.pane.id in stops
  {
    if attempts != [] {
      StoppedAre(Front(attempts), stops);
      FrontLast(attempts);
    }
  }

  lemma {:induction false} TriedFrom(cfg: Config, dirty: set<string>, tried: set<PaneId>, found: seq<Candidate>)
    ensures forall c :: c in Tries(cfg, dirty, tried, found) ==>
            c in found && c.pane.id !in tried && !(cfg.respectDirty && c.pane.cwd in dirty)
  {
    if found != [] {
      TriedFrom(cfg, dirty, tried, Front(found));
      FrontLast(found);
    }
  }

  lemma {:induction false} TriedOnce(cfg: Config, dirty: set<string>, tried: set<PaneId>, found: seq<Candidate>,
        i: nat, j: nat)
    requires i < j < |Tries(cfg, dirty, tried, found)|
    ensures Tries(cfg, dirty, tried, found)[i].pane.id != Tries(cfg, dirty, tried, found)[j].pane.id
  {
    var front := Tries(cfg, dirty, tried, Front(found));
    if j < |front| {
      TriedOnce(cfg, dirty, tried, Front(found), i, j);
    } else {
      TriedFrom(cfg, dirty, tried, Front(found));
      assert front[i] in front;
    }
  }

  lemma {:induction false} NewOnesTried(cfg: Config, dirty: set<string>, tried: set<PaneId>, found: seq<Candidate>,
        c: Candidate)
    requires c in found && c.pane.id !in tried && !(cfg.respectDirty && c.pane.cwd in dirty)
    requires forall d :: d in found && d.pane.id == c.pane.id ==> d == c
    ensures c in Tries(cfg, dirty, tried, found)
  {
    FrontLast(found);
    if c in Front(found) {
      NewOnesTried(cfg, dirty, tried, Front(found), c);
    }
  }

  /** One step of a run: the candidates found and the dirty directories. */
  datatype Round = Round(found: seq<Candidate>, dirty: set<string>)

  /** The panes marked as tried before each round of a run. */
  function TriedBefore(rounds: seq<Round>): set<PaneId> {
    if rounds == [] then {} else Ids(Last(rounds).found)
  }

  /** Over any run, a clean candidate is tried in a round exactly when it was not
      a candidate in the round before: an agent that won't stop isn't tried again
      until it stops qualifying. */
  lemma {:induction false} TriedAgainOnlyAfterLeaving(cfg: Config, rounds: seq<Round>, k: nat, c: Candidate)
    requires k < |rounds| && c in rounds[k].found && !(cfg.respectDirty && c.pane.cwd in rounds[k].dirty)
    requires forall d :: d in rounds[k].found && d.pane.id == c.pane.id ==> d == c
    ensures c in Tries(cfg, rounds[k].dirty, TriedBefore(rounds[..k]), rounds[k].found)
            <==> k == 0 || forall d :: d in rounds[k - 1].found ==> d.pane.id != c.pane.id
  {
    var tried := TriedBefore(rounds[..k]);
    if k > 0 {
      assert Last(rounds[..k]) == rounds[k - 1];
    }
    if c.pane.id !in tried {
      NewOnesTried(cfg, rounds[k].dirty, tried, rounds[k].found, c);
    } else {
      TriedFrom(cfg, rounds[k].dirty, tried, rounds[k].found);
    }
  }
}
