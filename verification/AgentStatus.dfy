/** What each pane's agent needs from the user (src/inventory.rs): hook events,
    time on screen and pane output decide the status, tick by tick. */
module AgentStatuses {
  import opened Wrappers
  import opened Inventory
  import opened Snapshots

  /** Seconds a finished pane must be on screen before its result counts as read. */
  const READ_AFTER: nat := 2
  /** Output within this many seconds counts as producing output now. */
  const ACTIVITY_WINDOW: nat := 2

  // ---- One pane ------------------------------------------------------------

  /** The state after a hook event was delivered for the pane. */
  function Recorded(st: PaneState, event: AgentEvent, sessionId: Option<string>, now: nat): PaneState {
    if event == PermissionRequest && st.lastEvent == Some(Question) then st else
    var a := if event == SessionStopped then st.(agentSessionId := None)
             else if sessionId.Some? then st.(agentSessionId := sessionId) else st;
    var b := if event == Finished then a.(read := false, viewedSince := None) else a;
    b.(lastEvent := Some(event), lastEventAt := Some(now))
  }

  /** The state after a tick saw the pane on screen or not. */
  function Viewed(st: PaneState, viewing: bool, now: nat): PaneState {
    if !viewing then st.(viewedSince := None) else
    var since := if st.viewedSince.Some? then st.viewedSince.value else now;
    st.(viewedSince := Some(since), read := st.read || Elapsed(now, since) >= READ_AFTER)
  }

  function FromEvent(st: PaneState): Option<AgentStatus> {
    match st.lastEvent
    case None => None
    case Some(e) =>
      match e
      case SessionStopped => None
      case PermissionRequest => Some(IsPermission)
      case Question => Some(IsQuestion)
      case NeedsInput => Some(IsQuestion)
      case Error(_) => Some(IsError)
      case Working => Some(IsWorking)
      case Finished => Some(if st.read then IsIdle else IsDone)
      case Idle => Some(IsIdle)
      case SessionStarted => Some(IsIdle)
  }

  /** Status from the last hook event; without one, and for agents whose hooks
      don't report turn starts (`guessing`), recent output means working. */
  function Derived(st: PaneState, guessing: set<string>, pane: Pane, now: nat): Option<AgentStatus> {
    var outputting := Elapsed(now, pane.activity) <= ACTIVITY_WINDOW;
    if st.lastEvent == Some(SessionStopped) then None
    else if st.lastEvent.None? then
      if st.agent.Some? then Some(if outputting then IsWorking else IsIdle) else None
    else
      var status := FromEvent(st).value;
      var outputSince := pane.activity > (if st.lastEventAt.Some? then st.lastEventAt.value else 0);
      var guesses := st.agent.Some? && st.agent.value in guessing;
      if (status == IsIdle || status == IsDone) && guesses && outputting && outputSince then Some(IsWorking)
      else Some(status)
  }

  /** A tick's effect on one pane. */
  function Ticked(st: PaneState, guessing: set<string>, pane: Pane, now: nat): PaneState {
    var v := Viewed(st, pane.active && pane.attached, now);
    v.(status := Derived(v, guessing, pane, now))
  }

  /** The state after the pane's agent was looked up again. */
  function Detected(st: PaneState, agent: Option<string>): PaneState {
    if st.agent == agent then st
    else (if st.agent.Some? then FRESH_STATE else st).(agent := agent)
  }

  // ---- The table -----------------------------------------------------------

  datatype Change = Change(pane: PaneId, status: AgentStatus)

  function TickedAll(states: map<PaneId, PaneState>, guessing: set<string>, panes: seq<Pane>,
        now: nat): map<PaneId, PaneState> {
    if panes == [] then states else
    var before, p := TickedAll(states, guessing, panes[..|panes| - 1], now), panes[|panes| - 1];
    if p.id in before then before[p.id := Ticked(before[p.id], guessing, p, now)] else before
  }

  function Changes(states: map<PaneId, PaneState>, guessing: set<string>, panes: seq<Pane>, now: nat): seq<Change> {
    if panes == [] then [] else
    var before, p := TickedAll(states, guessing, panes[..|panes| - 1], now), panes[|panes| - 1];
    Changes(states, guessing, panes[..|panes| - 1], now)
    + if p.id !in before then [] else
      var status := Ticked(before[p.id], guessing, p, now).status;
      if status.Some? && status != before[p.id].status then [Change(p.id, status.value)] else []
  }

  function Ids(panes: seq<Pane>): set<PaneId> {
    set p | p in panes :: p.id
  }

  function StateIn(states: map<PaneId, PaneState>, id: PaneId): PaneState {
    if id in states then states[id] else FRESH_STATE
  }

  function AgentOf(agents: map<PaneId, string>, id: PaneId): Option<string> {
    if id in agents then Some(agents[id]) else None
  }

  function Kept(states: map<PaneId, PaneState>, ids: set<PaneId>): map<PaneId, PaneState> {
    map id | id in states && id in ids :: states[id]
  }

  function DetectedAll(states: map<PaneId, PaneState>, agents: map<PaneId, string>,
        panes: seq<Pane>): map<PaneId, PaneState> {
    if panes == [] then states else
    var before, id := DetectedAll(states, agents, panes[..|panes| - 1]), panes[|panes| - 1].id;
    before[id := Detected(StateIn(before, id), AgentOf(agents, id))]
  }

  class AgentTable {
    var states: map<PaneId, PaneState>

    constructor ()
      ensures states == map[]
    {
      states := map[];
    }

    /** Deliver a hook event for a pane that is known. */
    method Record(id: PaneId, event: AgentEvent, sessionId: Option<string>, now: nat)
      modifies this
      ensures states == if id in old(states) then old(states)[id := Recorded(old(states)[id], event, sessionId, now)]
              else old(states)
    {
      if id !in states {
        return;
      }
      var st := states[id];
      if event == PermissionRequest && st.lastEvent == Some(Question) {
        assert states[id := st] == states;
        return;
      }
      if event == SessionStopped {
        st := st.(agentSessionId := None);
      } else if sessionId.Some? {
        st := st.(agentSessionId := sessionId);
      }
      if event == Finished {
        st := st.(read := false, viewedSince := None);
      }
      st := st.(lastEvent := Some(event), lastEventAt := Some(now));
      states := states[id := st];
    }

    method UpdateView(id: PaneId, viewing: bool, now: nat)
      requires id in states
      modifies this
      ensures states == old(states)[id := Viewed(old(states)[id], viewing, now)]
    {
      var st := states[id];
      if !viewing {
        states := states[id := st.(viewedSince := None)];
        return;
      }
      if st.viewedSince.None? {
        st := st.(viewedSince := Some(now));
      }
      if Elapsed(now, st.viewedSince.value) >= READ_AFTER {
        st := st.(read := true);
      }
      states := states[id := st];
    }

    /** Recompute each pane's status and report the panes whose status changed. */
    method UpdateStatuses(guessing: set<string>, panes: seq<Pane>, now: nat) returns (changed: seq<Change>)
      modifies this
      ensures states == TickedAll(old(states), guessing, panes, now)
      ensures changed == Changes(old(states), guessing, panes, now)
    {
      hide Viewed, Derived;
      changed := [];
      for i := 0 to |panes|
        invariant states == TickedAll(old(states), guessing, panes[..i], now)
        invariant changed == Changes(old(states), guessing, panes[..i], now)
      {
        var pane := panes[i];
        assert panes[..i + 1][..i] == panes[..i] && panes[..i + 1][i] == pane;
        if pane.id in states {
          ghost var before := states;
          UpdateView(pane.id, pane.active && pane.attached, now);
          var st := states[pane.id];
          var status := Derived(st, guessing, pane, now);
          if status != st.status {
            states := states[pane.id := st.(status := status)];
            if status.Some? {
              changed := changed + [Change(pane.id, status.value)];
            }
          }
          assert st.status == before[pane.id].status by {
            ViewKeepsStatus(before[pane.id], pane.active && pane.attached, now);
          }
          assert states == before[pane.id := Ticked(before[pane.id], guessing, pane, now)];
        }
      }
      assert panes[..|panes|] == panes;
    }

    /** Drop vanished panes and look every pane's agent up again. */
    method RefreshStates(agents: map<PaneId, string>, panes: seq<Pane>)
      modifies this
      ensures states == DetectedAll(Kept(old(states), Ids(panes)), agents, panes)
    {
      states := map id | id in states && id in Ids(panes) :: states[id];
      ghost var kept := states;
      for i := 0 to |panes|
        invariant states == DetectedAll(kept, agents, panes[..i])
      {
        assert panes[..i + 1][..i] == panes[..i] && panes[..i + 1][i] == panes[i];
        var id := panes[i].id;
        var agent := AgentOf(agents, id);
        var st := StateIn(states, id);
        if st.agent != agent {
          if st.agent.Some? {
            st := FRESH_STATE;
          }
          st := st.(agent := agent);
        }
        states := states[id := st];
      }
      assert panes[..|panes|] == panes;
    }
  }

  lemma {:induction false} DetectedEach(states: map<PaneId, PaneState>, agents: map<PaneId, string>,
        panes: seq<Pane>, id: PaneId)
    ensures id in DetectedAll(states, agents, panes) <==> id in states || id in Ids(panes)
    ensures id in Ids(panes) ==>
            DetectedAll(states, agents, panes)[id] == Detected(StateIn(states, id), AgentOf(agents, id))
    ensures id !in Ids(panes) && id in states ==> DetectedAll(states, agents, panes)[id] == states[id]
  {
    if panes != [] {
      var front, last := panes[..|panes| - 1], panes[|panes| - 1];
      DetectedEach(states, agents, front, id);
      assert Ids(panes) == Ids(front) + {last.id} by { assert panes == front + [last]; }
      hide Ids;
    }
  }

  /** After a refresh the table holds exactly the listed panes; each keeps what its
      hooks taught it while the same agent runs or one was just started, and starts
      afresh once its agent is gone or another took over. */
  lemma {:induction false} RefreshKeepsOrResets(states: map<PaneId, PaneState>, agents: map<PaneId, string>,
        panes: seq<Pane>, p: Pane)
    requires p in panes
    ensures var r := DetectedAll(Kept(states, Ids(panes)), agents, panes);
            var st, agent := StateIn(states, p.id), AgentOf(agents, p.id);
            && r.Keys == Ids(panes)
            && r[p.id].agent == agent
            && (st.agent == agent || st.agent.None? ==> r[p.id] == st.(agent := agent))
            && (st.agent != agent && st.agent.Some? ==> r[p.id] == FRESH_STATE.(agent := agent))
  {
    forall id: PaneId
      ensures id in DetectedAll(Kept(states, Ids(panes)), agents, panes) <==> id in Ids(panes)
    {
      DetectedEach(Kept(states, Ids(panes)), agents, panes, id);
    }
    DetectedEach(Kept(states, Ids(panes)), agents, panes, p.id);
    hide DetectedAll;
  }

  lemma {:induction false} ViewKeepsStatus(st: PaneState, viewing: bool, now: nat)
    ensures Viewed(st, viewing, now).status == st.status
  {
  }

  ghost predicate DistinctIds(panes: seq<Pane>) {
    forall i, j :: 0 <= i < j < |panes| ==> panes[i].id != panes[j].id
  }

  lemma {:induction false} TickedOthers(states: map<PaneId, PaneState>, guessing: set<string>, panes: seq<Pane>,
        now: nat, id: PaneId)
    ensures id in TickedAll(states, guessing, panes, now) <==> id in states
    ensures id in states && (forall p :: p in panes ==> p.id != id) ==>
            TickedAll(states, guessing, panes, now)[id] == states[id]
  {
    if panes != [] {
      FrontLast(panes);
      hide Ticked;
      TickedOthers(states, guessing, panes[..|panes| - 1], now, id);
    }
  }

  /** A tick updates each listed pane it knows, reports those whose status changed
      to another one, and touches nothing else. */
  lemma {:induction false} TickUpdatesEach(states: map<PaneId, PaneState>, guessing: set<string>, panes: seq<Pane>,
        now: nat, i: nat)
    requires DistinctIds(panes) && i < |panes|
    ensures var id, r := panes[i].id, TickedAll(states, guessing, panes, now);
            && (id in r <==> id in states)
            && (id in states ==> r[id] == Ticked(states[id], guessing, panes[i], now))
            && forall status :: Change(id, status) in Changes(states, guessing, panes, now)
                 <==> id in states && r[id].status == Some(status) && states[id].status != Some(status)
    decreases |panes|
  {
    var front, last, id := panes[..|panes| - 1], panes[|panes| - 1], panes[i].id;
    hide Ticked;
    TickedOthers(states, guessing, front, now, last.id);
    if i < |front| {
      TickUpdatesEach(states, guessing, front, now, i);
    } else {
      forall p | p in front
        ensures p.id != id
      {
        var k :| 0 <= k < |front| && front[k] == p;
        assert panes[k].id != panes[i].id;
      }
      ChangesListed(states, guessing, front, now, id);
    }
  }

  lemma {:induction false} ChangesListed(states: map<PaneId, PaneState>, guessing: set<string>, panes: seq<Pane>,
        now: nat, id: PaneId)
    requires forall p :: p in panes ==> p.id != id
    ensures forall status :: Change(id, status) !in Changes(states, guessing, panes, now)
  {
    if panes != [] {
      FrontLast(panes);
      hide Ticked, TickedAll;
      ChangesListed(states, guessing, panes[..|panes| - 1], now, id);
    }
  }

  // ---- Runs of one pane ----------------------------------------------------

  /** What happens to a pane: a hook event, a tick, or its agent being looked up. */
  datatype Step =
    | Hook(event: AgentEvent, sessionId: Option<string>, at: nat)
    | Tick(pane: Pane, now: nat)
    | Lookup(agent: Option<string>)

  function After(st: PaneState, guessing: set<string>, step: Step): PaneState {
    match step
    case Hook(event, sessionId, at) => Recorded(st, event, sessionId, at)
    case Tick(pane, now) => Ticked(st, guessing, pane, now)
    case Lookup(agent) => Detected(st, agent)
  }

  function Run(st: PaneState, guessing: set<string>, steps: seq<Step>): PaneState {
    if steps == [] then st else After(Run(st, guessing, Front(steps)), guessing, Last(steps))
  }

  /** The agent of the pane goes away or is replaced, which forgets its events. */
  predicate Resets(st: PaneState, step: Step) {
    step.Lookup? && st.agent.Some? && st.agent != step.agent
  }

  /** No hook event is recorded and nothing is reset. A permission request while
      a question is pending isn't recorded. */
  ghost predicate Quiet(st: PaneState, guessing: set<string>, steps: seq<Step>) {
    steps == [] ||
    (Quiet(st, guessing, Front(steps)) &&
     var before := Run(st, guessing, Front(steps));
     !Resets(before, Last(steps)) &&
     (Last(steps).Hook? ==> Last(steps).event == PermissionRequest && before.lastEvent == Some(Question)))
  }

  predicate OnScreen(step: Step) {
    step.Tick? && step.pane.active && step.pane.attached
  }

  /** The pane was on screen at every tick from step `i` to before step `n`. */
  ghost predicate ViewedThrough(steps: seq<Step>, i: nat, n: nat) {
    i < n <= |steps| && OnScreen(steps[i]) && forall k :: i <= k < n && steps[k].Tick? ==> OnScreen(steps[k])
  }

  /** The longest such stretch before step `n` starts at step `i`. */
  ghost predicate ViewStarts(steps: seq<Step>, i: nat, n: nat) {
    ViewedThrough(steps, i, n) && forall k: nat :: k < i ==> !ViewedThrough(steps, k, n)
  }

  /** Some stretch of ticks on screen has lasted long enough. */
  ghost predicate SeenLongEnough(steps: seq<Step>) {
    exists i: nat, j: nat :: Spans(steps, i, j)
  }

  ghost predicate Spans(steps: seq<Step>, i: nat, j: nat) {
    j < |steps| && steps[j].Tick? && ViewStarts(steps, i, j + 1) && Elapsed(steps[j].now, steps[i].now) >= 2
  }

  /** Where the stretch on screen that lasts to the end starts. */
  function StartOf(steps: seq<Step>): Option<nat> {
    if steps == [] then None
    else if !Last(steps).Tick? then StartOf(Front(steps))
    else if !OnScreen(Last(steps)) then None
    else if StartOf(Front(steps)).Some? then StartOf(Front(steps)) else Some(|steps| - 1)
  }

  lemma {:induction false} StartIs(steps: seq<Step>)
    ensures forall i: nat :: ViewedThrough(steps, i, |steps|) ==> StartOf(steps).Some? && StartOf(steps).value <= i
    ensures StartOf(steps).Some? ==> ViewedThrough(steps, StartOf(steps).value, |steps|)
  {
    if steps != [] {
      var front, n := Front(steps), |steps|;
      StartIs(front);
      forall i: nat
        ensures i < n - 1 ==>
                  (ViewedThrough(steps, i, n)
                   <==> ViewedThrough(front, i, n - 1) && (!Last(steps).Tick? || OnScreen(Last(steps))))
        ensures ViewedThrough(steps, n - 1, n) <==> OnScreen(Last(steps))
      {
        assert forall k :: 0 <= k < n - 1 ==> steps[k] == front[k];
        assert steps[n - 1] == Last(steps);
      }
    }
  }

  lemma {:induction false} PrefixViewed(steps: seq<Step>, i: nat, n: nat)
    requires n <= |steps|
    ensures ViewedThrough(steps, i, n) <==> ViewedThrough(steps[..n], i, n)
  {
    assert forall k :: 0 <= k < n ==> steps[..n][k] == steps[k];
  }

  lemma {:induction false} StartsIff(steps: seq<Step>, i: nat, n: nat)
    requires n <= |steps|
    ensures ViewStarts(steps, i, n) <==> StartOf(steps[..n]) == Some(i)
  {
    StartIs(steps[..n]);
    forall k: nat
      ensures ViewedThrough(steps, k, n) <==> ViewedThrough(steps[..n], k, n)
    {
      PrefixViewed(steps, k, n);
    }
  }

  lemma {:induction false} SeenMore(steps: seq<Step>)
    requires steps != []
    ensures SeenLongEnough(steps) <==>
            SeenLongEnough(Front(steps)) ||
            (StartOf(steps).Some? && Last(steps).Tick? && StartOf(steps).value < |steps|
             && steps[StartOf(steps).value].Tick?
             && Elapsed(Last(steps).now, steps[StartOf(steps).value].now) >= 2)
  {
    var front, n := Front(steps), |steps|;
    StartIs(steps);
    forall i: nat, j: nat | j < n
      ensures Spans(steps, i, j) <==> if j < n - 1 then Spans(front, i, j) else
              Last(steps).Tick? && StartOf(steps) == Some(i) && i < n && steps[i].Tick?
              && Elapsed(Last(steps).now, steps[i].now) >= 2
    {
      StartsIff(steps, i, j + 1);
      if j < n - 1 {
        StartsIff(front, i, j + 1);
        assert front[..j + 1] == steps[..j + 1];
        if StartOf(steps[..j + 1]) == Some(i) { StartIs(steps[..j + 1]); }
      } else {
        assert steps[..n] == steps;
      }
    }
    hide Spans, ViewStarts, ViewedThrough;
    if SeenLongEnough(steps) {
      var i: nat, j: nat :| Spans(steps, i, j);
      SpansWithin(steps, i, j);
    }
    if SeenLongEnough(front) {
      var i: nat, j: nat :| Spans(front, i, j);
      SpansWithin(front, i, j);
      assert Spans(steps, i, j);
    }
    if StartOf(steps).Some? {
      assert Spans(steps, StartOf(steps).value, n - 1) ==> SeenLongEnough(steps);
    }
  }

  lemma {:induction false} SpansWithin(steps: seq<Step>, i: nat, j: nat)
    requires Spans(steps, i, j)
    ensures i <= j < |steps|
  {
  }

  /** The state tracks the stretch on screen and whether one was long enough. */
  ghost predicate Tracks(st: PaneState, steps: seq<Step>) {
    && st.lastEvent == Some(Finished)
    && (match StartOf(steps)
        case None => st.viewedSince == None
        case Some(i) => i < |steps| && steps[i].Tick? && st.viewedSince == Some(steps[i].now))
    && (st.read <==> SeenLongEnough(steps))
  }

  lemma {:induction false} QuietTracks(st: PaneState, guessing: set<string>, steps: seq<Step>)
    requires st.lastEvent == Some(Finished) && !st.read && st.viewedSince == None && Quiet(st, guessing, steps)
    ensures Tracks(Run(st, guessing, steps), steps)
  {
    if steps == [] {
      assert !SeenLongEnough(steps);
    } else {
      QuietTracks(st, guessing, Front(steps));
      SeenMore(steps);
      StartIs(Front(steps));
      hide SeenLongEnough, Derived, ViewedThrough;
      assert forall i :: 0 <= i < |Front(steps)| ==> steps[i] == Front(steps)[i];
    }
  }

  /** A finished turn stays unread until the pane was on screen for long enough:
      while no further event is recorded and the agent stays, it counts as read
      exactly when some stretch of ticks on screen since then spanned two
      seconds, and until then no tick reports the pane idle. */
  lemma {:induction false} UnreadUntilSeen(st: PaneState, sessionId: Option<string>, at: nat, guessing: set<string>,
        steps: seq<Step>)
    requires Quiet(Recorded(st, Finished, sessionId, at), guessing, steps)
    ensures var r := Run(Recorded(st, Finished, sessionId, at), guessing, steps);
            && (r.read <==> SeenLongEnough(steps))
            && (steps != [] && Last(steps).Tick? ==>
                  || r.status == Some(if SeenLongEnough(steps) then IsIdle else IsDone)
                  || (r.status == Some(IsWorking) && r.agent.Some? && r.agent.value in guessing))
  {
    QuietTracks(Recorded(st, Finished, sessionId, at), guessing, steps);
    hide SeenLongEnough, Quiet;
  }

  ghost predicate ClockRises(steps: seq<Step>) {
    forall i, j :: 0 <= i < j < |steps| && steps[i].Tick? && steps[j].Tick? ==> steps[i].now <= steps[j].now
  }

  /** With a clock that never goes back, any two ticks with the pane on screen in
      between will do. */
  lemma {:induction false} SeenWhenAnySpan(steps: seq<Step>)
    requires ClockRises(steps)
    ensures SeenLongEnough(steps) <==>
            exists i: nat, j: nat ::
              j < |steps| && steps[j].Tick?
                && ViewedThrough(steps, i, j + 1) && steps[j].now - steps[i].now >= 2
  {
    if SeenLongEnough(steps) {
      var i: nat, j: nat :| Spans(steps, i, j);
      assert ViewedThrough(steps, i, j + 1);
    }
    if i: nat, j: nat :| j < |steps| && steps[j].Tick? && ViewedThrough(steps, i, j + 1)
                         && steps[j].now - steps[i].now >= 2 {
      var prefix := steps[..j + 1];
      StartIs(prefix);
      PrefixViewed(steps, i, j + 1);
      var k := StartOf(prefix).value;
      StartsIff(steps, k, j + 1);
      assert k <= i && steps[k].Tick? && steps[i].Tick?;
      assert Spans(steps, k, j);
    }
  }

  /** A pending question isn't displaced by permission requests, ticks or lookups:
      until another event is recorded or the agent goes, every tick reports it. */
  lemma {:induction false} QuestionStaysPending(st: PaneState, sessionId: Option<string>, at: nat,
        guessing: set<string>, steps: seq<Step>)
    requires Quiet(Recorded(st, Question, sessionId, at), guessing, steps)
    ensures var q := Recorded(st, Question, sessionId, at);
            var r := Run(q, guessing, steps);
            && r.lastEvent == Some(Question) && r.lastEventAt == Some(at) && r.agentSessionId == q.agentSessionId
            && (steps != [] && Last(steps).Tick? ==> r.status == Some(IsQuestion))
  {
    if steps != [] {
      QuestionStaysPending(st, sessionId, at, guessing, Front(steps));
    }
  }
}
