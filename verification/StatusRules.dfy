/** What each hook event makes of a pane's status (src/inventory.rs), whatever
    ticks and lookups follow it, and what happens to the agent's session id. */
module StatusRules {
  import opened Wrappers
  import opened Inventory
  import opened Snapshots
  import opened AgentStatuses

  /** The agent is one whose hooks don't tell when a turn starts, and the pane had
      output within two seconds, after its last event. */
  ghost predicate LooksBusy(agent: Option<string>, guessing: set<string>, pane: Pane, now: nat, eventAt: nat) {
    agent.Some? && agent.value in guessing && Elapsed(now, pane.activity) <= 2 && pane.activity > eventAt
  }

  /** The status a tick gives a pane whose last event is `e`. */
  ghost predicate Due(e: AgentEvent, busy: bool, read: bool, status: Option<AgentStatus>) {
    && (e == PermissionRequest ==> status == Some(IsPermission))
    && (e == Question || e == NeedsInput ==> status == Some(IsQuestion))
    && (e.Error? ==> status == Some(IsError))
    && (e == Working ==> status == Some(IsWorking))
    && (e == SessionStopped ==> status == None)
    && (e == Idle || e == SessionStarted ==> status == Some(if busy then IsWorking else IsIdle))
    && (e == Finished ==> status == Some(if busy then IsWorking else if read then IsIdle else IsDone))
  }

  /** Without an event it goes by output alone, and only when there is an agent. */
  ghost predicate DueUntold(agent: Option<string>, pane: Pane, now: nat, status: Option<AgentStatus>) {
    status == if agent.None? then None else Some(if Elapsed(now, pane.activity) <= 2 then IsWorking else IsIdle)
  }

  // ---- One tick ------------------------------------------------------------

  lemma {:induction false} TickGivesDue(st: PaneState, guessing: set<string>, pane: Pane, now: nat)
    ensures var r := Ticked(st, guessing, pane, now);
            && (st.lastEvent.Some? ==>
                  var at := if st.lastEventAt.Some? then st.lastEventAt.value else 0;
                  Due(st.lastEvent.value, LooksBusy(st.agent, guessing, pane, now, at), r.read, r.status))
            && (st.lastEvent.None? ==> DueUntold(st.agent, pane, now, r.status))
            && r.agent == st.agent
  {
  }

  /** In the table: a tick gives every listed pane it knows the status its last
      event asks for. */
  lemma {:induction false} UpdateGivesDue(states: map<PaneId, PaneState>, guessing: set<string>, panes: seq<Pane>,
        now: nat, p: Pane)
    requires DistinctIds(panes) && p in panes && p.id in states
    ensures p.id in TickedAll(states, guessing, panes, now)
    ensures var st, r := states[p.id], TickedAll(states, guessing, panes, now)[p.id];
            && (st.lastEvent.Some? ==>
                  var at := if st.lastEventAt.Some? then st.lastEventAt.value else 0;
                  Due(st.lastEvent.value, LooksBusy(st.agent, guessing, p, now, at), r.read, r.status))
            && (st.lastEvent.None? ==> DueUntold(st.agent, p, now, r.status))
            && (r.status.Some? && r.status != st.status ==>
                  Change(p.id, r.status.value) in Changes(states, guessing, panes, now))
  {
    var i :| 0 <= i < |panes| && panes[i] == p;
    hide Due, DueUntold, LooksBusy, Ticked, Changes, TickedAll;
    TickUpdatesEach(states, guessing, panes, now, i);
    TickGivesDue(states[p.id], guessing, p, now);
  }

  // ---- Runs of one pane ----------------------------------------------------

  /** Nothing but another recorded event, or the agent going, changes what the last
      event was, when it came or the session id. */
  lemma {:induction false} QuietKeepsEvent(st: PaneState, guessing: set<string>, steps: seq<Step>)
    requires Quiet(st, guessing, steps)
    ensures var r := Run(st, guessing, steps);
            && r.lastEvent == st.lastEvent && r.lastEventAt == st.lastEventAt && r.agentSessionId == st.agentSessionId
  {
    if steps != [] {
      QuietKeepsEvent(st, guessing, Front(steps));
      hide Derived;
    }
  }

  /** After an event and whatever quiet steps follow, every tick gives the status
      that event asks for. */
  lemma {:induction false} EventDecides(st: PaneState, e: AgentEvent, sessionId: Option<string>, at: nat,
        guessing: set<string>, steps: seq<Step>)
    requires !(e == PermissionRequest && st.lastEvent == Some(Question))
    requires Quiet(Recorded(st, e, sessionId, at), guessing, steps) && steps != [] && Last(steps).Tick?
    ensures var r := Run(Recorded(st, e, sessionId, at), guessing, steps);
            Due(e, LooksBusy(r.agent, guessing, Last(steps).pane, Last(steps).now, at), r.read, r.status)
  {
    var q := Recorded(st, e, sessionId, at);
    var before := Run(q, guessing, Front(steps));
    assert q.lastEvent == Some(e) && q.lastEventAt == Some(at);
    hide Due, LooksBusy, Recorded, Ticked;
    QuietKeepsEvent(q, guessing, Front(steps));
    TickGivesDue(before, guessing, Last(steps).pane, Last(steps).now);
  }

  /** Before any event, or once the agent went, a tick goes by output alone. */
  lemma {:induction false} NoEventDecides(st: PaneState, guessing: set<string>, steps: seq<Step>)
    requires st.lastEvent.None? && Quiet(st, guessing, steps) && steps != [] && Last(steps).Tick?
    ensures var r := Run(st, guessing, steps);
            DueUntold(r.agent, Last(steps).pane, Last(steps).now, r.status)
  {
    var before := Run(st, guessing, Front(steps));
    hide DueUntold, Ticked;
    QuietKeepsEvent(st, guessing, Front(steps));
    TickGivesDue(before, guessing, Last(steps).pane, Last(steps).now);
  }

  /** The session id is the last one told since the session began: ending the
      session forgets it, an event without one keeps it, and so do ticks and lookups
      of the same agent. */
  lemma {:induction false} SessionIdFollows(st: PaneState, e: AgentEvent, sessionId: Option<string>, at: nat,
        guessing: set<string>, steps: seq<Step>)
    requires Quiet(Recorded(st, e, sessionId, at), guessing, steps)
    ensures Run(Recorded(st, e, sessionId, at), guessing, steps).agentSessionId
            == (if e == PermissionRequest && st.lastEvent == Some(Question) then st.agentSessionId
                else if e == SessionStopped then None
                else if sessionId.Some? then sessionId else st.agentSessionId)
  {
    hide Run, Quiet;
    QuietKeepsEvent(Recorded(st, e, sessionId, at), guessing, steps);
  }

  /** A pane whose agent went or was replaced knows nothing but the new agent. */
  lemma {:induction false} LostAgentForgets(st: PaneState, agent: Option<string>)
    requires st.agent.Some? && st.agent != agent
    ensures var r := Detected(st, agent);
            && r.agent == agent && r.agentSessionId == None && r.lastEvent == None && r.lastEventAt == None
            && r.status == None && !r.read && r.viewedSince == None
  {
  }
}
