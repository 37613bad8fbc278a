/** Panes as `list-panes -a` reports them and the agent state kept per pane
    (src/inventory.rs). Pane and window ids are the numbers in `%3` and `@2`. */
module Inventory {
  import opened Wrappers

  type PaneId = nat
  type WindowId = nat

  datatype AgentResume = AgentResume(kind: string, sessionId: Option<string>)

  /** What a restored or suspended pane ran before (`@sessionizer_restore`). */
  datatype Pending = Pending(argv: Option<seq<string>>, agent: Option<AgentResume>)

  datatype Pane = Pane(
    id: PaneId,
    session: string,
    windowId: WindowId,
    windowIndex: nat,
    windowName: string,
    paneIndex: nat,
    active: bool,
    attached: bool,
    activity: nat,
    cwd: string,
    automaticRename: bool,
    autonameOff: bool,
    lastAutoname: string,
    category: string,
    windowLayout: string,
    windowActive: bool,
    paneActive: bool,
    pendingRestore: Option<Pending>,
    keep: bool,
    title: string)

  datatype AgentEvent =
    | SessionStarted
    | SessionStopped
    | PermissionRequest
    | NeedsInput
    | Question
    | Working
    | Finished
    | Idle
    | Error(message: string)

  /** Ordered by urgency. */
  datatype AgentStatus = IsIdle | IsWorking | IsDone | IsError | IsQuestion | IsPermission {
    function Rank(): nat {
      match this
      case IsIdle => 0
      case IsWorking => 1
      case IsDone => 2
      case IsError => 3
      case IsQuestion => 4
      case IsPermission => 5
    }
  }

  /** A pane's agent state, carried across ticks. */
  datatype PaneState = PaneState(
    agent: Option<string>,
    agentSessionId: Option<string>,
    lastEvent: Option<AgentEvent>,
    lastEventAt: Option<nat>,
    status: Option<AgentStatus>,
    read: bool,
    viewedSince: Option<nat>)

  const FRESH_STATE := PaneState(None, None, None, None, None, false, None)

  /** Subtraction of times that stops at zero. */
  function Elapsed(now: nat, since: nat): nat {
    if now < since then 0 else now - since
  }
}
