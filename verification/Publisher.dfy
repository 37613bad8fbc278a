/** Publishing each window's most urgent status as tmux options
    (src/inventory.rs, src/control.rs): only changes are sent, and the options
    still end up as a full publication would leave them. */
module Publishing {
  import opened Wrappers
  import opened Inventory
  import opened Snapshots
  import opened TmuxArgs

  /** `@agent_status` and `@agent_idle`. */
  datatype Value = Value(status: string, idle: string)

  // ---- What a window shows -------------------------------------------------

  function Code(status: AgentStatus): string {
    match status
    case IsIdle => "idle"
    case IsWorking => "working"
    case IsDone => "done"
    case IsError => "error"
    case IsQuestion => "question"
    case IsPermission => "permission"
  }

  /** Reads a code back; unknown and empty codes are no status. */
  function FromCode(code: string): Option<AgentStatus> {
    if code == "idle" then Some(IsIdle)
    else if code == "working" then Some(IsWorking)
    else if code == "done" then Some(IsDone)
    else if code == "error" then Some(IsError)
    else if code == "question" then Some(IsQuestion)
    else if code == "permission" then Some(IsPermission)
    else None
  }

  /** A published code reads back as its status, and the empty one as none. */
  lemma {:induction false} CodeReads(status: AgentStatus)
    ensures FromCode(Code(status)) == Some(status) && FromCode("") == None
  {
    assert "idle"[0] != "working"[0] && "idle"[0] != "done"[0] && "idle"[0] != "error"[0];
    assert "question"[0] != "permission"[0];
    assert |"idle"| == 4 && |"working"| == 7 && |"done"| == 4 && |"error"| == 5;
    assert |"question"| == 8 && |"permission"| == 10;
  }

  /** Quiet time: empty under a minute, else the largest whole unit. */
  function FormatIdle(secs: nat): string {
    if secs < 60 then ""
    else if secs < 3600 then Decimal(secs / 60) + "m"
    else if secs < 86400 then Decimal(secs / 3600) + "h"
    else Decimal(secs / 86400) + "d"
  }

  function MoreUrgent(a: Option<AgentStatus>, b: Option<AgentStatus>): Option<AgentStatus> {
    if a.None? then b else if b.None? then a else if b.value.Rank() >= a.value.Rank() then b else a
  }

  function StatusOf(states: map<PaneId, PaneState>, p: Pane): Option<AgentStatus> {
    if p.id in states then states[p.id].status else None
  }

  /** The status of a window: the most urgent of its panes'. */
  function WindowStatus(panes: seq<Pane>, states: map<PaneId, PaneState>, window: WindowId): Option<AgentStatus> {
    if panes == [] then None else
    var before, p := WindowStatus(Front(panes), states, window), Last(panes);
    if p.windowId == window then MoreUrgent(before, StatusOf(states, p)) else before
  }

  /** It is the status of some pane of the window and none is more urgent; there
      is none only when no pane of the window has one. */
  lemma {:induction false} StatusIsMostUrgent(panes: seq<Pane>, states: map<PaneId, PaneState>, window: WindowId)
    ensures WindowStatus(panes, states, window).Some? ==>
              exists p ::
                p in panes && p.windowId == window && StatusOf(states, p) == WindowStatus(panes, states, window)
    ensures forall p :: p in panes && p.windowId == window && StatusOf(states, p).Some? ==>
              WindowStatus(panes, states, window).Some?
              && StatusOf(states, p).value.Rank() <= WindowStatus(panes, states, window).value.Rank()
    ensures IsIdle.Rank() < IsWorking.Rank() < IsDone.Rank() < IsError.Rank() < IsQuestion.Rank() < IsPermission.Rank()
  {
    if panes != [] {
      StatusIsMostUrgent(Front(panes), states, window);
      FrontLast(panes);
      hide StatusOf;
    }
  }

  /** When the window last had output, as its first listed pane tells. */
  function ActivityOf(panes: seq<Pane>, window: WindowId): nat {
    if panes == [] then 0 else if panes[0].windowId == window then panes[0].activity else ActivityOf(panes[1..], window)
  }

  function Wanted(panes: seq<Pane>, states: map<PaneId, PaneState>, now: nat, window: WindowId): Value {
    var status := WindowStatus(panes, states, window);
    Value(if status.Some? then Code(status.value) else "",
          if status == Some(IsIdle) || status == Some(IsDone)
          then FormatIdle(Elapsed(now, ActivityOf(panes, window))) else "")
  }

  datatype Entry = Entry(status: Option<AgentStatus>, activity: nat)

  /** Every window with panes, its worst status and its activity. */
  method WindowOptions(panes: seq<Pane>, states: map<PaneId, PaneState>, now: nat)
    returns (options: map<WindowId, Value>)
    ensures forall w :: w in options <==> Lists(panes, w)
    ensures forall w :: w in options ==> options[w] == Wanted(panes, states, now, w)
  {
    hide WindowStatus, ActivityOf;
    var worst: map<WindowId, Entry> := map[];
    for i := 0 to |panes|
      invariant forall w :: EntryIs(worst, panes[..i], states, w)
    {
      var pane := panes[i];
      ghost var before := worst;
      var entry := if pane.windowId in worst then worst[pane.windowId] else Entry(None, pane.activity);
      worst := worst[pane.windowId := entry.(status := MoreUrgent(entry.status, StatusOf(states, pane)))];
      ghost var seen := panes[..i + 1];
      forall w: WindowId
        ensures EntryIs(worst, seen, states, w)
      {
        assert EntryIs(before, panes[..i], states, w) && EntryIs(before, panes[..i], states, pane.windowId);
        EntryStep(panes, states, i, w);
      }
    }
    assert panes[..|panes|] == panes;
    hide FormatIdle, Code;
    options := map w | w in worst :: Shown(worst[w], now);
    forall w: WindowId
      ensures w in options <==> Lists(panes, w)
      ensures w in options ==> options[w] == Wanted(panes, states, now, w)
    {
      assert EntryIs(worst, panes, states, w);
    }
  }

  ghost predicate EntryIs(worst: map<WindowId, Entry>, panes: seq<Pane>, states: map<PaneId, PaneState>, w: WindowId) {
    && (w in worst <==> Lists(panes, w))
    && (w in worst ==> worst[w] == Entry(WindowStatus(panes, states, w), ActivityOf(panes, w)))
  }

  function Shown(e: Entry, now: nat): Value {
    Value(if e.status.Some? then Code(e.status.value) else "",
          if e.status == Some(IsIdle) || e.status == Some(IsDone) then FormatIdle(Elapsed(now, e.activity)) else "")
  }

  predicate Lists(panes: seq<Pane>, window: WindowId) {
    exists i :: 0 <= i < |panes| && panes[i].windowId == window
  }

  ghost predicate OneMorePane(panes: seq<Pane>, states: map<PaneId, PaneState>, i: nat, w: WindowId)
    requires i < |panes|
  {
    var pane, before, more := panes[i], panes[..i], panes[..i + 1];
    && (Lists(more, w) <==> Lists(before, w) || w == pane.windowId)
    && WindowStatus(more, states, w)
       == MoreUrgent(WindowStatus(before, states, w), if w == pane.windowId then StatusOf(states, pane) else None)
    && (Lists(before, w) ==> ActivityOf(more, w) == ActivityOf(before, w))
    && (!Lists(before, w) ==>
          WindowStatus(before, states, w) == None && (w == pane.windowId ==> ActivityOf(more, w) == pane.activity))
  }

  lemma {:induction false} EntryStep(panes: seq<Pane>, states: map<PaneId, PaneState>, i: nat, w: WindowId)
    requires i < |panes|
    ensures OneMorePane(panes, states, i, w)
  {
    var pane, before, more := panes[i], panes[..i], panes[..i + 1];
    assert Front(more) == before && Last(more) == pane && more == before + [pane];
    ListsMore(before, pane, w);
    ActivityMore(before, pane, w);
    NotListed(before, states, w);
    hide Lists, ActivityOf, MoreUrgent, StatusOf;
  }

  lemma {:induction false} ListsMore(before: seq<Pane>, pane: Pane, w: WindowId)
    ensures Lists(before + [pane], w) <==> Lists(before, w) || w == pane.windowId
  {
    var more := before + [pane];
    assert more[|before|] == pane;
    if Lists(before, w) {
      var i :| 0 <= i < |before| && before[i].windowId == w;
      assert more[i].windowId == w;
    }
  }

  lemma {:induction false} ActivityMore(before: seq<Pane>, pane: Pane, w: WindowId)
    ensures Lists(before, w) ==> ActivityOf(before + [pane], w) == ActivityOf(before, w)
    ensures !Lists(before, w) && w == pane.windowId ==> ActivityOf(before + [pane], w) == pane.activity
    decreases |before|
  {
    if before != [] {
      assert (before + [pane])[1..] == before[1..] + [pane];
      assert before == [before[0]] + before[1..];
      ActivityMore(before[1..], pane, w);
      if Lists(before[1..], w) {
        var i :| 0 <= i < |before[1..]| && before[1..][i].windowId == w;
        assert before[i + 1].windowId == w;
      }
      if Lists(before, w) && before[0].windowId != w {
        var i :| 0 <= i < |before| && before[i].windowId == w;
        assert before[1..][i - 1].windowId == w;
      }
    }
  }

  lemma {:induction false} NotListed(panes: seq<Pane>, states: map<PaneId, PaneState>, w: WindowId)
    ensures !Lists(panes, w) ==> WindowStatus(panes, states, w) == None
  {
    if panes != [] {
      NotListed(Front(panes), states, w);
      assert Last(panes) == panes[|panes| - 1];
      if Lists(Front(panes), w) {
        var i :| 0 <= i < |Front(panes)| && Front(panes)[i].windowId == w;
        assert panes[i].windowId == w;
      }
    }
  }

  // ---- Sending the changes -------------------------------------------------

  function Less(a: string, b: string): bool {
    if b == [] then false else if a == [] then true else if a[0] != b[0] then a[0] < b[0] else Less(a[1..], b[1..])
  }

  function Insert(windows: seq<WindowId>, w: WindowId): seq<WindowId> {
    if windows == [] then [w]
    else if Less(Target(w), Target(windows[0])) then [w] + windows
    else [windows[0]] + Insert(windows[1..], w)
  }

  ghost predicate Sorted(windows: seq<WindowId>) {
    forall i, j :: 0 <= i < j < |windows| ==> Less(Target(windows[i]), Target(windows[j]))
  }

  lemma {:induction false} LessTotal(a: string, b: string)
    ensures Less(a, b) || Less(b, a) || a == b
    ensures !(Less(a, b) && Less(b, a)) && !Less(a, a)
  {
    if a != [] && b != [] {
      LessTotal(a[1..], b[1..]);
      assert a == [a[0]] + a[1..] && b == [b[0]] + b[1..];
    }
    if a != [] {
      LessTotal(a[1..], a[1..]);
    }
  }

  lemma {:induction false} LessTransitive(a: string, b: string, c: string)
    requires Less(a, b) && Less(b, c)
    ensures Less(a, c)
  {
    if a != [] && b != [] && c != [] && a[0] == b[0] == c[0] {
      LessTransitive(a[1..], b[1..], c[1..]);
    }
  }

  lemma {:induction false} InsertSorts(windows: seq<WindowId>, w: WindowId)
    requires Sorted(windows) && w !in windows
    ensures Sorted(Insert(windows, w)) && forall x :: x in Insert(windows, w) <==> x == w || x in windows
  {
    hide Target, Less;
    if windows != [] {
      var first, rest := windows[0], windows[1..];
      if Less(Target(w), Target(first)) {
        forall i | 0 <= i < |windows|
          ensures Less(Target(w), Target(windows[i]))
        {
          if i > 0 { LessTransitive(Target(w), Target(first), Target(windows[i])); }
        }
      } else {
        InsertSorts(rest, w);
        LessTotal(Target(w), Target(first));
        if Target(w) == Target(first) { TargetInjective(w, first); }
        var more := Insert(rest, w);
        assert Insert(windows, w) == [first] + more;
        hide Insert;
        forall i | 0 <= i < |more|
          ensures Less(Target(first), Target(more[i]))
        {
          assert more[i] in more;
          if more[i] != w {
            var k :| 0 <= k < |rest| && rest[k] == more[i];
            assert windows[k + 1] == more[i];
          }
        }
      }
    }
  }

  method SortedWindows(wanted: map<WindowId, Value>) returns (windows: seq<WindowId>)
    ensures Sorted(windows) && forall w :: w in windows <==> w in wanted
  {
    windows := [];
    var left := wanted.Keys;
    while left != {}
      invariant left <= wanted.Keys && Sorted(windows) && forall w :: w in windows <==> w in wanted && w !in left
      decreases |left|
    {
      var w :| w in left;
      InsertSorts(windows, w);
      windows := Insert(windows, w);
      left := left - {w};
    }
  }

  function SetOption(window: WindowId, option: string, value: string): seq<string> {
    ["set-option", "-w", "-t", Target(window), option, value]
  }

  /** The commands for the windows whose value is not the published one. */
  function CommandsFor(published: map<WindowId, Value>, wanted: map<WindowId, Value>,
        windows: seq<WindowId>): seq<seq<string>>
    requires forall w :: w in windows ==> w in wanted
  {
    if windows == [] then [] else
    FrontLast(windows);
    var w := Last(windows);
    CommandsFor(published, wanted, Front(windows))
    + if w in published && published[w] == wanted[w] then []
      else [SetOption(w, "@agent_status", wanted[w].status), SetOption(w, "@agent_idle", wanted[w].idle)]
  }

  /** These are the arguments that send the changes, in sorted order. */
  ghost predicate Sends(args: seq<string>, published: map<WindowId, Value>, wanted: map<WindowId, Value>) {
    exists windows :: Sorted(windows) && (forall w :: w in windows <==> w in wanted)
                      && args == Joined(CommandsFor(published, wanted, windows))
  }

  /** Published values of windows that are still wanted. */
  function Remaining(published: map<WindowId, Value>, wanted: map<WindowId, Value>): map<WindowId, Value> {
    map w | w in published && w in wanted :: published[w]
  }

  class Publisher {
    var published: map<WindowId, Value>

    constructor ()
      ensures published == map[]
    {
      published := map[];
    }

    /** Arguments bringing each window's options from `published` to `wanted`,
        which becomes the published table. */
    method WindowOptionArgs(wanted: map<WindowId, Value>) returns (args: seq<string>)
      modifies this
      ensures published == wanted
      ensures Sends(args, old(published), wanted)
    {
      ghost var was := published;
      hide *;
      published := Remaining(published, wanted);
      var windows := SortedWindows(wanted);
      args := [];
      ghost var commands: seq<seq<string>> := [];
      StartsPartly(was, wanted, windows);
      for i := 0 to |windows|
        invariant commands == CommandsFor(was, wanted, windows[..i]) && args == Joined(commands)
        invariant published == Partly(was, wanted, windows[..i])
      {
        var window := windows[i];
        SendStep(was, wanted, windows, i, commands);
        var value := wanted[window];
        if window in published && published[window] == value {
          continue;
        }
        var status := SetOption(window, "@agent_status", value.status);
        var idle := SetOption(window, "@agent_idle", value.idle);
        args := Chain(args, status);
        args := Chain(args, idle);
        commands := commands + [status] + [idle];
        published := published[window := value];
      }
      AllSent(was, wanted, windows);
    }
  }

  /** The published table once the windows in `done` were handled. */
  function Partly(was: map<WindowId, Value>, wanted: map<WindowId, Value>, done: seq<WindowId>): map<WindowId, Value> {
    map w | w in wanted && (w in done || w in was) :: if w in done then wanted[w] else was[w]
  }

  lemma {:induction false} StartsPartly(was: map<WindowId, Value>, wanted: map<WindowId, Value>, windows: seq<WindowId>)
    requires Sorted(windows) && forall w :: w in windows <==> w in wanted
    ensures Remaining(was, wanted) == Partly(was, wanted, windows[..0])
    ensures CommandsFor(was, wanted, windows[..0]) == [] && Joined([]) == []
  {
  }

  lemma {:induction false} AllSent(was: map<WindowId, Value>, wanted: map<WindowId, Value>, windows: seq<WindowId>)
    requires Sorted(windows) && forall w :: w in windows <==> w in wanted
    ensures windows[..|windows|] == windows && Partly(was, wanted, windows) == wanted
    ensures Sends(Joined(CommandsFor(was, wanted, windows)), was, wanted)
  {
    assert windows[..|windows|] == windows;
    hide CommandsFor;
  }

  lemma {:induction false} OneMoreDone(was: map<WindowId, Value>, wanted: map<WindowId, Value>, done: seq<WindowId>,
        w: WindowId)
    requires w in wanted && w !in done
    ensures var published := Partly(was, wanted, done);
            && (w in published <==> w in was) && (w in was ==> published[w] == was[w])
            && Partly(was, wanted, done + [w]) == published[w := wanted[w]]
  {
  }

  lemma {:induction false} PartlyMore(was: map<WindowId, Value>, wanted: map<WindowId, Value>,
        windows: seq<WindowId>, i: nat)
    requires Sorted(windows) && (forall w :: w in windows <==> w in wanted) && i < |windows|
    ensures var w, published := windows[i], Partly(was, wanted, windows[..i]);
            && w in wanted && (w in published <==> w in was) && (w in was ==> published[w] == was[w])
            && Partly(was, wanted, windows[..i + 1]) == published[w := wanted[w]]
  {
    assert windows[i] in windows;
    SortedDistinct(windows, i);
    assert windows[..i + 1] == windows[..i] + [windows[i]];
    hide *;
    OneMoreDone(was, wanted, windows[..i], windows[i]);
  }

  lemma {:induction false} CommandsMore(was: map<WindowId, Value>, wanted: map<WindowId, Value>,
        windows: seq<WindowId>, i: nat)
    requires (forall w :: w in windows <==> w in wanted) && i < |windows|
    ensures windows[i] in wanted
    ensures var w, commands := windows[i], CommandsFor(was, wanted, windows[..i]);
            CommandsFor(was, wanted, windows[..i + 1])
            == (if w in was && was[w] == wanted[w] then commands
                else commands
                     + [SetOption(w, "@agent_status", wanted[w].status)]
                     + [SetOption(w, "@agent_idle", wanted[w].idle)])
  {
    var w, commands := windows[i], CommandsFor(was, wanted, windows[..i]);
    assert w in windows && Front(windows[..i + 1]) == windows[..i] && Last(windows[..i + 1]) == w;
    hide SetOption;
    var status, idle := SetOption(w, "@agent_status", wanted[w].status), SetOption(w, "@agent_idle", wanted[w].idle);
    assert commands + [status, idle] == commands + [status] + [idle];
  }

  lemma {:induction false} SendStep(was: map<WindowId, Value>, wanted: map<WindowId, Value>, windows: seq<WindowId>,
        i: nat, commands: seq<seq<string>>)
    requires Sorted(windows) && (forall w :: w in windows <==> w in wanted) && i < |windows|
    requires commands == CommandsFor(was, wanted, windows[..i])
    ensures windows[i] in wanted
    ensures var w, published := windows[i], Partly(was, wanted, windows[..i]);
            var status := SetOption(w, "@agent_status", wanted[w].status);
            var idle := SetOption(w, "@agent_idle", wanted[w].idle);
            && (w in published <==> w in was) && (w in was ==> published[w] == was[w])
            && Partly(was, wanted, windows[..i + 1]) == published[w := wanted[w]]
            && CommandsFor(was, wanted, windows[..i + 1])
               == (if w in was && was[w] == wanted[w] then commands else commands + [status] + [idle])
            && (Joined(commands) == [] <==> commands == [])
            && Chain(Chain(Joined(commands), status), idle) == Joined(commands + [status] + [idle])
  {
    var w := windows[i];
    PartlyMore(was, wanted, windows, i);
    CommandsMore(was, wanted, windows, i);
    SomethingJoined(was, wanted, windows[..i]);
    hide Partly, CommandsFor, Sorted;
    ChainTwo(commands, SetOption(w, "@agent_status", wanted[w].status), SetOption(w, "@agent_idle", wanted[w].idle));
  }

  lemma {:induction false} ChainTwo(commands: seq<seq<string>>, a: seq<string>, b: seq<string>)
    requires a != [] && (Joined(commands) == [] <==> commands == [])
    ensures Chain(Chain(Joined(commands), a), b) == Joined(commands + [a] + [b])
  {
    JoinedMore(commands, a);
    JoinedMore(commands + [a], b);
    hide Joined;
  }

  lemma {:induction false} SomethingJoined(was: map<WindowId, Value>, wanted: map<WindowId, Value>,
        windows: seq<WindowId>)
    requires forall w :: w in windows ==> w in wanted
    ensures forall i :: 0 <= i < |CommandsFor(was, wanted, windows)| ==> CommandsFor(was, wanted, windows)[i] != []
    ensures Joined(CommandsFor(was, wanted, windows)) == [] <==> CommandsFor(was, wanted, windows) == []
  {
    if windows != [] {
      FrontLast(windows);
      SomethingJoined(was, wanted, Front(windows));
    }
    hide CommandsFor;
  }

  /** One more command, after a separator when it isn't the first. */
  function Chain(args: seq<string>, command: seq<string>): seq<string> {
    if args == [] then command else args + [";"] + command
  }

  lemma {:induction false} SortedDistinct(windows: seq<WindowId>, i: nat)
    requires Sorted(windows) && i < |windows|
    ensures windows[i] !in windows[..i]
  {
    if windows[i] in windows[..i] {
      var k :| 0 <= k < i && windows[..i][k] == windows[i];
      LessTotal(Target(windows[k]), Target(windows[i]));
    }
  }

  // ---- What tmux makes of it -----------------------------------------------

  /** The options of each window on the server. */
  type Table = map<string, Value>

  /** A command on the table; `None` when it fails, as for a window that's gone. */
  function Performed(table: Table, command: seq<string>): Option<Table> {
    if |command| != 6 || command[..3] != ["set-option", "-w", "-t"] || command[3] !in table then None
    else if command[4] == "@agent_status" then Some(table[command[3] := table[command[3]].(status := command[5])])
    else if command[4] == "@agent_idle" then Some(table[command[3] := table[command[3]].(idle := command[5])])
    else None
  }

  function PerformedAll(table: Table, commands: seq<seq<string>>): Option<Table> {
    if commands == [] then Some(table) else
    match PerformedAll(table, Front(commands))
    case None => None
    case Some(t) => Performed(t, Last(commands))
  }

  /** The published values are what the server has for the windows that exist. */
  ghost predicate Agrees(table: Table, published: map<WindowId, Value>) {
    forall w :: w in published && Target(w) in table ==> table[Target(w)] == published[w]
  }

  /** `after` differs from `table` in the windows of `done`, which are as wanted. */
  ghost predicate Updated(table: Table, after: Table, wanted: map<WindowId, Value>, done: seq<WindowId>) {
    && after.Keys == table.Keys
    && (forall w :: w in done && w in wanted && Target(w) in after ==> after[Target(w)] == wanted[w])
    && (forall t :: t in table && (forall w :: w in done ==> t != Target(w)) ==> after[t] == table[t])
  }

  lemma {:induction false} SetBoth(table: Table, w: WindowId, value: Value)
    requires Target(w) in table
    ensures PerformedAll(table, [SetOption(w, "@agent_status", value.status)]
            + [SetOption(w, "@agent_idle", value.idle)])
            == Some(table[Target(w) := value])
  {
    var t := table[Target(w) := table[Target(w)].(status := value.status)];
    SetOne(table, w, "@agent_status", value.status);
    SetOne(t, w, "@agent_idle", value.idle);
    var a, b := SetOption(w, "@agent_status", value.status), SetOption(w, "@agent_idle", value.idle);
    assert Front([a] + [b]) == [a] && Last([a] + [b]) == b && Front([a]) == [] && Last([a]) == a;
    assert t[Target(w) := t[Target(w)].(idle := value.idle)] == table[Target(w) := value];
    hide SetOption, Performed, Target;
    assert PerformedAll(table, [a]) == Some(t);
  }

  lemma {:induction false} SetOne(table: Table, w: WindowId, option: string, value: string)
    requires Target(w) in table
    ensures option == "@agent_status" ==>
              Performed(table, SetOption(w, option, value))
                == Some(table[Target(w) := table[Target(w)].(status := value)])
    ensures option == "@agent_idle" ==>
              Performed(table, SetOption(w, option, value))
                == Some(table[Target(w) := table[Target(w)].(idle := value)])
  {
    var c := SetOption(w, option, value);
    hide Target;
    assert c[..3] == ["set-option", "-w", "-t"];
    assert |"@agent_idle"| != |"@agent_status"|;
  }

  lemma {:induction false} PerformedSplit(table: Table, a: seq<seq<string>>, b: seq<seq<string>>)
    requires PerformedAll(table, a).Some?
    ensures PerformedAll(table, a + b) == PerformedAll(PerformedAll(table, a).value, b)
  {
    hide Performed;
    if b == [] {
      assert a + b == a;
    } else {
      PerformedSplit(table, a, Front(b));
      assert Front(a + b) == a + Front(b);
    }
  }

  /** One more window handled: its value was published already, or is set now. */
  lemma {:induction false} OneMoreUpdated(table: Table, t: Table, u: Table, wanted: map<WindowId, Value>,
        front: seq<WindowId>, w: WindowId)
    requires Updated(table, t, wanted, front) && w in wanted && Target(w) in table && w !in front
    requires u == t[Target(w) := wanted[w]] || (u == t && table[Target(w)] == wanted[w])
    ensures t[Target(w)] == table[Target(w)] && Updated(table, u, wanted, front + [w])
  {
    forall v | v in front
      ensures Target(v) != Target(w)
    {
      if Target(v) == Target(w) { TargetInjective(v, w); }
    }
    hide Target;
    forall x | x in table && (forall v :: v in front + [w] ==> x != Target(v))
      ensures u[x] == table[x]
    {
      assert w in front + [w];
      assert forall v :: v in front ==> v in front + [w];
    }
  }

  lemma {:induction false} CommandsUpdate(table: Table, published: map<WindowId, Value>,
        wanted: map<WindowId, Value>, windows: seq<WindowId>)
    requires Agrees(table, published) && (forall w :: w in windows ==> w in wanted && Target(w) in table)
    requires forall i, j :: 0 <= i < j < |windows| ==> windows[i] != windows[j]
    ensures var r := PerformedAll(table, CommandsFor(published, wanted, windows));
            r.Some? && Updated(table, r.value, wanted, windows)
    decreases |windows|
  {
    if windows != [] {
      var w, front := Last(windows), Front(windows);
      LastIsNew(windows);
      assert w in windows && w in wanted && Target(w) in table;
      hide Target, SetOption, Performed, Agrees, Updated;
      CommandsUpdate(table, published, wanted, front);
      var before := CommandsFor(published, wanted, front);
      var t := PerformedAll(table, before).value;
      var two := [SetOption(w, "@agent_status", wanted[w].status)] + [SetOption(w, "@agent_idle", wanted[w].idle)];
      var same := w in published && published[w] == wanted[w];
      assert CommandsFor(published, wanted, windows) == if same then before else before + two;
      assert PerformedAll(table, before) == Some(t);
      hide *;
      UpdatedHas(table, t, wanted, front, w);
      if same {
        AgreeingValue(table, published, w);
      } else {
        PerformedSplit(table, before, two);
        SetBoth(t, w, wanted[w]);
      }
      OneMoreUpdated(table, t, if same then t else t[Target(w) := wanted[w]], wanted, front, w);
    }
  }

  lemma {:induction false} LastIsNew(windows: seq<WindowId>)
    requires windows != [] && forall i, j :: 0 <= i < j < |windows| ==> windows[i] != windows[j]
    ensures windows == Front(windows) + [Last(windows)] && Last(windows) !in Front(windows)
  {
  }

  lemma {:induction false} UpdatedHas(table: Table, after: Table, wanted: map<WindowId, Value>, done: seq<WindowId>,
        w: WindowId)
    requires Updated(table, after, wanted, done)
    ensures Target(w) in after <==> Target(w) in table
  {
    hide Target;
  }

  lemma {:induction false} AgreeingValue(table: Table, published: map<WindowId, Value>, w: WindowId)
    requires Agrees(table, published) && w in published && Target(w) in table
    ensures table[Target(w)] == published[w]
  {
    hide Target;
  }

  lemma {:induction false} PlainValue(v: Value)
    requires Verbatim(v.status) && Verbatim(v.idle)
    ensures forall w: WindowId ::
            AllVerbatim(SetOption(w, "@agent_status", v.status)) && AllVerbatim(SetOption(w, "@agent_idle", v.idle))
  {
    forall w: WindowId
      ensures Verbatim(Target(w))
    {
      TargetIsVerbatim(w);
    }
  }

  lemma {:induction false} PlainCommands(published: map<WindowId, Value>, wanted: map<WindowId, Value>,
        windows: seq<WindowId>)
    requires forall w :: w in windows ==> w in wanted
    requires forall w :: w in wanted ==> Verbatim(wanted[w].status) && Verbatim(wanted[w].idle)
    ensures Plain(CommandsFor(published, wanted, windows))
  {
    if windows != [] {
      FrontLast(windows);
      PlainCommands(published, wanted, Front(windows));
      PlainValue(wanted[Last(windows)]);
      hide AllVerbatim, Verbatim;
    }
  }

  lemma {:induction false} IdleIsPlain(secs: nat)
    ensures Verbatim(FormatIdle(secs))
  {
    hide Decimal;
    if secs >= 60 {
      var unit := if secs < 3600 then "m" else if secs < 86400 then "h" else "d";
      var n := if secs < 3600 then secs / 60 else if secs < 86400 then secs / 3600 else secs / 86400;
      assert FormatIdle(secs) == Decimal(n) + unit;
      assert (Decimal(n) + unit)[|Decimal(n)|] == unit[0];
    }
  }

  /** The values published are words tmux takes as they are. */
  lemma {:induction false} WantedIsPlain(panes: seq<Pane>, states: map<PaneId, PaneState>, now: nat, w: WindowId)
    ensures Verbatim(Wanted(panes, states, now, w).status) && Verbatim(Wanted(panes, states, now, w).idle)
  {
    hide WindowStatus, ActivityOf, FormatIdle;
    IdleIsPlain(Elapsed(now, ActivityOf(panes, w)));
  }

  /** The seconds a unit letter stands for. */
  ghost predicate UnitIs(unit: char, size: nat) {
    (unit == 'm' && size == 60) || (unit == 'h' && size == 3600) || (unit == 'd' && size == 86400)
  }

  /** A quiet time reads as a number of a unit that is no more than it and less than
      one of that unit below it, the unit being the largest that fits. */
  lemma {:induction false} IdleReads(secs: nat)
    ensures FormatIdle(secs) == "" <==> secs < 60
    ensures secs >= 60 ==>
              var text := FormatIdle(secs);
              var digits := text[..|text| - 1];
              && (forall i :: 0 <= i < |digits| ==> digits[i] in DIGITS)
              && exists size: nat :: UnitIs(text[|text| - 1], size)
                   && ValueOf(digits) * size <= secs < (ValueOf(digits) + 1) * size
                   && (size == 60 ==> secs < 3600) && (size == 3600 ==> 3600 <= secs < 86400)
                   && (size == 86400 ==> 86400 <= secs)
  {
    IdleParts(secs);
    if secs >= 60 {
      DecimalReads(Units(secs));
      var size: nat := if secs < 3600 then 60 else if secs < 86400 then 3600 else 86400;
      hide Decimal, FormatIdle, ValueOf;
      assert UnitIs(FormatIdle(secs)[|FormatIdle(secs)| - 1], size);
      assert Units(secs) * size <= secs < (Units(secs) + 1) * size;
    }
  }

  /** The value of a window tells its most urgent status and, when that leaves
      nothing pending, how long ago the first of its panes had output. */
  lemma {:induction false} WantedReads(panes: seq<Pane>, states: map<PaneId, PaneState>, now: nat, i: nat)
    requires i < |panes| && forall k :: 0 <= k < i ==> panes[k].windowId != panes[i].windowId
    ensures var v, status := Wanted(panes, states, now, panes[i].windowId),
                             WindowStatus(panes, states, panes[i].windowId);
            && FromCode(v.status) == status
            && v.idle == if status == Some(IsIdle) || status == Some(IsDone)
                         then FormatIdle(Elapsed(now, panes[i].activity)) else ""
  {
    var status := WindowStatus(panes, states, panes[i].windowId);
    FirstActivity(panes, i);
    if status.Some? {
      CodeReads(status.value);
    } else {
      CodeReads(IsIdle);
    }
    hide Code, FromCode, WindowStatus, ActivityOf, FormatIdle;
  }

  lemma {:induction false} FirstActivity(panes: seq<Pane>, i: nat)
    requires i < |panes| && forall k :: 0 <= k < i ==> panes[k].windowId != panes[i].windowId
    ensures ActivityOf(panes, panes[i].windowId) == panes[i].activity
  {
    if i > 0 {
      assert panes[0].windowId != panes[i].windowId;
      assert panes[1..][i - 1] == panes[i];
      FirstActivity(panes[1..], i - 1);
    }
  }

  /** Two quiet times look the same exactly when they are the same whole number of
      the same unit. */
  lemma {:induction false} IdleTellsTheUnit(a: nat, b: nat)
    ensures FormatIdle(a) == FormatIdle(b) <==>
            || (a < 60 && b < 60)
            || (60 <= a < 3600 && 60 <= b < 3600 && a / 60 == b / 60)
            || (3600 <= a < 86400 && 3600 <= b < 86400 && a / 3600 == b / 3600)
            || (86400 <= a && 86400 <= b && a / 86400 == b / 86400)
  {
    IdleParts(a);
    IdleParts(b);
    hide FormatIdle, Decimal;
    if FormatIdle(a) == FormatIdle(b) && a >= 60 && b >= 60 {
      DecimalReads(Units(a));
      DecimalReads(Units(b));
    }
  }

  function Units(secs: nat): nat {
    if secs < 3600 then secs / 60 else if secs < 86400 then secs / 3600 else secs / 86400
  }

  lemma {:induction false} IdleParts(secs: nat)
    ensures FormatIdle(secs) == "" <==> secs < 60
    ensures secs >= 60 ==>
              var text := FormatIdle(secs);
              text[..|text| - 1] == Decimal(Units(secs))
              && text[|text| - 1] == if secs < 3600 then 'm' else if secs < 86400 then 'h' else 'd'
  {
    hide Decimal;
    if secs >= 60 {
      var unit := if secs < 3600 then "m" else if secs < 86400 then "h" else "d";
      assert FormatIdle(secs) == Decimal(Units(secs)) + unit;
    }
  }

  /** tmux, given the arguments, reads and performs them all: every wanted window
      then has its wanted options and nothing else changes, whatever windows the
      published table had left out. */
  lemma {:induction false} SendingRefines(args: seq<string>, table: Table, published: map<WindowId, Value>,
        wanted: map<WindowId, Value>)
    requires Sends(args, published, wanted) && Agrees(table, published)
    requires forall w :: w in wanted ==> Target(w) in table && Verbatim(wanted[w].status) && Verbatim(wanted[w].idle)
    ensures var r := PerformedAll(table, Parsed(args));
            && r.Some? && r.value.Keys == table.Keys
            && (forall w :: w in wanted ==> r.value[Target(w)] == wanted[w])
            && (forall t :: t in table && (forall w :: w in wanted ==> t != Target(w)) ==> r.value[t] == table[t])
  {
    var windows :| Sorted(windows) && (forall w :: w in windows <==> w in wanted)
                   && args == Joined(CommandsFor(published, wanted, windows));
    forall i, j | 0 <= i < j < |windows|
      ensures windows[i] != windows[j]
    {
      LessTotal(Target(windows[i]), Target(windows[j]));
    }
    hide CommandsFor, Target, Joined, Parsed, Verbatim, PerformedAll, Less, Agrees;
    PlainCommands(published, wanted, windows);
    PlainIsRead(CommandsFor(published, wanted, windows));
    CommandsUpdate(table, published, wanted, windows);
  }

  /** Nothing is sent exactly when every wanted value is published already. */
  lemma {:induction false} NothingSentIff(args: seq<string>, published: map<WindowId, Value>,
        wanted: map<WindowId, Value>)
    requires Sends(args, published, wanted)
    ensures args == [] <==> forall w :: w in wanted ==> w in published && published[w] == wanted[w]
  {
    var windows :| Sorted(windows) && (forall w :: w in windows <==> w in wanted)
                   && args == Joined(CommandsFor(published, wanted, windows));
    SomethingJoined(published, wanted, windows);
    NoCommandsIff(published, wanted, windows);
    hide CommandsFor, Joined;
  }

  lemma {:induction false} NoCommandsIff(published: map<WindowId, Value>, wanted: map<WindowId, Value>,
        windows: seq<WindowId>)
    requires forall w :: w in windows ==> w in wanted
    ensures CommandsFor(published, wanted, windows) == []
            <==> forall w :: w in windows ==> w in published && published[w] == wanted[w]
  {
    if windows != [] {
      FrontLast(windows);
      NoCommandsIff(published, wanted, Front(windows));
    }
  }

  // ---- Runs ----------------------------------------------------------------

  /** The server's options, the published table, and every window id used so far. */
  datatype World = World(table: Table, published: map<WindowId, Value>, used: set<string>)

  /** Windows come with new ids and any options, or go; those that stay keep theirs. */
  ghost predicate WindowsChange(a: World, b: World) {
    && b.published == a.published && b.used == a.used + b.table.Keys
    && forall t :: t in b.table ==> if t in a.table then b.table[t] == a.table[t] else t !in a.used
  }

  /** A successful call, whose wanted values are those of the windows there are. */
  ghost predicate Published(a: World, b: World, wanted: map<WindowId, Value>) {
    && (forall w :: w in wanted ==> Target(w) in a.table)
    && (forall t :: t in a.table ==> exists w :: w in wanted && Target(w) == t)
    && b.published == wanted && b.used == a.used
    && exists args :: Sends(args, a.published, wanted) && PerformedAll(a.table, Parsed(args)) == Some(b.table)
  }

  ghost predicate Consistent(w: World) {
    && Agrees(w.table, w.published) && w.table.Keys <= w.used
    && forall id :: id in w.published ==> Target(id) in w.used
  }

  lemma {:induction false} ChangeKeeps(a: World, b: World)
    requires Consistent(a) && WindowsChange(a, b)
    ensures Consistent(b)
  {
    hide Target;
  }

  lemma {:induction false} PublishKeeps(a: World, b: World, wanted: map<WindowId, Value>)
    requires Consistent(a) && Published(a, b, wanted)
    requires forall w :: w in wanted ==> Verbatim(wanted[w].status) && Verbatim(wanted[w].idle)
    ensures Consistent(b) && b.table.Keys == a.table.Keys && forall w :: w in wanted ==> b.table[Target(w)] == wanted[w]
  {
    var args :| Sends(args, a.published, wanted) && PerformedAll(a.table, Parsed(args)) == Some(b.table);
    assert Agrees(a.table, a.published) && a.table.Keys <= a.used && b.used == a.used && b.published == wanted;
    assert forall w :: w in wanted ==> Target(w) in a.table;
    hide *;
    SendingRefines(args, a.table, a.published, wanted);
    ShownAgrees(b, wanted);
  }

  lemma {:induction false} ShownAgrees(b: World, wanted: map<WindowId, Value>)
    requires b.published == wanted && b.table.Keys <= b.used
    requires forall w :: w in wanted ==> Target(w) in b.table && b.table[Target(w)] == wanted[w]
    ensures Consistent(b)
  {
    hide Target;
  }

  /** What `WindowOptions` returns. */
  function OptionsOf(panes: seq<Pane>, states: map<PaneId, PaneState>, now: nat): map<WindowId, Value> {
    map w | w in (set p | p in panes :: p.windowId) :: Wanted(panes, states, now, w)
  }

  lemma {:induction false} OptionsArePlain(panes: seq<Pane>, states: map<PaneId, PaneState>, now: nat)
    ensures var wanted := OptionsOf(panes, states, now);
            forall w :: w in wanted ==> Verbatim(wanted[w].status) && Verbatim(wanted[w].idle)
  {
    hide Verbatim, Wanted;
    forall w | w in OptionsOf(panes, states, now)
      ensures Verbatim(Wanted(panes, states, now, w).status) && Verbatim(Wanted(panes, states, now, w).idle)
    {
      WantedIsPlain(panes, states, now, w);
    }
  }

  /** Windows come and go, or the statuses of the listed panes are published. */
  datatype Event = Windows | Call(panes: seq<Pane>, states: map<PaneId, PaneState>, now: nat)

  ghost predicate Step(a: World, e: Event, b: World) {
    match e
    case Windows => WindowsChange(a, b)
    case Call(panes, states, now) => Published(a, b, OptionsOf(panes, states, now))
  }

  ghost predicate Run(worlds: seq<World>, events: seq<Event>) {
    |worlds| == |events| + 1 && worlds[0].published == map[] && worlds[0].table.Keys <= worlds[0].used
    && forall k :: 0 <= k < |events| ==> Step(worlds[k], events[k], worlds[k + 1])
  }

  lemma {:induction false} RunConsistent(worlds: seq<World>, events: seq<Event>, k: nat)
    requires Run(worlds, events) && k < |worlds|
    ensures Consistent(worlds[k])
  {
    if k > 0 {
      RunConsistent(worlds, events, k - 1);
      assert Step(worlds[k - 1], events[k - 1], worlds[k]);
      hide Consistent, WindowsChange, Published, OptionsOf, Run, Verbatim;
      match events[k - 1]
      case Windows => ChangeKeeps(worlds[k - 1], worlds[k]);
      case Call(panes, states, now) =>
        OptionsArePlain(panes, states, now);
        PublishKeeps(worlds[k - 1], worlds[k], OptionsOf(panes, states, now));
    }
  }

  /** Over any run, right after each call every window there is shows its most
      urgent pane status. */
  lemma {:induction false} WindowsShowTheirStatus(worlds: seq<World>, events: seq<Event>, k: nat, p: Pane)
    requires Run(worlds, events) && k < |events| && events[k].Call? && p in events[k].panes
    ensures Target(p.windowId) in worlds[k + 1].table
    ensures var status := WindowStatus(events[k].panes, events[k].states, p.windowId);
            && worlds[k + 1].table[Target(p.windowId)].status == (if status.Some? then Code(status.value) else "")
            && FromCode(worlds[k + 1].table[Target(p.windowId)].status) == status
  {
    CodeReads(IsIdle);
    if WindowStatus(events[k].panes, events[k].states, p.windowId).Some? {
      CodeReads(WindowStatus(events[k].panes, events[k].states, p.windowId).value);
    }
    hide FromCode;
    RunConsistent(worlds, events, k);
    assert Step(worlds[k], events[k], worlds[k + 1]);
    var wanted := OptionsOf(events[k].panes, events[k].states, events[k].now);
    assert p.windowId in wanted
           && wanted[p.windowId] == Wanted(events[k].panes, events[k].states, events[k].now, p.windowId);
    OptionsArePlain(events[k].panes, events[k].states, events[k].now);
    PublishKeeps(worlds[k], worlds[k + 1], wanted);
    assert Target(p.windowId) in worlds[k].table;
    hide WindowStatus, FormatIdle, Code, ActivityOf, Run, Published;
  }
}
