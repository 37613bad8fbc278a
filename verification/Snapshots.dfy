/** Snapshots of every session, window and pane, built from the pane list
    (src/snapshot.rs). */
module Snapshots {
  import opened Wrappers
  import opened Inventory

  type Env = seq<(string, string)>

  datatype PaneSnap =
    PaneSnap(index: nat, cwd: string, active: bool, argv: Option<seq<string>>, agent: Option<AgentResume>)

  datatype WindowSnap = WindowSnap(
    id: WindowId,
    index: nat,
    name: string,
    automaticRename: bool,
    autonameOff: bool,
    lastAutoname: string,
    layout: string,
    active: bool,
    panes: seq<PaneSnap>)

  datatype SessionSnap = SessionSnap(name: string, category: string, env: Env, windows: seq<WindowSnap>)

  datatype Snapshot = Snapshot(takenAt: nat, sessions: seq<SessionSnap>)

  /** No two sessions share a name, as in tmux. */
  ghost predicate DistinctNames(sessions: seq<SessionSnap>) {
    forall i, j :: 0 <= i < j < |sessions| ==> sessions[i].name != sessions[j].name
  }

  // ---- Secrets -------------------------------------------------------------

  /** The `NAME` of a `NAME=value` word. */
  function NameOf(w: string): Option<string> {
    if w == [] then None
    else if w[0] == '=' then Some([])
    else match NameOf(w[1..])
         case None => None
         case Some(n) => Some([w[0]] + n)
  }

  predicate EndsWith(w: string, suffix: string) {
    |suffix| <= |w| && w[|w| - |suffix|..] == suffix
  }

  /** A `*SUFFIX=` pattern, as opposed to a flag. */
  predicate SuffixPattern(p: string) {
    |p| >= 2 && p[0] == '*' && p[|p| - 1] == '='
  }

  /** The word itself holds a secret, or announces one. */
  predicate SecretBy(w: string, p: string) {
    if SuffixPattern(p) then NameOf(w).Some? && EndsWith(NameOf(w).value, p[1..|p| - 1])
    else w == p || p + "=" <= w
  }

  predicate Secret(w: string, patterns: seq<string>) {
    exists i :: 0 <= i < |patterns| && SecretBy(w, patterns[i])
  }

  /** The next word is the secret value of this flag. */
  predicate TakesSecret(w: string, patterns: seq<string>) {
    exists i :: 0 <= i < |patterns| && !SuffixPattern(patterns[i]) && w == patterns[i]
  }

  function Redacted(argv: seq<string>, patterns: seq<string>): seq<string>
    decreases |argv|
  {
    if argv == [] then []
    else if TakesSecret(argv[0], patterns) then Redacted(if |argv| > 1 then argv[2..] else [], patterns)
    else if Secret(argv[0], patterns) then Redacted(argv[1..], patterns)
    else [argv[0]] + Redacted(argv[1..], patterns)
  }

  function RedactedFrom(argv: seq<string>, patterns: seq<string>, skip: bool): seq<string> {
    Redacted(if skip && argv != [] then argv[1..] else argv, patterns)
  }

  /** `argv` without secrets. */
  method RedactArgv(argv: seq<string>, patterns: seq<string>) returns (out: seq<string>)
    ensures out == Redacted(argv, patterns)
  {
    out := [];
    var skipValue := false;
    for i := 0 to |argv|
      invariant out + RedactedFrom(argv[i..], patterns, skipValue) == Redacted(argv, patterns)
    {
      var arg := argv[i];
      assert argv[i..][0] == arg && argv[i..][1..] == argv[i + 1..];
      if skipValue {
        skipValue := false;
        continue;
      }
      var secret := false;
      for j := 0 to |patterns|
        invariant secret <==> exists k :: 0 <= k < j && SecretBy(arg, patterns[k])
        invariant skipValue <==> exists k :: 0 <= k < j && !SuffixPattern(patterns[k]) && arg == patterns[k]
      {
        var p := patterns[j];
        if SuffixPattern(p) {
          var name := NameOf(arg);
          secret := secret || (name.Some? && EndsWith(name.value, p[1..|p| - 1]));
        } else if arg == p {
          secret := true;
          skipValue := true;
        } else {
          secret := secret || p + "=" <= arg;
        }
      }
      RedactStep(argv, patterns, i, out);
      if !secret {
        out := out + [arg];
      }
    }
  }

  lemma {:induction false} RedactStep(argv: seq<string>, patterns: seq<string>, i: nat, out: seq<string>)
    requires i < |argv|
    ensures TakesSecret(argv[i], patterns) ==> Secret(argv[i], patterns)
    ensures out + RedactedFrom(argv[i..], patterns, false) ==
            (if Secret(argv[i], patterns) then out else out + [argv[i]])
            + RedactedFrom(argv[i + 1..], patterns, TakesSecret(argv[i], patterns))
  {
    hide SecretBy;
    TakingIsSecret(argv[i], patterns);
    assert argv[i..][0] == argv[i] && argv[i..][1..] == argv[i + 1..];
    if i + 1 < |argv| {
      assert argv[i..][2..] == argv[i + 1..][1..];
    }
    assert out + ([argv[i]] + Redacted(argv[i + 1..], patterns)) == out + [argv[i]] + Redacted(argv[i + 1..], patterns);
  }

  lemma {:induction false} TakingIsSecret(w: string, patterns: seq<string>)
    ensures TakesSecret(w, patterns) ==> Secret(w, patterns)
  {
    if TakesSecret(w, patterns) {
      var i :| 0 <= i < |patterns| && !SuffixPattern(patterns[i]) && w == patterns[i];
      assert SecretBy(w, patterns[i]);
    }
  }

  /** No word that remains is secret. */
  lemma {:induction false} NothingSecretLeft(argv: seq<string>, patterns: seq<string>)
    ensures forall i :: 0 <= i < |Redacted(argv, patterns)| ==> !Secret(Redacted(argv, patterns)[i], patterns)
    decreases |argv|
  {
    hide Secret, TakesSecret;
    if argv != [] {
      if |argv| > 1 { NothingSecretLeft(argv[2..], patterns); }
      NothingSecretLeft(argv[1..], patterns);
    }
  }

  lemma {:induction false} NoSecretsUnchanged(argv: seq<string>, patterns: seq<string>)
    requires forall i :: 0 <= i < |argv| ==> !Secret(argv[i], patterns)
    ensures Redacted(argv, patterns) == argv
    decreases |argv|
  {
    hide Secret, TakesSecret;
    if argv != [] {
      TakingIsSecret(argv[0], patterns);
      NoSecretsUnchanged(argv[1..], patterns);
    }
  }

  /** Redacting a redacted argv changes nothing, so a pending command keeps its
      words from one snapshot to the next. */
  lemma {:induction false} RedactIdempotent(argv: seq<string>, patterns: seq<string>)
    ensures Redacted(Redacted(argv, patterns), patterns) == Redacted(argv, patterns)
  {
    NothingSecretLeft(argv, patterns);
    NoSecretsUnchanged(Redacted(argv, patterns), patterns);
  }

  // ---- Building ------------------------------------------------------------

  /** What a tick knows besides the pane list: agent states, session
      environments, each pane's command line and the redaction patterns. */
  datatype Facts = Facts(states: map<PaneId, PaneState>, env: map<string, Env>,
                         argvs: map<PaneId, seq<string>>, redact: seq<string>)

  function SessionOf(f: Facts, p: Pane): SessionSnap {
    SessionSnap(p.session, p.category, if p.session in f.env then f.env[p.session] else [], [])
  }

  function WindowOf(p: Pane): WindowSnap {
    WindowSnap(p.windowId, p.windowIndex, p.windowName, p.automaticRename, p.autonameOff, p.lastAutoname,
               p.windowLayout, p.windowActive, [])
  }

  /** The pane as recorded: what runs in it, or, in an idle pane, what its
      pending option says it ran before. */
  function PaneOf(f: Facts, p: Pane): PaneSnap {
    var agent := if p.id in f.states && f.states[p.id].agent.Some?
                 then Some(AgentResume(f.states[p.id].agent.value, f.states[p.id].agentSessionId)) else None;
    var argv := if p.id in f.argvs then Some(Redacted(f.argvs[p.id], f.redact)) else None;
    if argv.None? && agent.None? && p.pendingRestore.Some?
    then PaneSnap(p.paneIndex, p.cwd, p.paneActive, p.pendingRestore.value.argv, p.pendingRestore.value.agent)
    else PaneSnap(p.paneIndex, p.cwd, p.paneActive, argv, agent)
  }

  function Last<T>(s: seq<T>): T
    requires s != []
  {
    s[|s| - 1]
  }

  function Front<T>(s: seq<T>): seq<T>
    requires s != []
  {
    s[..|s| - 1]
  }

  lemma {:induction false} FrontLast<T>(s: seq<T>)
    requires s != []
    ensures Front(s) + [Last(s)] == s
  {
  }

  /** One more pane after the windows `ws` of its session. */
  function AddToWindows(f: Facts, ws: seq<WindowSnap>, p: Pane): seq<WindowSnap> {
    if ws == [] || Last(ws).id != p.windowId then ws + [WindowOf(p).(panes := [PaneOf(f, p)])]
    else Front(ws) + [Last(ws).(panes := Last(ws).panes + [PaneOf(f, p)])]
  }

  /** One more pane after the sessions `acc`. */
  function AddPane(f: Facts, acc: seq<SessionSnap>, p: Pane): seq<SessionSnap> {
    if acc == [] || Last(acc).name != p.session then acc + [SessionOf(f, p).(windows := AddToWindows(f, [], p))]
    else Front(acc) + [Last(acc).(windows := AddToWindows(f, Last(acc).windows, p))]
  }

  function Grouped(f: Facts, acc: seq<SessionSnap>, panes: seq<Pane>): seq<SessionSnap>
    decreases |panes|
  {
    if panes == [] then acc else Grouped(f, AddPane(f, acc, panes[0]), panes[1..])
  }

  method Build(panes: seq<Pane>, f: Facts, now: nat) returns (snapshot: Snapshot)
    ensures snapshot == Snapshot(now, Grouped(f, [], panes))
  {
    var sessions: seq<SessionSnap> := [];
    for i := 0 to |panes|
      invariant Grouped(f, sessions, panes[i..]) == Grouped(f, [], panes)
    {
      hide AddPane;
      assert panes[i..][0] == panes[i] && panes[i..][1..] == panes[i + 1..];
      sessions := RecordInSession(f, sessions, panes[i]);
    }
    snapshot := Snapshot(now, sessions);
  }

  method RecordInSession(f: Facts, before: seq<SessionSnap>, pane: Pane) returns (sessions: seq<SessionSnap>)
    ensures sessions == AddPane(f, before, pane)
  {
    hide AddToWindows, PaneOf, Redacted;
    sessions := before;
    if sessions == [] || Last(sessions).name != pane.session {
      sessions := sessions + [SessionOf(f, pane)];
    }
    var session := Last(sessions);
    var windows := RecordInWindow(f, session.windows, pane);
    assert sessions == Front(sessions) + [session];
    sessions := Front(sessions) + [session.(windows := windows)];
  }

  method RecordInWindow(f: Facts, before: seq<WindowSnap>, pane: Pane) returns (windows: seq<WindowSnap>)
    ensures windows == AddToWindows(f, before, pane)
  {
    hide PaneOf;
    windows := before;
    if windows == [] || Last(windows).id != pane.windowId {
      windows := windows + [WindowOf(pane)];
    }
    var window := Last(windows);
    var snap := RecordPane(f, pane);
    windows := windows[|windows| - 1 := window.(panes := window.panes + [snap])];
    assert windows == Front(windows) + [window.(panes := window.panes + [snap])];
    assert [] + [snap] == [snap];
  }

  method RecordPane(f: Facts, pane: Pane) returns (snap: PaneSnap)
    ensures snap == PaneOf(f, pane)
  {
    var agent := if pane.id in f.states && f.states[pane.id].agent.Some?
                 then Some(AgentResume(f.states[pane.id].agent.value, f.states[pane.id].agentSessionId)) else None;
    var argv := None;
    if pane.id in f.argvs {
      var kept := RedactArgv(f.argvs[pane.id], f.redact);
      argv := Some(kept);
    }
    if argv.None? && agent.None? && pane.pendingRestore.Some? {
      argv, agent := pane.pendingRestore.value.argv, pane.pendingRestore.value.agent;
    }
    snap := PaneSnap(pane.paneIndex, pane.cwd, pane.paneActive, argv, agent);
  }

  // ---- What a snapshot says ------------------------------------------------

  /** One recorded pane with the session and window it is listed under. */
  datatype Cell = Cell(session: string, window: WindowId, pane: PaneSnap)

  function WindowCells(session: string, w: WindowSnap): (cs: seq<Cell>)
    ensures |cs| == |w.panes|
    ensures forall i :: 0 <= i < |cs| ==> cs[i] == Cell(session, w.id, w.panes[i])
  {
    seq(|w.panes|, i requires 0 <= i < |w.panes| => Cell(session, w.id, w.panes[i]))
  }

  function WindowsCells(session: string, ws: seq<WindowSnap>): seq<Cell> {
    if ws == [] then [] else WindowsCells(session, Front(ws)) + WindowCells(session, Last(ws))
  }

  function Cells(ss: seq<SessionSnap>): seq<Cell> {
    if ss == [] then [] else Cells(Front(ss)) + WindowsCells(Last(ss).name, Last(ss).windows)
  }

  /** Neighbouring groups differ and no group is empty. */
  ghost predicate WellGrouped(ss: seq<SessionSnap>) {
    && (forall i :: 0 <= i < |ss| ==> ss[i].windows != [])
    && (forall i :: 0 < i < |ss| ==> ss[i - 1].name != ss[i].name)
    && (forall i :: 0 <= i < |ss| ==> WindowsGrouped(ss[i].windows))
  }

  ghost predicate WindowsGrouped(ws: seq<WindowSnap>) {
    && (forall j :: 0 <= j < |ws| ==> ws[j].panes != [])
    && (forall j :: 0 < j < |ws| ==> ws[j - 1].id != ws[j].id)
  }

  lemma {:induction false} AddToWindowsKeeps(f: Facts, ws: seq<WindowSnap>, p: Pane)
    requires WindowsGrouped(ws)
    ensures WindowsGrouped(AddToWindows(f, ws, p)) && AddToWindows(f, ws, p) != []
    ensures WindowsCells(p.session, AddToWindows(f, ws, p))
            == WindowsCells(p.session, ws) + [Cell(p.session, p.windowId, PaneOf(f, p))]
  {
    hide PaneOf;
    if ws == [] || Last(ws).id != p.windowId {
      var w := WindowOf(p).(panes := [PaneOf(f, p)]);
      assert Front(ws + [w]) == ws;
      assert WindowCells(p.session, w) == [Cell(p.session, p.windowId, PaneOf(f, p))];
    } else {
      var w := Last(ws);
      var v := w.(panes := w.panes + [PaneOf(f, p)]);
      assert Front(Front(ws) + [v]) == Front(ws);
      assert WindowCells(p.session, v) == WindowCells(p.session, w) + [Cell(p.session, p.windowId, PaneOf(f, p))];
      ConcatAssoc(WindowsCells(p.session, Front(ws)), WindowCells(p.session, w),
                  [Cell(p.session, p.windowId, PaneOf(f, p))]);
    }
  }

  lemma {:induction false} AddPaneKeeps(f: Facts, acc: seq<SessionSnap>, p: Pane)
    requires WellGrouped(acc)
    ensures WellGrouped(AddPane(f, acc, p))
    ensures Cells(AddPane(f, acc, p)) == Cells(acc) + [Cell(p.session, p.windowId, PaneOf(f, p))]
  {
    hide PaneOf, AddToWindows, WindowsGrouped, WindowsCells;
    var cell := Cell(p.session, p.windowId, PaneOf(f, p));
    if acc == [] || Last(acc).name != p.session {
      NoWindows(p.session);
      AddToWindowsKeeps(f, [], p);
      var s := SessionOf(f, p).(windows := AddToWindows(f, [], p));
      assert s.name == p.session && s.windows != [] && WindowsGrouped(s.windows);
      assert AddPane(f, acc, p) == acc + [s];
      hide *;
      SessionAdded(acc, s);
      assert [] + [cell] == [cell];
    } else {
      AddToWindowsKeeps(f, Last(acc).windows, p);
      var s := Last(acc).(windows := AddToWindows(f, Last(acc).windows, p));
      assert s.name == Last(acc).name == p.session && s.windows != [] && WindowsGrouped(s.windows);
      assert AddPane(f, acc, p) == Front(acc) + [s];
      FrontLast(acc);
      GroupedFront(acc);
      hide *;
      SessionAdded(Front(acc), s);
      SessionAdded(Front(acc), Last(acc));
      ConcatAssoc(Cells(Front(acc)), WindowsCells(p.session, Last(acc).windows), [cell]);
    }
  }

  lemma {:induction false} GroupedFront(ss: seq<SessionSnap>)
    requires ss != [] && WellGrouped(ss)
    ensures WellGrouped(Front(ss)) && Last(ss).windows != [] && WindowsGrouped(Last(ss).windows)
    ensures |ss| > 1 ==> Last(Front(ss)).name != Last(ss).name
  {
    hide WindowsGrouped;
  }

  lemma {:induction false} SessionAdded(init: seq<SessionSnap>, s: SessionSnap)
    requires WellGrouped(init) && s.windows != [] && WindowsGrouped(s.windows)
    requires init != [] ==> Last(init).name != s.name
    ensures WellGrouped(init + [s]) && Cells(init + [s]) == Cells(init) + WindowsCells(s.name, s.windows)
  {
    hide WindowsGrouped, WindowsCells;
    assert Front(init + [s]) == init && Last(init + [s]) == s;
  }

  lemma {:induction false} NoWindows(session: string)
    ensures WindowsGrouped([]) && WindowsCells(session, []) == []
  {
  }

  lemma {:induction false} ConcatAssoc<T>(a: seq<T>, b: seq<T>, c: seq<T>)
    ensures a + (b + c) == a + b + c
  {
  }

  function PaneCells(f: Facts, panes: seq<Pane>): seq<Cell> {
    if panes == [] then [] else
    [Cell(panes[0].session, panes[0].windowId, PaneOf(f, panes[0]))] + PaneCells(f, panes[1..])
  }

  lemma {:induction false} GroupedCells(f: Facts, acc: seq<SessionSnap>, panes: seq<Pane>)
    requires WellGrouped(acc)
    ensures WellGrouped(Grouped(f, acc, panes))
    ensures Cells(Grouped(f, acc, panes)) == Cells(acc) + PaneCells(f, panes)
    decreases |panes|
  {
    hide PaneOf, AddPane, WellGrouped;
    if panes == [] {
      assert Cells(acc) + [] == Cells(acc);
    } else {
      AddPaneKeeps(f, acc, panes[0]);
      GroupedCells(f, AddPane(f, acc, panes[0]), panes[1..]);
      ConcatAssoc(Cells(acc), [Cell(panes[0].session, panes[0].windowId, PaneOf(f, panes[0]))],
        PaneCells(f, panes[1..]));
    }
  }

  /** A snapshot lists every pane once, in list order, under its own session and
      window, with neighbouring panes of a window or session kept together. */
  lemma {:induction false} SnapshotListsPanes(f: Facts, panes: seq<Pane>)
    ensures Cells(Grouped(f, [], panes)) == PaneCells(f, panes)
    ensures WellGrouped(Grouped(f, [], panes))
  {
    hide PaneOf, AddPane;
    GroupedCells(f, [], panes);
    assert [] + PaneCells(f, panes) == PaneCells(f, panes);
  }
}
