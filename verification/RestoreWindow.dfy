/** Filling one restored window (src/restore.rs): the commands to paste and the
    panes, names and options of a window whose first pane exists. */
module RestoreWindow {
  import opened Wrappers
  import opened Inventory
  import opened Snapshots
  import opened TmuxServer
  import opened ResumeCommand
  import ShellQuote

  datatype Paste = Paste(pane: PaneId, text: string, submit: bool)

  /** `kinds`: the known agents by id. `force`: add windows whose index is taken
      at the next free one. */
  datatype Options = Options(kinds: map<string, AgentKind>, runAgents: bool, force: bool)

  // ---- The command to paste ------------------------------------------------

  /** The words of the command that brings a pane back, and whether they resume a
      known agent; `None` for an idle shell. */
  function PaneWords(pane: PaneSnap, kinds: map<string, AgentKind>): Option<(seq<string>, bool)> {
    if pane.argv.None? && pane.agent.None? then None else
    var argv := if pane.argv.Some? then pane.argv.value else [pane.agent.value.kind];
    if pane.agent.Some? && pane.agent.value.kind in kinds
    then Some((ResumeSpec(kinds[pane.agent.value.kind], argv, pane.agent.value.sessionId), true))
    else Some((argv, false))
  }

  /** The command to paste into a restored pane, and whether it resumes an
      agent; `None` for an idle shell. */
  function PaneCommand(pane: PaneSnap, kinds: map<string, AgentKind>): Option<(string, bool)> {
    match PaneWords(pane, kinds)
    case None => None
    case Some((words, known)) => Some((ShellQuote.ShellJoin(words), known))
  }

  /** A pane gets no command exactly when it ran nothing; the shell reads a
      pasted command back as the recorded words, which for a known agent with a
      session are those that resume it. */
  lemma {:induction false} PaneCommandReads(pane: PaneSnap, kinds: map<string, AgentKind>)
    ensures PaneCommand(pane, kinds).None? <==> pane.argv.None? && pane.agent.None?
    ensures PaneCommand(pane, kinds).Some? ==>
              PaneWords(pane, kinds).Some? &&
              ShellQuote.Words(ShellQuote.Between, PaneCommand(pane, kinds).value.0)
                == Some(PaneWords(pane, kinds).value.0)
    ensures pane.argv.Some? && (pane.agent.None? || pane.agent.value.kind !in kinds) ==>
              PaneWords(pane, kinds) == Some((pane.argv.value, false))
  {
    if PaneWords(pane, kinds).Some? {
      ShellQuote.JoinIsRead(PaneWords(pane, kinds).value.0);
    }
  }

  // ---- The filled window ---------------------------------------------------

  /** The id of the `i`-th pane when the first exists and the others are new. */
  function IdAt(first: PaneId, next: PaneId, i: nat): PaneId {
    if i == 0 then first else next + i - 1
  }

  function PendingOf(pane: PaneSnap): Option<Pending> {
    if pane.argv.None? && pane.agent.None? then None else Some(Pending(pane.argv, pane.agent))
  }

  function FilledPane(w: WindowSnap, first: PaneId, next: PaneId, marked: nat, i: nat): TPane
    requires i < |w.panes|
  {
    TPane(IdAt(first, next, i), w.panes[i].cwd, if i < marked then PendingOf(w.panes[i]) else None)
  }

  /** The first `n` panes, the first `marked` of them with their pending option. */
  function FilledPanes(w: WindowSnap, first: PaneId, next: PaneId, n: nat, marked: nat): seq<TPane>
    requires n <= |w.panes|
  {
    seq(n, i requires 0 <= i < n => FilledPane(w, first, next, marked, i))
  }

  /** The last pane selected among the first `n`. */
  function SelectedAmong(w: WindowSnap, first: PaneId, next: PaneId, before: PaneId, n: nat): PaneId
    requires n <= |w.panes|
  {
    if n == 0 then before
    else if w.panes[n - 1].active then IdAt(first, next, n - 1)
    else SelectedAmong(w, first, next, before, n - 1)
  }

  function PastesAmong(w: WindowSnap, first: PaneId, next: PaneId, o: Options, n: nat): seq<Paste>
    requires n <= |w.panes|
  {
    if n == 0 then [] else
    PastesAmong(w, first, next, o, n - 1)
    + match PaneCommand(w.panes[n - 1], o.kinds)
      case None => []
      case Some((text, known)) => [Paste(IdAt(first, next, n - 1), text, known && o.runAgents)]
  }

  /** The window with its names, options and layout, its panes left alone. */
  function Dressed(t: TWindow, w: WindowSnap): TWindow {
    t.(name := if w.automaticRename then t.name else w.name,
       automaticRename := w.automaticRename && t.automaticRename,
       lastAutoname := if w.lastAutoname == "" then t.lastAutoname else w.lastAutoname,
       autonameOff := w.autonameOff || t.autonameOff,
       layout := w.layout)
  }

  function FilledWindow(t: TWindow, w: WindowSnap, first: PaneId, next: PaneId): TWindow {
    Dressed(t, w).(panes := FilledPanes(w, first, next, |w.panes|, |w.panes|),
                   activePane := SelectedAmong(w, first, next, t.activePane, |w.panes|))
  }

  /** The panes `next..next + n` as well are in window `id`. */
  function Homes(home: map<PaneId, WindowId>, next: PaneId, n: nat, id: WindowId): map<PaneId, WindowId> {
    if n == 0 then home else Homes(home, next, n - 1, id)[next + n - 1 := id]
  }

  lemma {:induction false} HomeOf(home: map<PaneId, WindowId>, next: PaneId, n: nat, id: WindowId, p: PaneId)
    ensures p in Homes(home, next, n, id) <==> p in home || next <= p < next + n
    ensures p in Homes(home, next, n, id) ==>
            Homes(home, next, n, id)[p] == if next <= p < next + n then id else home[p]
  {
    if n > 0 {
      HomeOf(home, next, n - 1, id, p);
    }
  }

  /** The server with window `id` replaced, and with these panes. */
  function Placed(s: Server, id: WindowId, t: TWindow, home: map<PaneId, WindowId>, next: PaneId): Server {
    s.(windows := s.windows[id := t], home := home, nextPane := next)
  }

  function FilledServer(s: Server, w: WindowSnap, first: PaneId): Server
    requires w.panes != [] && Hosted(s, first)
  {
    Placed(s, s.home[first], FilledWindow(HostOf(s, first), w, first, s.nextPane),
           Homes(s.home, s.nextPane, |w.panes| - 1, s.home[first]), s.nextPane + |w.panes| - 1)
  }

  // ---- What is pasted where ------------------------------------------------

  /** The panes with a pending option, in order. */
  function Awaiting(panes: seq<TPane>): seq<TPane> {
    if panes == [] then [] else Awaiting(Front(panes)) + if Last(panes).pending.Some? then [Last(panes)] else []
  }

  /** The paste goes into this pane; the shell reads it as the command the pane's
      option holds, resumed when its agent is known and only then perhaps run. */
  ghost predicate Answers(paste: Paste, pane: TPane, o: Options) {
    pane.pending.Some? && paste.pane == pane.id &&
    var (argv, agent) := (pane.pending.value.argv, pane.pending.value.agent);
    var known := agent.Some? && agent.value.kind in o.kinds;
    && (argv.Some? || agent.Some?)
    && (paste.submit <==> known && o.runAgents)
    && var words := if argv.Some? then argv.value else [agent.value.kind];
       ShellQuote.Words(ShellQuote.Between, paste.text)
       == Some(if known then ResumeSpec(o.kinds[agent.value.kind], words, agent.value.sessionId) else words)
  }

  /** One paste for each of these panes, in order. */
  ghost predicate Answered(pastes: seq<Paste>, panes: seq<TPane>, o: Options) {
    |pastes| == |panes| && forall k :: 0 <= k < |panes| ==> Answers(pastes[k], panes[k], o)
  }

  /** Each pane's option holds what the snapshot recorded of it, if anything. */
  ghost predicate Recalls(panes: seq<TPane>, snaps: seq<PaneSnap>) {
    |panes| == |snaps| && forall i :: 0 <= i < |panes| ==>
      panes[i].pending == if snaps[i].argv.None? && snaps[i].agent.None? then None
                          else Some(Pending(snaps[i].argv, snaps[i].agent))
  }

  /** The pastes are for exactly the panes of the window with a pending option, once
      each and in order, and the options are those recorded. */
  ghost predicate PastesFit(s: Server, w: WindowSnap, first: PaneId, pastes: seq<Paste>, o: Options) {
    Hosted(s, first) && Recalls(HostOf(s, first).panes, w.panes)
    && Answered(pastes, Awaiting(HostOf(s, first).panes), o)
  }

  lemma {:induction false} PasteAnswers(id: PaneId, cwd: string, pane: PaneSnap, o: Options)
    ensures PaneCommand(pane, o.kinds).None? <==> PendingOf(pane).None?
    ensures PaneCommand(pane, o.kinds).Some? ==>
              var (text, known) := PaneCommand(pane, o.kinds).value;
              Answers(Paste(id, text, known && o.runAgents), TPane(id, cwd, PendingOf(pane)), o)
  {
    PaneCommandReads(pane, o.kinds);
    hide ShellQuote.Words, ShellQuote.ShellJoin, ResumeSpec;
  }

  lemma {:induction false} PastesAnswer(w: WindowSnap, first: PaneId, next: PaneId, o: Options, n: nat)
    requires n <= |w.panes|
    ensures Answered(PastesAmong(w, first, next, o, n),
                     Awaiting(FilledPanes(w, first, next, |w.panes|, |w.panes|)[..n]), o)
  {
    if n > 0 {
      var all, k := FilledPanes(w, first, next, |w.panes|, |w.panes|), n - 1;
      assert Front(all[..n]) == all[..k] && Last(all[..n]) == all[k];
      assert all[k] == TPane(IdAt(first, next, k), w.panes[k].cwd, PendingOf(w.panes[k]));
      hide FilledPanes, PaneCommand, PendingOf, IdAt, Answers;
      PastesAnswer(w, first, next, o, k);
      PasteAnswers(IdAt(first, next, k), w.panes[k].cwd, w.panes[k], o);
    }
  }

  lemma {:induction false} FilledIsAnswered(s: Server, w: WindowSnap, first: PaneId, o: Options)
    requires w.panes != [] && Hosted(s, first) && first < s.nextPane
    ensures PastesFit(FilledServer(s, w, first), w, first, PastesAmong(w, first, s.nextPane, o, |w.panes|), o)
  {
    var panes, next, id := FilledPanes(w, first, s.nextPane, |w.panes|, |w.panes|), s.nextPane, s.home[first];
    HomeOf(s.home, next, |w.panes| - 1, id, first);
    assert panes[..|w.panes|] == panes;
    hide Answered, Homes, Dressed, SelectedAmong;
    PastesAnswer(w, first, next, o, |w.panes|);
    assert HostOf(FilledServer(s, w, first), first).panes == panes;
  }

  /** The window has just been opened for `w`: its first pane and no other. */
  ghost predicate JustOpened(s: Server, w: WindowSnap, first: PaneId) {
    && w.panes != [] && Hosted(s, first) && first < s.nextPane
    && HostOf(s, first).panes == [TPane(first, w.panes[0].cwd, None)]
  }

  /** The server when the first `n` panes exist. */
  function SplitServer(s: Server, w: WindowSnap, first: PaneId, n: nat): Server
    requires Hosted(s, first) && 0 < n <= |w.panes|
  {
    Placed(s, s.home[first], HostOf(s, first).(panes := FilledPanes(w, first, s.nextPane, n, 0)),
           Homes(s.home, s.nextPane, n - 1, s.home[first]), s.nextPane + n - 1)
  }

  lemma {:induction false} FilledAt(w: WindowSnap, first: PaneId, next: PaneId, n: nat, marked: nat, k: nat)
    requires k < n <= |w.panes| && first < next
    ensures PaneAt(FilledPanes(w, first, next, n, marked), IdAt(first, next, k)) == k
  {
    var panes := FilledPanes(w, first, next, n, marked);
    var i := PaneAt(panes, IdAt(first, next, k));
    hide PaneAt, PendingOf;
    assert panes[k].id == IdAt(first, next, k);
    assert i < n ==> panes[i].id == IdAt(first, next, i);
  }

  lemma {:induction false} OneMorePane(w: WindowSnap, first: PaneId, next: PaneId, n: nat)
    requires 0 < n < |w.panes|
    ensures var panes := FilledPanes(w, first, next, n, 0);
            panes[..|panes|] + [TPane(IdAt(first, next, n), w.panes[n].cwd, None)] + panes[|panes|..]
              == FilledPanes(w, first, next, n + 1, 0)
  {
    hide PendingOf, IdAt;
  }

  lemma {:induction false} Overwrite<K, V>(m: map<K, V>, k: K, a: V, b: V)
    ensures m[k := a][k := b] == m[k := b]
  {
  }

  lemma {:induction false} SplitPlaced(s: Server, id: WindowId, t: TWindow, home: map<PaneId, WindowId>, next: PaneId,
                                       target: PaneId, cwd: string)
    requires target in home && home[target] == id && PaneAt(t.panes, target) + 1 == |t.panes|
    ensures SplitWindow(Placed(s, id, t, home, next), target, cwd)
            == Ok(Placed(s, id, t.(panes := t.panes[..|t.panes|] + [TPane(next, cwd, None)] + t.panes[|t.panes|..]),
                         home[next := id], next + 1))
  {
    assert Hosted(Placed(s, id, t, home, next), target);
    var panes := t.panes[..|t.panes|] + [TPane(next, cwd, None)] + t.panes[|t.panes|..];
    hide PaneAt;
    Overwrite(s.windows, id, t, t.(panes := panes));
  }

  lemma {:induction false} SplitStep(s: Server, w: WindowSnap, first: PaneId, n: nat)
    requires JustOpened(s, w, first) && 0 < n < |w.panes|
    ensures SplitWindow(SplitServer(s, w, first, n), IdAt(first, s.nextPane, n - 1), w.panes[n].cwd)
            == Ok(SplitServer(s, w, first, n + 1))
    ensures SplitServer(s, w, first, n).nextPane == IdAt(first, s.nextPane, n)
  {
    var id, next, target := s.home[first], s.nextPane, IdAt(first, s.nextPane, n - 1);
    var a := HostOf(s, first).(panes := FilledPanes(w, first, next, n, 0));
    var home := Homes(s.home, next, n - 1, id);
    assert PaneAt(a.panes, target) + 1 == |a.panes| by { FilledAt(w, first, next, n, 0, n - 1); }
    assert target in home && home[target] == id by { HomeOf(s.home, next, n - 1, id, target); }
    OneMorePane(w, first, next, n);
    assert home[next + n - 1 := id] == Homes(s.home, next, n, id);
    assert SplitServer(s, w, first, n) == Placed(s, id, a, home, next + n - 1);
    assert SplitServer(s, w, first, n + 1)
           == Placed(s, id, a.(panes := FilledPanes(w, first, next, n + 1, 0)), home[next + n - 1 := id], next + n);
    assert IdAt(first, next, n) == next + n - 1;
    hide *;
    SplitPlaced(s, id, a, home, next + n - 1, target, w.panes[n].cwd);
  }

  /** The server while panes are being marked: the first `n` are. */
  function MarkedServer(s: Server, w: WindowSnap, first: PaneId, n: nat): Server
    requires Hosted(s, first) && n <= |w.panes| && w.panes != []
  {
    Placed(s, s.home[first], MarkedWindow(HostOf(s, first), w, first, s.nextPane, n),
           Homes(s.home, s.nextPane, |w.panes| - 1, s.home[first]), s.nextPane + |w.panes| - 1)
  }

  function MarkedWindow(t: TWindow, w: WindowSnap, first: PaneId, next: PaneId, n: nat): TWindow
    requires n <= |w.panes|
  {
    Dressed(t, w).(panes := FilledPanes(w, first, next, |w.panes|, n),
                   activePane := SelectedAmong(w, first, next, t.activePane, n))
  }

  lemma {:induction false} MarkedStep(t: TWindow, w: WindowSnap, first: PaneId, next: PaneId, n: nat)
    requires n < |w.panes|
    ensures var a, p := MarkedWindow(t, w, first, next, n), w.panes[n];
            |a.panes| == |w.panes| && MarkedWindow(t, w, first, next, n + 1) ==
            a.(panes := if PendingOf(p).None? then a.panes else a.panes[n := a.panes[n].(pending := PendingOf(p))],
               activePane := if p.active then IdAt(first, next, n) else a.activePane)
  {
    OneMoreMarked(w, first, next, n);
    hide FilledPanes, PendingOf, IdAt, Dressed;
  }

  function Mark(s: Server, pane: PaneSnap, id: PaneId): Server {
    var t := if pane.active then SelectPane(s, id) else s;
    match PendingOf(pane)
    case None => t
    case Some(pending) => SetPending(t, id, pending)
  }

  lemma {:induction false} OneMoreMarked(w: WindowSnap, first: PaneId, next: PaneId, n: nat)
    requires n < |w.panes|
    ensures var panes := FilledPanes(w, first, next, |w.panes|, n);
            var marked := FilledPanes(w, first, next, |w.panes|, n + 1);
            |panes| == |w.panes|
            && marked == if PendingOf(w.panes[n]).None? then panes
                         else panes[n := panes[n].(pending := PendingOf(w.panes[n]))]
  {
    hide PendingOf, IdAt;
    var panes, marked := FilledPanes(w, first, next, |w.panes|, n), FilledPanes(w, first, next, |w.panes|, n + 1);
    assert marked == panes[n := panes[n].(pending := PendingOf(w.panes[n]))];
    if PendingOf(w.panes[n]).None? {
      assert marked == panes;
    }
  }

  lemma {:induction false} SelectPlaced(s: Server, id: WindowId, t: TWindow, home: map<PaneId, WindowId>,
        next: PaneId, p: PaneId)
    requires p in home && home[p] == id
    ensures SelectPane(Placed(s, id, t, home, next), p) == Placed(s, id, t.(activePane := p), home, next)
  {
    assert Hosted(Placed(s, id, t, home, next), p);
    Overwrite(s.windows, id, t, t.(activePane := p));
  }

  lemma {:induction false} PendPlaced(s: Server, id: WindowId, t: TWindow, home: map<PaneId, WindowId>,
        next: PaneId, p: PaneId,
                                      pending: Pending, i: nat)
    requires p in home && home[p] == id && PaneAt(t.panes, p) == i < |t.panes|
    ensures SetPending(Placed(s, id, t, home, next), p, pending)
            == Placed(s, id, t.(panes := t.panes[i := t.panes[i].(pending := Some(pending))]), home, next)
  {
    assert Hosted(Placed(s, id, t, home, next), p);
    hide PaneAt;
    Overwrite(s.windows, id, t, t.(panes := t.panes[i := t.panes[i].(pending := Some(pending))]));
  }

  lemma {:induction false} MarkPlaced(s: Server, id: WindowId, t: TWindow, home: map<PaneId, WindowId>, next: PaneId,
                                      pane: PaneSnap, p: PaneId, i: nat)
    requires p in home && home[p] == id && PaneAt(t.panes, p) == i < |t.panes|
    ensures Mark(Placed(s, id, t, home, next), pane, p) ==
            Placed(s, id,
                   t.(panes := if PendingOf(pane).None? then t.panes
                               else t.panes[i := t.panes[i].(pending := PendingOf(pane))],
                             activePane := if pane.active then p else t.activePane), home, next)
  {
    assert Hosted(Placed(s, id, t, home, next), p);
    var a := if pane.active then t.(activePane := p) else t;
    SelectPlaced(s, id, t, home, next, p);
    if PendingOf(pane).Some? {
      PendPlaced(s, id, a, home, next, p, PendingOf(pane).value, i);
    }
    hide PaneAt, PendingOf, Placed, SelectPane, SetPending;
  }

  lemma {:induction false} MarkStep(s: Server, w: WindowSnap, first: PaneId, n: nat)
    requires JustOpened(s, w, first) && n < |w.panes|
    ensures Mark(MarkedServer(s, w, first, n), w.panes[n], IdAt(first, s.nextPane, n))
            == MarkedServer(s, w, first, n + 1)
  {
    hide Mark, Homes, PendingOf;
    var id, t, next, p := s.home[first], HostOf(s, first), s.nextPane, IdAt(first, s.nextPane, n);
    var home := Homes(s.home, next, |w.panes| - 1, id);
    var a := MarkedWindow(t, w, first, next, n);
    assert p in home && home[p] == id by { HomeOf(s.home, next, |w.panes| - 1, id, p); }
    assert PaneAt(a.panes, p) == n < |a.panes| by { FilledAt(w, first, next, |w.panes|, n, n); }
    MarkedStep(t, w, first, next, n);
    assert MarkedServer(s, w, first, n) == Placed(s, id, a, home, next + |w.panes| - 1);
    assert MarkedServer(s, w, first, n + 1)
           == Placed(s, id, MarkedWindow(t, w, first, next, n + 1), home, next + |w.panes| - 1);
    hide *;
    MarkPlaced(s, id, a, home, next + |w.panes| - 1, w.panes[n], p, n);
  }

  /** The option commands of a filled window, on any state of it. */
  function Dress(s: Server, w: WindowSnap, first: PaneId): Server {
    var a := SelectLayout(s, first, w.layout);
    var b := if w.automaticRename then a else RenameWindow(a, first, w.name);
    var c := if w.lastAutoname == "" then b else SetLastAutoname(b, first, w.lastAutoname);
    if w.autonameOff then SetAutonameOff(c, first) else c
  }

  method DressWindow(t: Tmux, w: WindowSnap, first: PaneId)
    modifies t
    ensures t.server == Dress(old(t.server), w, first)
  {
    hide SelectLayout, RenameWindow, SetLastAutoname, SetAutonameOff;
    t.server := SelectLayout(t.server, first, w.layout);
    if !w.automaticRename {
      t.server := RenameWindow(t.server, first, w.name);
    }
    if w.lastAutoname != "" {
      t.server := SetLastAutoname(t.server, first, w.lastAutoname);
    }
    if w.autonameOff {
      t.server := SetAutonameOff(t.server, first);
    }
  }

  /** Split the window into the panes of `w`, each beside the last. */
  method SplitInto(t: Tmux, w: WindowSnap, first: PaneId) returns (ids: seq<PaneId>)
    requires JustOpened(t.server, w, first) && w.panes != []
    modifies t
    ensures t.server == SplitServer(old(t.server), w, first, |w.panes|)
    ensures |ids| == |w.panes|
    ensures forall k :: 0 <= k < |ids| ==> ids[k] == IdAt(first, old(t.server).nextPane, k)
  {
    ghost var s := t.server;
    assert IdAt(first, s.nextPane, 0) == first && JustOpened(s, w, first);
    hide *;
    ids := [first];
    FirstSplit(s, w, first);
    for i := 1 to |w.panes|
      invariant t.server == SplitServer(s, w, first, i)
      invariant |ids| == i && forall k :: 0 <= k < i ==> ids[k] == IdAt(first, s.nextPane, k)
    {
      SplitStep(s, w, first, i);
      var r := t.DoSplitWindow(ids[|ids| - 1], w.panes[i].cwd);
      if r.Err? {
        break;
      }
      ids := ids + [r.value];
    }
  }

  /** Panes, layout, names and options of a window whose first pane exists. */
  method FillWindow(t: Tmux, w: WindowSnap, first: PaneId, o: Options) returns (pastes: seq<Paste>)
    requires JustOpened(t.server, w, first)
    modifies t
    ensures t.server == FilledServer(old(t.server), w, first)
    ensures pastes == PastesAmong(w, first, old(t.server).nextPane, o, |w.panes|)
    ensures PastesFit(t.server, w, first, pastes, o)
  {
    ghost var s := t.server;
    assert w.panes != [] && Hosted(s, first) && first < s.nextPane;
    hide *;
    var ids := SplitInto(t, w, first);
    DressedServer(s, w, first);
    DressWindow(t, w, first);
    pastes := [];
    for i := 0 to |w.panes|
      invariant t.server == MarkedServer(s, w, first, i)
      invariant pastes == PastesAmong(w, first, s.nextPane, o, i)
    {
      MarkStep(s, w, first, i);
      var more := MarkPane(t, w.panes[i], ids[i], o);
      pastes := pastes + more;
    }
    AllMarked(s, w, first);
    FilledIsAnswered(s, w, first, o);
  }

  method MarkPane(t: Tmux, pane: PaneSnap, id: PaneId, o: Options) returns (pastes: seq<Paste>)
    modifies t
    ensures t.server == Mark(old(t.server), pane, id)
    ensures pastes == match PaneCommand(pane, o.kinds)
                      case None => []
                      case Some((text, known)) => [Paste(id, text, known && o.runAgents)]
  {
    if pane.active {
      t.server := SelectPane(t.server, id);
    }
    match PaneCommand(pane, o.kinds) {
      case Some((text, known)) =>
        t.server := SetPending(t.server, id, Pending(pane.argv, pane.agent));
        pastes := [Paste(id, text, known && o.runAgents)];
      case None => pastes := [];
    }
  }

  lemma {:induction false} FirstSplit(s: Server, w: WindowSnap, first: PaneId)
    requires JustOpened(s, w, first)
    ensures SplitServer(s, w, first, 1) == s
  {
    hide PendingOf;
    assert FilledPanes(w, first, s.nextPane, 1, 0) == HostOf(s, first).panes;
    assert Homes(s.home, s.nextPane, 0, s.home[first]) == s.home;
    assert s.windows[s.home[first] := HostOf(s, first)] == s.windows;
  }

  lemma {:induction false} OptionPlaced(s: Server, id: WindowId, t: TWindow, home: map<PaneId, WindowId>, next: PaneId,
                                        first: PaneId, text: string)
    requires first in home && home[first] == id
    ensures var p := Placed(s, id, t, home, next);
            && SelectLayout(p, first, text) == Placed(s, id, t.(layout := text), home, next)
            && RenameWindow(p, first, text) == Placed(s, id, t.(name := text, automaticRename := false), home, next)
            && SetLastAutoname(p, first, text) == Placed(s, id, t.(lastAutoname := text), home, next)
            && SetAutonameOff(p, first) == Placed(s, id, t.(autonameOff := true), home, next)
  {
    assert Hosted(Placed(s, id, t, home, next), first);
    Overwrite(s.windows, id, t, t.(layout := text));
    Overwrite(s.windows, id, t, t.(name := text, automaticRename := false));
    Overwrite(s.windows, id, t, t.(lastAutoname := text));
    Overwrite(s.windows, id, t, t.(autonameOff := true));
  }

  lemma {:induction false} DressPlaced(s: Server, id: WindowId, t: TWindow, home: map<PaneId, WindowId>, next: PaneId,
                                       w: WindowSnap, first: PaneId)
    requires first in home && home[first] == id
    ensures Dress(Placed(s, id, t, home, next), w, first) == Placed(s, id, Dressed(t, w), home, next)
  {
    hide SelectLayout, RenameWindow, SetLastAutoname, SetAutonameOff, Placed;
    var a := t.(layout := w.layout);
    var b := if w.automaticRename then a else a.(name := w.name, automaticRename := false);
    var c := if w.lastAutoname == "" then b else b.(lastAutoname := w.lastAutoname);
    OptionPlaced(s, id, t, home, next, first, w.layout);
    OptionPlaced(s, id, a, home, next, first, w.name);
    OptionPlaced(s, id, b, home, next, first, w.lastAutoname);
    OptionPlaced(s, id, c, home, next, first, "");
  }

  /** The option commands on the split window. */
  lemma {:induction false} DressedServer(s: Server, w: WindowSnap, first: PaneId)
    requires JustOpened(s, w, first)
    ensures Dress(SplitServer(s, w, first, |w.panes|), w, first) == MarkedServer(s, w, first, 0)
  {
    hide Dress, Homes, FilledPanes, PendingOf, PaneAt;
    var id, t, next := s.home[first], HostOf(s, first), s.nextPane;
    var home := Homes(s.home, next, |w.panes| - 1, id);
    var a := t.(panes := FilledPanes(w, first, next, |w.panes|, 0));
    assert first in home && home[first] == id by { HomeOf(s.home, next, |w.panes| - 1, id, first); }
    assert SplitServer(s, w, first, |w.panes|) == Placed(s, id, a, home, next + |w.panes| - 1);
    assert MarkedServer(s, w, first, 0) == Placed(s, id, Dressed(a, w), home, next + |w.panes| - 1);
    hide *;
    DressPlaced(s, id, a, home, next + |w.panes| - 1, w, first);
  }

  lemma {:induction false} AllMarked(s: Server, w: WindowSnap, first: PaneId)
    requires JustOpened(s, w, first)
    ensures MarkedServer(s, w, first, |w.panes|) == FilledServer(s, w, first)
  {
  }
}
