/** Naming agent windows after their session titles (src/naming.rs): what a
    title is cleaned to, what is sent to tmux, and when sending it settles. */
module WindowNaming {
  import opened Wrappers
  import opened Inventory
  import opened TmuxArgs
  import opened Characters

  // ---- Titles --------------------------------------------------------------

  /** Braille spinner characters, stars, hexagons and the middle dot, or space. */
  predicate Glyph(c: char) {
    var n := c as int;
    0x2800 <= n <= 0x28FF || n == 0x2733 || n == 0x273B || n == 0x2722 || n == 0x2736 || n == 0x273D
    || n == 0x2B21 || n == 0x2B22 || n == 0xB7 || Space(c)
  }

  const ELLIPSIS: char := '\U{2026}'

  function DropControls(s: string): string {
    if s == [] then [] else if Control(s[0]) then DropControls(s[1..]) else [s[0]] + DropControls(s[1..])
  }

  function TrimGlyphs(s: string): string {
    if s != [] && Glyph(s[0]) then TrimGlyphs(s[1..]) else s
  }

  function TrimSpace(s: string): string {
    if s != [] && Space(s[|s| - 1]) then TrimSpace(s[..|s| - 1]) else s
  }

  function TrimSemicolons(s: string): string {
    if s != [] && s[|s| - 1] == ';' then TrimSemicolons(s[..|s| - 1]) else s
  }

  /** `lower`: Unicode lower-casing. */
  datatype Config = Config(maxLen: nat, host: string, lower: string -> string)

  const GENERIC: seq<string> := ["claude", "claude code", "opencode", "codex", "pi"]

  function Cleaned(raw: string): string {
    TrimSpace(TrimSemicolons(TrimSpace(TrimGlyphs(DropControls(raw)))))
  }

  /** The window name for a pane title, `None` for generic titles. */
  function CleanTitle(cfg: Config, raw: string): Option<string> {
    var text := Cleaned(raw);
    if text == [] || cfg.lower(text) in GENERIC || cfg.lower(text) == cfg.lower(cfg.host) then None
    else if |text| <= cfg.maxLen then Some(text)
    else Some(TrimSpace(text[..if cfg.maxLen == 0 then 0 else cfg.maxLen - 1]) + [ELLIPSIS])
  }

  lemma {:induction false} TrimSpaceIs(s: string)
    ensures TrimSpace(s) <= s && (TrimSpace(s) != [] ==> !Space(TrimSpace(s)[|TrimSpace(s)| - 1]))
    ensures forall i :: |TrimSpace(s)| <= i < |s| ==> Space(s[i])
  {
    if s != [] && Space(s[|s| - 1]) {
      TrimSpaceIs(s[..|s| - 1]);
    }
  }

  lemma {:induction false} TrimSemicolonsIs(s: string)
    ensures TrimSemicolons(s) <= s
  {
    if s != [] && s[|s| - 1] == ';' {
      TrimSemicolonsIs(s[..|s| - 1]);
    }
  }

  lemma {:induction false} TrimGlyphsIs(s: string)
    ensures |TrimGlyphs(s)| <= |s| && TrimGlyphs(s) == s[|s| - |TrimGlyphs(s)|..]
    ensures TrimGlyphs(s) != [] ==> !Glyph(TrimGlyphs(s)[0])
  {
    if s != [] && Glyph(s[0]) {
      TrimGlyphsIs(s[1..]);
    }
  }

  lemma {:induction false} NoControls(s: string)
    ensures forall i :: 0 <= i < |DropControls(s)| ==> !Control(DropControls(s)[i])
  {
    if s != [] {
      NoControls(s[1..]);
    }
  }

  ghost predicate CleanText(s: string) {
    (s != [] ==> !Glyph(s[0])) && forall i :: 0 <= i < |s| ==> !Control(s[i])
  }

  lemma {:induction false} CleanedIsClean(raw: string)
    ensures CleanText(Cleaned(raw))
  {
    var a := DropControls(raw);
    NoControls(raw);
    TrimGlyphsIs(a);
    var b := TrimGlyphs(a);
    TrimSpaceIs(b);
    TrimSemicolonsIs(TrimSpace(b));
    TrimSpaceIs(TrimSemicolons(TrimSpace(b)));
    hide TrimGlyphs, TrimSpace, TrimSemicolons, DropControls, Glyph, Control;
  }

  /** A name is never empty, never longer than allowed (one character at least),
      has no control characters and no leading glyph, and doesn't end in space. */
  lemma {:induction false} NamesAreShort(cfg: Config, raw: string)
    requires CleanTitle(cfg, raw).Some?
    ensures var name := CleanTitle(cfg, raw).value;
            && 1 <= |name| <= (if cfg.maxLen == 0 then 1 else cfg.maxLen)
            && CleanText(name) && !Space(name[|name| - 1])
  {
    var text := Cleaned(raw);
    CleanedIsClean(raw);
    TrimSpaceIs(TrimSemicolons(TrimSpace(TrimGlyphs(DropControls(raw)))));
    var cut := text[..if cfg.maxLen == 0 || |text| <= cfg.maxLen then 0 else cfg.maxLen - 1];
    TrimSpaceIs(cut);
    hide Cleaned, TrimSpace;
  }

  /** A shortened name ends in an ellipsis; only a title kept whole can end in the
      `;` that tmux would take for a separator. */
  lemma {:induction false} ShortenedIsVerbatim(cfg: Config, raw: string)
    requires CleanTitle(cfg, raw).Some?
    ensures |Cleaned(raw)| > cfg.maxLen ==> Verbatim(CleanTitle(cfg, raw).value)
    ensures |Cleaned(raw)| <= cfg.maxLen ==> CleanTitle(cfg, raw).value == Cleaned(raw)
  {
    hide Cleaned;
  }

  /** Cleaning drops the last run of `;` only: one before trailing space stays. */
  lemma {:induction false} SemicolonCanStay()
    ensures Cleaned("a; ;") == "a;" && !Verbatim("a;")
  {
    var raw := "a; ;";
    assert DropControls(raw) == raw by {
      assert raw[1..] == "; ;" && raw[1..][1..] == " ;" && raw[1..][1..][1..] == ";" && raw[1..][1..][1..][1..] == "";
    }
    assert TrimGlyphs(raw) == raw && TrimSpace(raw) == raw;
    assert raw[..3] == "a; " && TrimSemicolons("a; ") == "a; ";
    assert TrimSemicolons(raw) == "a; ";
    assert "a; "[..2] == "a;" && TrimSpace("a;") == "a;";
  }

  // ---- What to do with a window --------------------------------------------

  datatype Action = Rename(name: string) | Disable

  /** The naming state of a window, as tmux holds it. */
  datatype Named = Named(name: string, automaticRename: bool, autonameOff: bool, lastAutoname: string)

  function NamedOf(p: Pane): Named {
    Named(p.windowName, p.automaticRename, p.autonameOff, p.lastAutoname)
  }

  /** The user gave the window a name of their own. */
  predicate NamedByUser(w: Named) {
    if w.lastAutoname == "" then !w.automaticRename else w.name != w.lastAutoname
  }

  function ActionFor(w: Named, title: Option<string>): Option<Action> {
    if w.autonameOff then None
    else if NamedByUser(w) then Some(Disable)
    else if title.Some? && title.value != w.name then Some(Rename(title.value)) else None
  }

  /** The pane naming a window and its cleaned title. */
  datatype Entry = Entry(pane: Pane, title: Option<string>)

  function EntryAt(entries: seq<Entry>, window: WindowId): (i: nat)
    ensures i <= |entries| && (i < |entries| ==> entries[i].pane.windowId == window)
    ensures forall k :: 0 <= k < i ==> entries[k].pane.windowId != window
  {
    if entries == [] then 0 else if entries[0].pane.windowId == window then 0 else 1 + EntryAt(entries[1..], window)
  }

  function Pick(entries: seq<Entry>, p: Pane, title: Option<string>): seq<Entry> {
    var i := EntryAt(entries, p.windowId);
    if i == |entries| then entries + [Entry(p, title)]
    else if title.Some? && (p.active || (entries[i].title.None? && !entries[i].pane.active))
    then entries[i := Entry(p, title)]
    else entries
  }

  predicate RunsAgent(states: map<PaneId, PaneState>, p: Pane) {
    p.id in states && states[p.id].agent.Some?
  }

  function Picked(cfg: Config, states: map<PaneId, PaneState>, panes: seq<Pane>): seq<Entry> {
    if panes == [] then [] else
    var before, p := Picked(cfg, states, panes[..|panes| - 1]), panes[|panes| - 1];
    if RunsAgent(states, p) then Pick(before, p, CleanTitle(cfg, p.title)) else before
  }

  function CommandsOf(e: Entry): seq<seq<string>> {
    var w := Target(e.pane.windowId);
    match ActionFor(NamedOf(e.pane), e.title)
    case None => []
    case Some(Disable) => [["set-option", "-w", "-t", w, "@sessionizer_autoname", "off"]]
    case Some(Rename(name)) =>
      [["rename-window", "-t", w, "--", name], ["set-option", "-w", "-t", w, "@sessionizer_lastname", name]]
  }

  function AllCommands(entries: seq<Entry>): seq<seq<string>> {
    if entries == [] then [] else AllCommands(entries[..|entries| - 1]) + CommandsOf(entries[|entries| - 1])
  }

  method PickWindows(cfg: Config, states: map<PaneId, PaneState>, panes: seq<Pane>) returns (windows: seq<Entry>)
    ensures windows == Picked(cfg, states, panes)
  {
    hide CleanTitle;
    windows := [];
    for i := 0 to |panes|
      invariant windows == Picked(cfg, states, panes[..i])
    {
      assert panes[..i + 1][..i] == panes[..i] && panes[..i + 1][i] == panes[i];
      var pane := panes[i];
      if pane.id !in states || states[pane.id].agent.None? {
        continue;
      }
      var title := CleanTitle(cfg, pane.title);
      var k := EntryAt(windows, pane.windowId);
      if k < |windows| {
        var w := windows[k];
        if title.Some? && (pane.active || (w.title.None? && !w.pane.active)) {
          windows := windows[k := Entry(pane, title)];
        }
      } else {
        windows := windows + [Entry(pane, title)];
      }
    }
    assert panes[..|panes|] == panes;
  }

  /** Arguments renaming every agent window whose title changed, and turning
      auto-naming off for those the user named. */
  method RenameArgs(cfg: Config, states: map<PaneId, PaneState>, panes: seq<Pane>) returns (args: seq<string>)
    ensures args == Joined(AllCommands(Picked(cfg, states, panes)))
  {
    var windows := PickWindows(cfg, states, panes);
    args := [];
    hide Picked, CommandsOf, Joined;
    NoCommands();
    for i := 0 to |windows|
      invariant args == Joined(AllCommands(windows[..i]))
      invariant args == [] <==> AllCommands(windows[..i]) == []
    {
      ArgsMore(windows, i);
      var cmd := CommandWords(windows[i]);
      if cmd == [] {
        continue;
      }
      if args != [] {
        args := args + [";"];
      }
      args := args + cmd;
    }
    assert windows[..|windows|] == windows;
  }

  /** The words of one window's commands. */
  method CommandWords(e: Entry) returns (cmd: seq<string>)
    ensures cmd == Joined(CommandsOf(e))
  {
    var window := Target(e.pane.windowId);
    var action := ActionFor(NamedOf(e.pane), e.title);
    hide ActionFor, Target;
    match action {
      case None => cmd := [];
      case Some(Disable) => cmd := ["set-option", "-w", "-t", window, "@sessionizer_autoname", "off"];
      case Some(Rename(name)) =>
        cmd := ["rename-window", "-t", window, "--", name, ";",
                "set-option", "-w", "-t", window, "@sessionizer_lastname", name];
        TwoJoined(["rename-window", "-t", window, "--", name],
          ["set-option", "-w", "-t", window, "@sessionizer_lastname", name]);
    }
  }

  lemma {:induction false} TwoJoined(a: seq<string>, b: seq<string>)
    ensures Joined([a, b]) == a + ([";"] + b)
  {
    assert [a, b][1..] == [b];
  }

  lemma {:induction false} NoCommands()
    ensures AllCommands([]) == [] && Joined([]) == []
  {
  }

  lemma {:induction false} CommandsNotEmpty(entries: seq<Entry>)
    ensures forall i :: 0 <= i < |AllCommands(entries)| ==> AllCommands(entries)[i] != []
  {
    hide ActionFor;
    if entries != [] {
      CommandsNotEmpty(entries[..|entries| - 1]);
    }
  }

  lemma {:induction false} JoinedEmptyIff(cs: seq<seq<string>>)
    requires forall i :: 0 <= i < |cs| ==> cs[i] != []
    ensures Joined(cs) == [] <==> cs == []
  {
  }

  lemma {:induction false} JoinedAppend(a: seq<seq<string>>, b: seq<seq<string>>)
    requires b != []
    ensures Joined(a + b) == if a == [] then Joined(b) else Joined(a) + [";"] + Joined(b)
    decreases |a|
  {
    if a == [] {
      assert a + b == b;
    } else {
      assert (a + b)[1..] == a[1..] + b && (a + b)[0] == a[0] && |a + b| > 1;
      assert Joined(a + b) == a[0] + ([";"] + Joined(a[1..] + b));
      assert Joined(a) == if |a| == 1 then a[0] else a[0] + ([";"] + Joined(a[1..]));
      hide *;
      JoinedAppend(a[1..], b);
    }
  }

  lemma {:induction false} ArgsMore(windows: seq<Entry>, i: nat)
    requires i < |windows|
    ensures var before, c, after := AllCommands(windows[..i]), CommandsOf(windows[i]), AllCommands(windows[..i + 1]);
            && after == before + c
            && (Joined(c) == [] <==> c == []) && (Joined(after) == [] <==> after == [])
            && (Joined(before) == [] <==> before == [])
            && Joined(after) == (if c == [] then Joined(before) else if before == [] then Joined(c)
                                 else Joined(before) + [";"] + Joined(c))
  {
    var before, c, after := AllCommands(windows[..i]), CommandsOf(windows[i]), AllCommands(windows[..i + 1]);
    assert windows[..i + 1][..i] == windows[..i] && windows[..i + 1][i] == windows[i];
    CommandsNotEmpty(windows[..i]);
    CommandsNotEmpty(windows[..i + 1]);
    assert forall k :: 0 <= k < |c| ==> c[k] == after[|before| + k];
    hide CommandsOf, AllCommands, Joined;
    JoinedEmptyIff(before);
    JoinedEmptyIff(c);
    JoinedEmptyIff(after);
    if c != [] {
      JoinedAppend(before, c);
    } else {
      assert after == before;
    }
  }

  // ---- What tmux makes of it -----------------------------------------------

  type Table = map<string, Named>

  /** A command on the table; `None` when it fails. */
  function Performed(table: Table, c: seq<string>): Option<Table> {
    if |c| == 5 && c[..2] == ["rename-window", "-t"] && c[3] == "--" && c[2] in table then
      Some(table[c[2] := table[c[2]].(name := c[4], automaticRename := false)])
    else if |c| == 6 && c[..3] == ["set-option", "-w", "-t"] && c[4] == "@sessionizer_lastname" && c[3] in table then
      Some(table[c[3] := table[c[3]].(lastAutoname := c[5])])
    else if |c| == 6 && c[..3] == ["set-option", "-w", "-t"] && c[4] == "@sessionizer_autoname" && c[5] == "off"
            && c[3] in table then
      Some(table[c[3] := table[c[3]].(autonameOff := true)])
    else None
  }

  function PerformedAll(table: Table, commands: seq<seq<string>>): Option<Table> {
    if commands == [] then Some(table) else
    match PerformedAll(table, commands[..|commands| - 1])
    case None => None
    case Some(t) => Performed(t, commands[|commands| - 1])
  }

  lemma {:induction false} PerformedSplit(table: Table, a: seq<seq<string>>, b: seq<seq<string>>)
    requires PerformedAll(table, a).Some?
    ensures PerformedAll(table, a + b) == PerformedAll(PerformedAll(table, a).value, b)
    decreases |b|
  {
    hide Performed;
    if b == [] {
      assert a + b == a;
    } else {
      PerformedSplit(table, a, b[..|b| - 1]);
      assert (a + b)[..|a + b| - 1] == a + b[..|b| - 1];
    }
  }

  /** The window after its action; tmux gets the name as it reads the word. */
  function Applied(w: Named, action: Option<Action>): Named {
    match action
    case None => w
    case Some(Disable) => w.(autonameOff := true)
    case Some(Rename(name)) => w.(name := Text(name), automaticRename := false, lastAutoname := Text(name))
  }

  /** No name given to a window in this call ends in an unescaped `;`. */
  ghost predicate NoNameEnds(entries: seq<Entry>) {
    forall i :: 0 <= i < |entries| ==> NameIs(entries[i], false)
  }

  /** Every name given to a window in this call is taken as it is. */
  ghost predicate NamesVerbatim(entries: seq<Entry>) {
    forall i :: 0 <= i < |entries| ==> NameIs(entries[i], true)
  }

  predicate NameIs(e: Entry, verbatim: bool) {
    var a := ActionFor(NamedOf(e.pane), e.title);
    a.Some? && a.value.Rename? ==> if verbatim then Verbatim(a.value.name) else !Ends(a.value.name)
  }

  lemma {:induction false} TextOfWord(word: string)
    requires Verbatim(word)
    ensures !Ends(word) && Text(word) == word
  {
    VerbatimIff(word);
  }

  /** What tmux reads for the rename commands. */
  lemma {:induction false} RenameTexts(w: string, name: string)
    requires Verbatim(w) && !Ends(name)
    ensures NoneEnds(["rename-window", "-t", w, "--", name])
            && NoneEnds(["set-option", "-w", "-t", w, "@sessionizer_lastname", name])
    ensures Texts(["rename-window", "-t", w, "--", name]) == ["rename-window", "-t", w, "--", Text(name)]
    ensures Texts(["set-option", "-w", "-t", w, "@sessionizer_lastname", name])
            == ["set-option", "-w", "-t", w, "@sessionizer_lastname", Text(name)]
  {
    TextOfWord("rename-window"); TextOfWord("-t"); TextOfWord(w); TextOfWord("--");
    TextOfWord("set-option"); TextOfWord("-w"); TextOfWord("@sessionizer_lastname");
    hide Text, Ends, Verbatim;
  }

  lemma {:induction false} DisableTexts(w: string)
    requires Verbatim(w)
    ensures NoneEnds(["set-option", "-w", "-t", w, "@sessionizer_autoname", "off"])
    ensures Texts(["set-option", "-w", "-t", w, "@sessionizer_autoname", "off"])
            == ["set-option", "-w", "-t", w, "@sessionizer_autoname", "off"]
  {
    TextOfWord("set-option"); TextOfWord("-w"); TextOfWord("-t"); TextOfWord(w);
    TextOfWord("@sessionizer_autoname"); TextOfWord("off");
    hide Text, Ends, Verbatim;
  }

  lemma {:induction false} RenamePerformed(table: Table, w: string, text: string)
    requires w in table
    ensures PerformedAll(table,
            [["rename-window", "-t", w, "--", text], ["set-option", "-w", "-t", w, "@sessionizer_lastname", text]])
            == Some(table[w := table[w].(name := text, automaticRename := false, lastAutoname := text)])
  {
    var a, b := ["rename-window", "-t", w, "--", text], ["set-option", "-w", "-t", w, "@sessionizer_lastname", text];
    assert a[..2] == ["rename-window", "-t"] && b[..3] == ["set-option", "-w", "-t"];
    var t := table[w := table[w].(name := text, automaticRename := false)];
    assert Performed(table, a) == Some(t);
    assert Performed(t, b) == Some(t[w := t[w].(lastAutoname := text)]);
    assert t[w := t[w].(lastAutoname := text)]
           == table[w := table[w].(name := text, automaticRename := false, lastAutoname := text)];
    hide Performed;
    assert [a, b][..1] == [a] && [a][..0] == [];
    assert PerformedAll(table, [a]) == Performed(table, a);
  }

  lemma {:induction false} DisablePerformed(table: Table, w: string)
    requires w in table
    ensures PerformedAll(table, [["set-option", "-w", "-t", w, "@sessionizer_autoname", "off"]])
            == Some(table[w := table[w].(autonameOff := true)])
  {
    var a := ["set-option", "-w", "-t", w, "@sessionizer_autoname", "off"];
    assert a[..3] == ["set-option", "-w", "-t"];
    assert "@sessionizer_autoname"[13] != "@sessionizer_lastname"[13];
    assert Performed(table, a) == Some(table[w := table[w].(autonameOff := true)]);
    hide Performed;
    assert [a][..0] == [];
  }

  /** One window's commands, read and performed, apply its action. */
  lemma {:induction false} EntryPerformed(table: Table, e: Entry)
    requires NameIs(e, false) && Target(e.pane.windowId) in table && table[Target(e.pane.windowId)] == NamedOf(e.pane)
    ensures Separable(CommandsOf(e))
    ensures var w := Target(e.pane.windowId);
            PerformedAll(table, AllTexts(CommandsOf(e)))
            == Some(table[w := Applied(table[w], ActionFor(NamedOf(e.pane), e.title))])
  {
    var w, action := Target(e.pane.windowId), ActionFor(NamedOf(e.pane), e.title);
    TargetIsVerbatim(e.pane.windowId);
    hide ActionFor, Target, Performed, NoneEnds, Texts, NamedOf;
    match action {
      case None =>
        assert table[w := table[w]] == table;
        assert AllTexts([]) == [];
      case Some(Disable) =>
        DisableTexts(w);
        DisablePerformed(table, w);
        assert AllTexts(CommandsOf(e)) == [Texts(CommandsOf(e)[0])];
      case Some(Rename(name)) =>
        RenameTexts(w, name);
        RenamePerformed(table, w, Text(name));
        assert AllTexts(CommandsOf(e)) == [Texts(CommandsOf(e)[0]), Texts(CommandsOf(e)[1])];
    }
  }

  // ---- Settling ------------------------------------------------------------

  /** One entry per window. */
  ghost predicate OneEach(entries: seq<Entry>) {
    forall i, j :: 0 <= i < j < |entries| ==> entries[i].pane.windowId != entries[j].pane.windowId
  }

  /** Each window is named by one of its agent panes, at most one action each. */
  lemma {:induction false} PickedOnce(cfg: Config, states: map<PaneId, PaneState>, panes: seq<Pane>)
    ensures OneEach(Picked(cfg, states, panes))
    ensures forall i :: 0 <= i < |Picked(cfg, states, panes)| ==>
              Picked(cfg, states, panes)[i].pane in panes && RunsAgent(states, Picked(cfg, states, panes)[i].pane)
              && Picked(cfg, states, panes)[i].title == CleanTitle(cfg, Picked(cfg, states, panes)[i].pane.title)
  {
    hide CleanTitle;
    if panes != [] {
      PickedOnce(cfg, states, panes[..|panes| - 1]);
      assert panes == panes[..|panes| - 1] + [panes[|panes| - 1]];
    }
  }

  /** The panes are listed from this table. */
  ghost predicate ListedFrom(panes: seq<Pane>, table: Table) {
    forall i :: 0 <= i < |panes| ==>
      Target(panes[i].windowId) in table && NamedOf(panes[i]) == table[Target(panes[i].windowId)]
  }

  function Renamed(p: Pane, w: Named): Pane {
    p.(windowName := w.name, automaticRename := w.automaticRename,
      autonameOff := w.autonameOff, lastAutoname := w.lastAutoname)
  }

  /** The panes listed again from another table, nothing else having changed. */
  function ListedAgain(panes: seq<Pane>, table: Table): (again: seq<Pane>)
    requires forall i :: 0 <= i < |panes| ==> Target(panes[i].windowId) in table
    ensures |again| == |panes|
    ensures forall i :: 0 <= i < |panes| ==> again[i] == Renamed(panes[i], table[Target(panes[i].windowId)])
  {
    if panes == [] then [] else
    ListedAgain(panes[..|panes| - 1], table) + [Renamed(panes[|panes| - 1], table[Target(panes[|panes| - 1].windowId)])]
  }

  lemma {:induction false} EntryAtAgain(a: seq<Entry>, b: seq<Entry>, window: WindowId)
    requires |a| == |b| && forall i :: 0 <= i < |a| ==> b[i].pane.windowId == a[i].pane.windowId
    ensures EntryAt(b, window) == EntryAt(a, window)
  {
    var i, j := EntryAt(a, window), EntryAt(b, window);
    assert i < |a| ==> b[i].pane.windowId == window;
    assert j < |b| ==> a[j].pane.windowId == window;
  }

  /** The same panes name the same windows, with the same titles. */
  ghost predicate SameChoice(a: seq<Entry>, b: seq<Entry>, table: Table) {
    |a| == |b| && forall i :: 0 <= i < |a| ==>
      Target(a[i].pane.windowId) in table && b[i].title == a[i].title
      && b[i].pane == Renamed(a[i].pane, table[Target(a[i].pane.windowId)])
  }

  lemma {:induction false} PickedAgain(cfg: Config, states: map<PaneId, PaneState>, panes: seq<Pane>, table: Table)
    requires forall i :: 0 <= i < |panes| ==> Target(panes[i].windowId) in table
    ensures SameChoice(Picked(cfg, states, panes), Picked(cfg, states, ListedAgain(panes, table)), table)
    decreases |panes|
  {
    hide CleanTitle, Target;
    if panes != [] {
      var front, p := panes[..|panes| - 1], panes[|panes| - 1];
      PickedAgain(cfg, states, front, table);
      var again := ListedAgain(panes, table);
      assert again[..|again| - 1] == ListedAgain(front, table);
      EntryAtAgain(Picked(cfg, states, front), Picked(cfg, states, ListedAgain(front, table)), p.windowId);
    }
  }

  /** Performing the commands of the picked windows applies each one's action and
      changes nothing else. */
  ghost predicate AllApplied(table: Table, after: Table, entries: seq<Entry>) {
    && after.Keys == table.Keys
    && (forall i :: 0 <= i < |entries| && Target(entries[i].pane.windowId) in table ==>
          after[Target(entries[i].pane.windowId)]
          == Applied(table[Target(entries[i].pane.windowId)], ActionFor(NamedOf(entries[i].pane), entries[i].title)))
    && (forall t :: t in table && (forall i :: 0 <= i < |entries| ==> Target(entries[i].pane.windowId) != t) ==>
      after[t] == table[t])
  }

  ghost predicate EntriesListed(entries: seq<Entry>, table: Table) {
    forall i :: 0 <= i < |entries| ==>
      Target(entries[i].pane.windowId) in table && NamedOf(entries[i].pane) == table[Target(entries[i].pane.windowId)]
  }

  lemma {:induction false} AllTextsAppend(a: seq<seq<string>>, b: seq<seq<string>>)
    ensures AllTexts(a + b) == AllTexts(a) + AllTexts(b)
  {
  }

  lemma {:induction false} OtherTargets(front: seq<Entry>, e: Entry)
    requires OneEach(front + [e])
    ensures forall i :: 0 <= i < |front| ==> Target(front[i].pane.windowId) != Target(e.pane.windowId)
  {
    forall i | 0 <= i < |front|
      ensures Target(front[i].pane.windowId) != Target(e.pane.windowId)
    {
      assert (front + [e])[i] == front[i] && (front + [e])[|front|] == e;
      if Target(front[i].pane.windowId) == Target(e.pane.windowId) {
        TargetInjective(front[i].pane.windowId, e.pane.windowId);
      }
    }
  }

  lemma {:induction false} AppliedMore(table: Table, t: Table, front: seq<Entry>, e: Entry)
    requires AllApplied(table, t, front) && OneEach(front + [e]) && EntriesListed(front + [e], table)
    ensures var w := Target(e.pane.windowId);
            w in t && t[w] == NamedOf(e.pane)
            && AllApplied(table, t[w := Applied(t[w], ActionFor(NamedOf(e.pane), e.title))], front + [e])
  {
    var all := front + [e];
    OtherTargets(front, e);
    assert all[|front|] == e && forall i :: 0 <= i < |front| ==> all[i] == front[i];
    hide Applied, ActionFor, NamedOf, Target, OneEach;
  }

  lemma {:induction false} CommandsApply(table: Table, entries: seq<Entry>)
    requires OneEach(entries) && EntriesListed(entries, table) && NoNameEnds(entries)
    ensures Separable(AllCommands(entries))
    ensures PerformedAll(table, AllTexts(AllCommands(entries))).Some?
    ensures AllApplied(table, PerformedAll(table, AllTexts(AllCommands(entries))).value, entries)
    decreases |entries|
  {
    if entries == [] {
      assert AllTexts([]) == [];
    } else {
      var front, e := entries[..|entries| - 1], entries[|entries| - 1];
      assert entries == front + [e] && forall i :: 0 <= i < |front| ==> front[i] == entries[i];
      assert AllCommands(entries) == AllCommands(front) + CommandsOf(e);
      assert NameIs(e, false);
      hide CommandsOf, AllCommands, PerformedAll, AllApplied, Target, Applied, NameIs, NamedOf, ActionFor;
      CommandsApply(table, front);
      var t := PerformedAll(table, AllTexts(AllCommands(front))).value;
      AppliedMore(table, t, front, e);
      EntryPerformed(t, e);
      AllTextsAppend(AllCommands(front), CommandsOf(e));
      PerformedSplit(table, AllTexts(AllCommands(front)), AllTexts(CommandsOf(e)));
      SeparableAppend(AllCommands(front), CommandsOf(e));
    }
  }

  lemma {:induction false} SeparableAppend(a: seq<seq<string>>, b: seq<seq<string>>)
    requires Separable(a) && Separable(b)
    ensures Separable(a + b)
  {
    hide NoneEnds;
  }

  /** The table after tmux was called with these arguments. */
  function AfterCall(table: Table, args: seq<string>): Table {
    match PerformedAll(table, Parsed(args))
    case None => table
    case Some(t) => t
  }

  function ArgsFor(cfg: Config, states: map<PaneId, PaneState>, panes: seq<Pane>): seq<string> {
    Joined(AllCommands(Picked(cfg, states, panes)))
  }

  /** Once its action was applied a window has none left exactly when the name was
      taken as it is. */
  lemma {:induction false} AppliedSettles(w: Named, title: Option<string>)
    requires title.Some? ==> title.value != ""
    requires var a := ActionFor(w, title); a.Some? && a.value.Rename? ==> !Ends(a.value.name)
    ensures var a := ActionFor(w, title);
            ActionFor(Applied(w, a), title).None? <==> (a.Some? && a.value.Rename? ==> Verbatim(a.value.name))
  {
    if title.Some? {
      VerbatimIff(title.value);
    }
    hide Text, Ends, Verbatim;
  }

  lemma {:induction false} NoCommandsIff(entries: seq<Entry>)
    ensures AllCommands(entries) == [] <==>
            forall i :: 0 <= i < |entries| ==> ActionFor(NamedOf(entries[i].pane), entries[i].title).None?
  {
    hide ActionFor;
    if entries != [] {
      NoCommandsIff(entries[..|entries| - 1]);
    }
  }

  /** Where one window's commands are among all. */
  lemma {:induction false} CommandsAt(entries: seq<Entry>, i: nat) returns (k: nat)
    requires i < |entries| && |CommandsOf(entries[i])| == 2
    ensures k + 1 < |AllCommands(entries)| && AllCommands(entries)[k] == CommandsOf(entries[i])[0]
    decreases |entries|
  {
    hide CommandsOf;
    var front := entries[..|entries| - 1];
    if i < |front| {
      k := CommandsAt(front, i);
    } else {
      k := |AllCommands(front)|;
    }
  }

  /** A name ending in an unescaped `;` makes tmux refuse the whole call. */
  lemma {:induction false} EndingNameIsRefused(entries: seq<Entry>, i: nat)
    requires i < |entries| && !NameIs(entries[i], false)
    ensures Parsed(Joined(AllCommands(entries))) == [] && AllCommands(entries) != []
  {
    hide ActionFor, AllCommands, Parsed, Joined, Target;
    var k := CommandsAt(entries, i);
    EndedTwiceIsRefused(AllCommands(entries), k);
  }

  lemma {:induction false} ListedSame(panes: seq<Pane>, table: Table)
    requires ListedFrom(panes, table)
    ensures ListedAgain(panes, table) == panes
  {
    hide Target;
  }

  lemma {:induction false} EntriesFromPanes(cfg: Config, states: map<PaneId, PaneState>, panes: seq<Pane>, table: Table)
    requires ListedFrom(panes, table)
    ensures EntriesListed(Picked(cfg, states, panes), table)
    ensures forall i :: 0 <= i < |Picked(cfg, states, panes)| ==>
              Picked(cfg, states, panes)[i].title.Some? ==> Picked(cfg, states, panes)[i].title.value != ""
  {
    PickedOnce(cfg, states, panes);
    var entries := Picked(cfg, states, panes);
    hide Picked, Target, CleanTitle;
    forall i | 0 <= i < |entries|
      ensures Target(entries[i].pane.windowId) in table
              && NamedOf(entries[i].pane) == table[Target(entries[i].pane.windowId)]
      ensures entries[i].title.Some? ==> entries[i].title.value != ""
    {
      assert entries[i].pane in panes;
      var k :| 0 <= k < |panes| && panes[k] == entries[i].pane;
      if entries[i].title.Some? {
        NamesAreShort(cfg, entries[i].pane.title);
      }
    }
  }

  /** A call whose names tmux can read applies every action. */
  lemma {:induction false} CallApplies(cfg: Config, states: map<PaneId, PaneState>, panes: seq<Pane>, table: Table)
    requires ListedFrom(panes, table) && NoNameEnds(Picked(cfg, states, panes))
    ensures AllApplied(table, AfterCall(table, ArgsFor(cfg, states, panes)), Picked(cfg, states, panes))
  {
    var entries := Picked(cfg, states, panes);
    PickedOnce(cfg, states, panes);
    EntriesFromPanes(cfg, states, panes, table);
    hide Picked, AllCommands, PerformedAll, AllApplied, NoNameEnds, OneEach, EntriesListed, Parsed, Joined,
         ListedFrom;
    CommandsApply(table, entries);
    JoinedIsRead(AllCommands(entries));
  }

  lemma {:induction false} SettledEntries(a: seq<Entry>, b: seq<Entry>, table: Table, after: Table)
    requires EntriesListed(a, table) && AllApplied(table, after, a) && SameChoice(a, b, after) && NoNameEnds(a)
    requires forall i :: 0 <= i < |a| ==> a[i].title.Some? ==> a[i].title.value != ""
    ensures AllCommands(b) == [] <==> NamesVerbatim(a)
  {
    NoCommandsIff(b);
    hide ActionFor, Applied, AllCommands, Target;
    forall i | 0 <= i < |a|
      ensures ActionFor(NamedOf(b[i].pane), b[i].title).None? <==> NameIs(a[i], true)
    {
      assert NameIs(a[i], false);
      assert NamedOf(b[i].pane) == Applied(NamedOf(a[i].pane), ActionFor(NamedOf(a[i].pane), a[i].title));
      AppliedSettles(NamedOf(a[i].pane), a[i].title);
    }
  }

  lemma {:induction false} SomeNameEnds(entries: seq<Entry>) returns (i: nat)
    requires !NoNameEnds(entries)
    ensures i < |entries| && !NameIs(entries[i], false)
  {
    i :| 0 <= i < |entries| && !NameIs(entries[i], false);
  }

  /** Auto-naming settles: with the titles unchanged, the call after this one has
      nothing to do exactly when tmux takes every name given now as it is, that is,
      when none of them ends in `;`. */
  lemma {:induction false} SettlesIff(cfg: Config, states: map<PaneId, PaneState>, panes: seq<Pane>, table: Table)
    requires ListedFrom(panes, table)
    ensures var after := AfterCall(table, ArgsFor(cfg, states, panes));
            && after.Keys == table.Keys
            && (forall i :: 0 <= i < |panes| ==> Target(panes[i].windowId) in after)
            && (ArgsFor(cfg, states, ListedAgain(panes, after)) == [] <==> NamesVerbatim(Picked(cfg, states, panes)))
  {
    var entries, after := Picked(cfg, states, panes), AfterCall(table, ArgsFor(cfg, states, panes));
    EntriesFromPanes(cfg, states, panes, table);
    VerbatimNamesDontEnd(entries);
    if NoNameEnds(entries) {
      CallApplies(cfg, states, panes, table);
      assert after.Keys == table.Keys;
      assert forall i :: 0 <= i < |panes| ==> Target(panes[i].windowId) in after;
      hide *;
      PickedAgain(cfg, states, panes, after);
      var again := Picked(cfg, states, ListedAgain(panes, after));
      SettledEntries(entries, again, table, after);
      NothingToSendIff(cfg, states, ListedAgain(panes, after));
    } else {
      var i := SomeNameEnds(entries);
      EndingNameIsRefused(entries, i);
      assert PerformedAll(table, []) == Some(table);
      assert after == table;
      assert forall i :: 0 <= i < |panes| ==> Target(panes[i].windowId) in after;
      hide *;
      ListedSame(panes, table);
      NothingToSendIff(cfg, states, panes);
    }
  }

  lemma {:induction false} NothingToSendIff(cfg: Config, states: map<PaneId, PaneState>, panes: seq<Pane>)
    ensures ArgsFor(cfg, states, panes) == [] <==> AllCommands(Picked(cfg, states, panes)) == []
  {
    CommandsNotEmpty(Picked(cfg, states, panes));
    JoinedEmptyIff(AllCommands(Picked(cfg, states, panes)));
    hide Joined, AllCommands, Picked;
  }

  lemma {:induction false} VerbatimNamesDontEnd(entries: seq<Entry>)
    ensures NamesVerbatim(entries) ==> NoNameEnds(entries)
  {
    if NamesVerbatim(entries) {
      forall i | 0 <= i < |entries|
        ensures NameIs(entries[i], false)
      {
        assert NameIs(entries[i], true);
        var a := ActionFor(NamedOf(entries[i].pane), entries[i].title);
        if a.Some? && a.value.Rename? {
          VerbatimIff(a.value.name);
        }
        hide Verbatim, Ends, ActionFor;
      }
    }
  }

  // ---- Names given by the user ---------------------------------------------

  /** What happens to the windows: a naming call, the user renaming one, one
      appearing under an id never used before, or one going away. */
  datatype Step =
    | Call(states: map<PaneId, PaneState>, panes: seq<Pane>)
    | User(window: string, name: string, automaticRename: bool)
    | Appear(window: string, named: Named)
    | Vanish(window: string)

  datatype World = World(table: Table, used: set<string>)

  function Next(cfg: Config, w: World, step: Step): World {
    match step
    case Call(states, panes) => w.(table := AfterCall(w.table, ArgsFor(cfg, states, panes)))
    case User(window, name, automaticRename) =>
      if window !in w.table then w
      else w.(table := w.table[window := w.table[window].(name := name, automaticRename := automaticRename)])
    case Appear(window, named) => World(w.table[window := named], w.used + {window})
    case Vanish(window) => w.(table := w.table - {window})
  }

  ghost predicate Allowed(w: World, step: Step) {
    match step
    case Call(states, panes) => ListedFrom(panes, w.table)
    case User(window, name, automaticRename) => true
    case Appear(window, named) => window !in w.used
    case Vanish(window) => true
  }

  function Run(cfg: Config, w: World, steps: seq<Step>): World {
    if steps == [] then w else Next(cfg, Run(cfg, w, steps[..|steps| - 1]), steps[|steps| - 1])
  }

  ghost predicate AllowedRun(cfg: Config, w: World, steps: seq<Step>) {
    steps == [] ||
    (AllowedRun(cfg, w, steps[..|steps| - 1]) && Allowed(Run(cfg, w, steps[..|steps| - 1]), steps[|steps| - 1]))
  }

  /** Auto-naming is off for the window, or the window is gone. */
  ghost predicate OffForGood(w: World, id: WindowId) {
    Target(id) in w.used && (Target(id) in w.table ==> w.table[Target(id)].autonameOff)
  }

  lemma {:induction false} CommandsKeepOff(table: Table, commands: seq<seq<string>>, window: string)
    requires window in table && table[window].autonameOff && PerformedAll(table, commands).Some?
    ensures window in PerformedAll(table, commands).value && PerformedAll(table, commands).value[window].autonameOff
    decreases |commands|
  {
    if commands != [] {
      CommandsKeepOff(table, commands[..|commands| - 1], window);
    }
  }

  lemma {:induction false} CommandsKeepWindows(table: Table, commands: seq<seq<string>>)
    requires PerformedAll(table, commands).Some?
    ensures PerformedAll(table, commands).value.Keys == table.Keys
    decreases |commands|
  {
    if commands != [] {
      CommandsKeepWindows(table, commands[..|commands| - 1]);
    }
  }

  lemma {:induction false} StaysOff(cfg: Config, w: World, step: Step, id: WindowId)
    requires OffForGood(w, id) && Allowed(w, step)
    ensures OffForGood(Next(cfg, w, step), id)
  {
    hide Target, ArgsFor, PerformedAll, Parsed;
    if step.Call? {
      var commands := Parsed(ArgsFor(cfg, step.states, step.panes));
      if PerformedAll(w.table, commands).Some? {
        CommandsKeepWindows(w.table, commands);
        if Target(id) in w.table {
          CommandsKeepOff(w.table, commands, Target(id));
        }
      }
    }
  }

  lemma {:induction false} RunStaysOff(cfg: Config, w: World, steps: seq<Step>, id: WindowId)
    requires OffForGood(w, id) && AllowedRun(cfg, w, steps)
    ensures OffForGood(Run(cfg, w, steps), id)
  {
    hide Next, OffForGood, Allowed;
    if steps != [] {
      RunStaysOff(cfg, w, steps[..|steps| - 1], id);
      StaysOff(cfg, Run(cfg, w, steps[..|steps| - 1]), steps[|steps| - 1], id);
    }
  }

  /** A window seen with a name of the user's own is left alone for good: once a
      call that tmux could read has seen it, no later call in any run has a command
      for it, whatever it is renamed to. */
  lemma {:induction false} UserNamesStay(cfg: Config, w: World, states: map<PaneId, PaneState>, panes: seq<Pane>,
        i: nat,
                                         steps: seq<Step>, laterStates: map<PaneId, PaneState>,
                                         later: seq<Pane>, k: nat)
    requires ListedFrom(panes, w.table) && w.table.Keys <= w.used && NoNameEnds(Picked(cfg, states, panes))
    requires i < |Picked(cfg, states, panes)| && NamedByUser(NamedOf(Picked(cfg, states, panes)[i].pane))
    requires var w1 := Next(cfg, w, Call(states, panes));
             AllowedRun(cfg, w1, steps) && ListedFrom(later, Run(cfg, w1, steps).table)
    requires k < |Picked(cfg, laterStates, later)|
    requires Picked(cfg, laterStates, later)[k].pane.windowId == Picked(cfg, states, panes)[i].pane.windowId
    ensures CommandsOf(Picked(cfg, laterStates, later)[k]) == []
  {
    var entries, id := Picked(cfg, states, panes), Picked(cfg, states, panes)[i].pane.windowId;
    var w1 := Next(cfg, w, Call(states, panes));
    EntriesFromPanes(cfg, states, panes, w.table);
    CallApplies(cfg, states, panes, w.table);
    assert w1.table[Target(id)].autonameOff;
    assert OffForGood(w1, id);
    RunStaysOff(cfg, w1, steps, id);
    EntriesFromPanes(cfg, laterStates, later, Run(cfg, w1, steps).table);
    hide Picked, Run, AllowedRun, Next, ListedFrom, CleanTitle, AllApplied, NoNameEnds;
  }
}
