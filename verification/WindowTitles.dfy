/** Which title names a window and what the window is called after it
    (src/naming.rs): what cleaning keeps, whose title wins, and what a call does. */
module WindowTitles {
  import opened Wrappers
  import opened Inventory
  import opened TmuxArgs
  import opened Characters
  import opened WindowNaming

  // ---- What cleaning keeps -------------------------------------------------

  /** `kept` is the characters of `s` that are no control characters, in order. */
  ghost predicate Printable(s: string, kept: string) {
    exists at: seq<nat> :: PrintableAt(s, kept, at)
  }

  ghost predicate PrintableAt(s: string, kept: string, at: seq<nat>) {
    && |at| == |kept|
    && (forall k :: 0 <= k < |at| ==> at[k] < |s| && kept[k] == s[at[k]])
    && (forall j, k :: 0 <= j < k < |at| ==> at[j] < at[k])
    && (forall i: nat :: i < |s| ==> (i in at <==> !Control(s[i])))
  }

  /** Blanks, then semicolons, then blanks. */
  ghost predicate Tail(t: string) {
    exists i: nat, j: nat :: TailAt(t, i, j)
  }

  ghost predicate TailAt(t: string, i: nat, j: nat) {
    && i <= j <= |t| && (forall k :: 0 <= k < i ==> Space(t[k])) && (forall k :: i <= k < j ==> t[k] == ';')
    && (forall k :: j <= k < |t| ==> Space(t[k]))
  }

  /** Only leading glyphs and a tail go from the printable characters. */
  ghost predicate Trimmed(s: string, text: string) {
    exists lead: string, tail: string :: TrimmedBy(s, text, lead, tail)
  }

  ghost predicate TrimmedBy(s: string, text: string, lead: string, tail: string) {
    s == lead + text + tail && (forall k :: 0 <= k < |lead| ==> Glyph(lead[k])) && Tail(tail)
  }

  lemma {:induction false} DropControlsMore(s: string, c: char)
    ensures DropControls(s + [c]) == DropControls(s) + if Control(c) then [] else [c]
  {
    hide Control;
    if s == [] {
      assert DropControls([]) == [] && [] + [c] == [c] && [c][1..] == [];
    } else {
      assert (s + [c])[1..] == s[1..] + [c] && (s + [c])[0] == s[0];
      DropControlsMore(s[1..], c);
    }
  }

  lemma {:induction false} DropControlsAt(s: string) returns (at: seq<nat>)
    ensures PrintableAt(s, DropControls(s), at)
  {
    hide Control;
    at := [];
    if s != [] {
      var n := |s| - 1;
      assert s == s[..n] + [s[n]];
      at := DropControlsAt(s[..n]);
      DropControlsMore(s[..n], s[n]);
      hide DropControls;
      assert n !in at;
      assert forall i :: 0 <= i < n ==> s[..n][i] == s[i];
      if !Control(s[n]) {
        at := at + [n];
      }
    }
  }

  lemma {:induction false} TrimGlyphsLead(s: string)
    ensures |TrimGlyphs(s)| <= |s| && TrimGlyphs(s) == s[|s| - |TrimGlyphs(s)|..]
    ensures forall k :: 0 <= k < |s| - |TrimGlyphs(s)| ==> Glyph(s[k])
  {
    if s != [] && Glyph(s[0]) {
      TrimGlyphsLead(s[1..]);
      assert forall k :: 0 < k < |s| ==> s[k] == s[1..][k - 1];
    }
  }

  lemma {:induction false} TrimSemicolonsTail(s: string)
    ensures TrimSemicolons(s) <= s && forall k :: |TrimSemicolons(s)| <= k < |s| ==> s[k] == ';'
  {
    if s != [] && s[|s| - 1] == ';' {
      TrimSemicolonsTail(s[..|s| - 1]);
    }
  }

  /** A cleaned title is the printable characters without leading glyphs and a
      trailing run of semicolons with blanks around it. */
  lemma {:induction false} CleanedKeeps(raw: string)
    ensures exists printable: string :: Printable(raw, printable) && Trimmed(printable, Cleaned(raw))
  {
    hide DropControls, TrimGlyphs, TrimSpace, TrimSemicolons, PrintableAt, Trimmed, Space, Glyph;
    var a := DropControls(raw);
    var at := DropControlsAt(raw);
    assert Printable(raw, a);
    var b := TrimGlyphs(a);
    var c := TrimSpace(b);
    var d := TrimSemicolons(c);
    var e := TrimSpace(d);
    TrimGlyphsLead(a);
    TrimSpaceIs(b);
    TrimSemicolonsTail(c);
    TrimSpaceIs(d);
    assert Cleaned(raw) == e;
    hide *;
    SplitTail(a, b, c, d, e);
  }

  lemma {:induction false} SplitTail(a: string, b: string, c: string, d: string, e: string)
    requires |b| <= |a| && b == a[|a| - |b|..] && e <= d <= c <= b
    requires forall k :: 0 <= k < |a| - |b| ==> Glyph(a[k])
    requires forall k :: |c| <= k < |b| ==> Space(b[k])
    requires forall k :: |d| <= k < |c| ==> c[k] == ';'
    requires forall k :: |e| <= k < |d| ==> Space(d[k])
    ensures Trimmed(a, e)
  {
    hide Glyph, Space;
    var lead := a[..|a| - |b|];
    var x, y, z := d[|e|..], c[|d|..], b[|c|..];
    assert a == lead + b && b == c + z && c == d + y && d == e + x;
    assert forall k :: 0 <= k < |x| ==> x[k] == d[|e| + k];
    assert forall k :: 0 <= k < |y| ==> y[k] == c[|d| + k];
    assert forall k :: 0 <= k < |z| ==> z[k] == b[|c| + k];
    TailOf(x, y, z);
    Regroup(lead, e, x, y, z);
    assert forall k :: 0 <= k < |lead| ==> lead[k] == a[k];
    hide Tail;
    assert TrimmedBy(a, e, lead, x + y + z);
  }

  lemma {:induction false} TailOf(x: string, y: string, z: string)
    requires (forall k :: 0 <= k < |x| ==> Space(x[k])) && (forall k :: 0 <= k < |y| ==> y[k] == ';')
    requires forall k :: 0 <= k < |z| ==> Space(z[k])
    ensures Tail(x + y + z)
  {
    hide Space;
    assert TailAt(x + y + z, |x|, |x| + |y|);
  }

  lemma {:induction false} Regroup(lead: string, e: string, x: string, y: string, z: string)
    ensures lead + (((e + x) + y) + z) == lead + e + (x + y + z)
  {
  }

  /** Titles, in lower case, that say nothing about the session. */
  function SaysNothing(cfg: Config): set<string> {
    {"claude", "claude code", "opencode", "codex", "pi", cfg.lower(cfg.host)}
  }

  /** The name is the first characters of the text, `n` but for blanks at their end,
      and an ellipsis. */
  ghost predicate CutAt(text: string, n: nat, cut: nat, name: string) {
    && cut <= n <= |text| && name == text[..cut] + ['\U{2026}']
    && (cut > 0 ==> !Space(text[cut - 1])) && forall k :: cut <= k < n ==> Space(text[k])
  }

  ghost predicate CutTo(text: string, n: nat, name: string) {
    exists cut: nat :: CutAt(text, n, cut, name)
  }

  /** A title names a window unless its cleaned text is empty, one of the five that
      say nothing, or the host's name; a longer one is cut and ends in an ellipsis. */
  lemma {:induction false} TitleIff(cfg: Config, raw: string)
    ensures CleanTitle(cfg, raw).None? <==> Cleaned(raw) == "" || cfg.lower(Cleaned(raw)) in SaysNothing(cfg)
    ensures CleanTitle(cfg, raw).Some? && |Cleaned(raw)| <= cfg.maxLen ==> CleanTitle(cfg, raw).value == Cleaned(raw)
    ensures CleanTitle(cfg, raw).Some? && |Cleaned(raw)| > cfg.maxLen ==>
              CutTo(Cleaned(raw), if cfg.maxLen == 0 then 0 else cfg.maxLen - 1, CleanTitle(cfg, raw).value)
  {
    var text := Cleaned(raw);
    hide Cleaned, Space, CutTo;
    assert cfg.lower(text) in GENERIC || cfg.lower(text) == cfg.lower(cfg.host)
           <==> cfg.lower(text) in SaysNothing(cfg);
    if |text| > cfg.maxLen {
      CutIs(text, if cfg.maxLen == 0 then 0 else cfg.maxLen - 1);
    }
    hide TrimSpace, SaysNothing;
  }

  lemma {:induction false} CutIs(text: string, n: nat)
    requires n <= |text|
    ensures CutTo(text, n, TrimSpace(text[..n]) + ['\U{2026}'])
  {
    TrimSpaceIs(text[..n]);
    var cut := |TrimSpace(text[..n])|;
    hide TrimSpace, Space;
    assert TrimSpace(text[..n]) == text[..cut];
    assert forall k :: cut <= k < n ==> text[..n][k] == text[k];
    assert CutAt(text, n, cut, text[..cut] + ['\U{2026}']);
  }

  // ---- Whose title wins ----------------------------------------------------

  /** The panes of the window that run an agent, in order. */
  function AgentPanes(states: map<PaneId, PaneState>, panes: seq<Pane>, window: WindowId): seq<Pane> {
    if panes == [] then [] else
    var p := panes[|panes| - 1];
    AgentPanes(states, panes[..|panes| - 1], window)
    + if p.windowId == window && p.id in states && states[p.id].agent.Some? then [p] else []
  }

  /** The pane's title is usable. */
  ghost predicate Titled(cfg: Config, p: Pane) {
    CleanTitle(cfg, p.title).Some?
  }

  ghost predicate Wins(cfg: Config, mine: seq<Pane>, i: nat) {
    i < |mine| && mine[i].active && Titled(cfg, mine[i])
    && forall j :: i < j < |mine| ==> !(mine[j].active && Titled(cfg, mine[j]))
  }

  ghost predicate FirstTitled(cfg: Config, mine: seq<Pane>, i: nat) {
    i < |mine| && Titled(cfg, mine[i]) && forall j :: 0 <= j < i ==> !Titled(cfg, mine[j])
  }

  ghost predicate AnyWins(cfg: Config, mine: seq<Pane>) {
    exists i :: 0 <= i < |mine| && mine[i].active && Titled(cfg, mine[i])
  }

  ghost predicate AnyTitled(cfg: Config, mine: seq<Pane>) {
    exists i :: 0 <= i < |mine| && Titled(cfg, mine[i])
  }

  /** The entry is that of the active pane with a usable title; without one it is
      the first pane's when that is active or no title is usable, and otherwise the
      first usable one. */
  ghost predicate Chosen(cfg: Config, mine: seq<Pane>, e: Entry) {
    && mine != [] && e.title == CleanTitle(cfg, e.pane.title)
    && (AnyWins(cfg, mine) ==> exists i: nat :: Wins(cfg, mine, i) && e.pane == mine[i])
    && (!AnyWins(cfg, mine) && (mine[0].active || !AnyTitled(cfg, mine)) ==> e.pane == mine[0] && e.title == None)
    && (!AnyWins(cfg, mine) && !mine[0].active && AnyTitled(cfg, mine) ==>
          exists i: nat :: FirstTitled(cfg, mine, i) && e.pane == mine[i])
  }

  /** What one more agent pane makes of the entry. */
  function Replaced(cfg: Config, e: Entry, p: Pane): Entry {
    var title := CleanTitle(cfg, p.title);
    if title.Some? && (p.active || (e.title.None? && !e.pane.active)) then Entry(p, title) else e
  }

  lemma {:induction false} AnyMore(cfg: Config, mine: seq<Pane>, p: Pane)
    ensures AnyWins(cfg, mine + [p]) <==> AnyWins(cfg, mine) || (p.active && Titled(cfg, p))
    ensures AnyTitled(cfg, mine + [p]) <==> AnyTitled(cfg, mine) || Titled(cfg, p)
  {
    hide Titled;
    var more := mine + [p];
    assert more[|mine|] == p && forall i :: 0 <= i < |mine| ==> more[i] == mine[i];
  }

  lemma {:induction false} WinsMore(cfg: Config, mine: seq<Pane>, p: Pane, i: nat)
    ensures Wins(cfg, mine, i) && !(p.active && Titled(cfg, p)) ==> Wins(cfg, mine + [p], i)
    ensures p.active && Titled(cfg, p) ==> Wins(cfg, mine + [p], |mine|)
    ensures FirstTitled(cfg, mine, i) ==> FirstTitled(cfg, mine + [p], i)
    ensures !AnyTitled(cfg, mine) && Titled(cfg, p) ==> FirstTitled(cfg, mine + [p], |mine|)
  {
    hide Titled;
  }

  lemma {:induction false} ChosenMore(cfg: Config, mine: seq<Pane>, e: Entry, p: Pane)
    requires Chosen(cfg, mine, e)
    ensures Chosen(cfg, mine + [p], Replaced(cfg, e, p))
  {
    var more, r := mine + [p], Replaced(cfg, e, p);
    AnyMore(cfg, mine, p);
    assert more[0] == mine[0] && more[|mine|] == p && forall i :: 0 <= i < |mine| ==> more[i] == mine[i];
    TitledAnyway(cfg, mine);
    hide CleanTitle, AnyWins, AnyTitled, Wins, FirstTitled;
    WinsMore(cfg, mine, p, 0);
    if AnyWins(cfg, mine) {
      var i: nat :| Wins(cfg, mine, i) && e.pane == mine[i];
      WinsMore(cfg, mine, p, i);
      WinsIs(cfg, mine, i);
    } else if !mine[0].active && AnyTitled(cfg, mine) {
      var i: nat :| FirstTitled(cfg, mine, i) && e.pane == mine[i];
      WinsMore(cfg, mine, p, i);
      FirstTitledIs(cfg, mine, i);
    }
  }

  lemma {:induction false} TitledAnyway(cfg: Config, mine: seq<Pane>)
    ensures AnyWins(cfg, mine) ==> AnyTitled(cfg, mine)
  {
    hide Titled;
  }

  lemma {:induction false} WinsIs(cfg: Config, mine: seq<Pane>, i: nat)
    requires Wins(cfg, mine, i)
    ensures i < |mine| && mine[i].active && Titled(cfg, mine[i])
  {
    hide Titled;
  }

  lemma {:induction false} FirstTitledIs(cfg: Config, mine: seq<Pane>, i: nat)
    requires FirstTitled(cfg, mine, i)
    ensures i < |mine| && Titled(cfg, mine[i])
  {
    hide Titled;
  }

  lemma {:induction false} ChosenFirst(cfg: Config, p: Pane)
    ensures Chosen(cfg, [p], Entry(p, CleanTitle(cfg, p.title)))
  {
    hide CleanTitle;
    assert p.active && Titled(cfg, p) ==> Wins(cfg, [p], 0) && AnyWins(cfg, [p]);
    assert Titled(cfg, p) ==> FirstTitled(cfg, [p], 0);
    assert [p][0] == p;
  }

  /** The entry of a window, if it has one, and the panes it was chosen among. */
  ghost predicate EntryChosen(cfg: Config, states: map<PaneId, PaneState>, panes: seq<Pane>, window: WindowId) {
    var entries, mine := Picked(cfg, states, panes), AgentPanes(states, panes, window);
    var i := EntryAt(entries, window);
    && (i == |entries| <==> mine == [])
    && (i < |entries| ==> Chosen(cfg, mine, entries[i]))
  }

  lemma {:induction false} EntryAtPicked(entries: seq<Entry>, p: Pane, title: Option<string>, window: WindowId)
    ensures var after := Pick(entries, p, title);
            var i, j := EntryAt(entries, window), EntryAt(after, window);
            && (window != p.windowId ==> (j < |after| <==> i < |entries|) && (i < |entries| ==> after[j] == entries[i]))
            && (window == p.windowId ==> j < |after|)
  {
    var after := Pick(entries, p, title);
    var i, j, k := EntryAt(entries, window), EntryAt(after, window), EntryAt(entries, p.windowId);
    hide EntryAt;
    if window != p.windowId {
      assert i < |entries| ==> after[i].pane.windowId == window;
      assert j < |entries| ==> j != k || k == |entries|;
      assert j < |after| && j < |entries| ==> entries[j].pane.windowId == window;
      assert i < |entries| ==> i == j;
    } else {
      assert |after| > k ==> after[k].pane.windowId == window;
    }
  }

  lemma {:induction false} EntryAtOwn(entries: seq<Entry>, p: Pane, title: Option<string>)
    ensures var after := Pick(entries, p, title);
            var i, j := EntryAt(entries, p.windowId), EntryAt(after, p.windowId);
            && j < |after|
            && (i == |entries| ==> after[j] == Entry(p, title))
            && (i < |entries| ==>
                  after[j] == if title.Some? && (p.active || (entries[i].title.None? && !entries[i].pane.active))
                              then Entry(p, title) else entries[i])
  {
    var after := Pick(entries, p, title);
    var i, j := EntryAt(entries, p.windowId), EntryAt(after, p.windowId);
    hide EntryAt;
    assert i < |entries| ==> after[i].pane.windowId == p.windowId;
    assert i == |entries| ==> after[i].pane.windowId == p.windowId;
    assert j <= i;
    assert forall k :: 0 <= k < i ==> after[k] == entries[k];
  }

  /** A window has an entry exactly when a pane of it runs an agent, and the entry is
      that of the pane the rules choose. */
  lemma {:induction false} PickedIsChosen(cfg: Config, states: map<PaneId, PaneState>, panes: seq<Pane>,
        window: WindowId)
    ensures EntryChosen(cfg, states, panes, window)
  {
    hide CleanTitle, Chosen;
    if panes != [] {
      var front, p := panes[..|panes| - 1], panes[|panes| - 1];
      var before, mine := Picked(cfg, states, front), AgentPanes(states, front, window);
      var title := CleanTitle(cfg, p.title);
      PickedIsChosen(cfg, states, front, window);
      if RunsAgent(states, p) {
        hide Pick, Picked, EntryAt;
        assert Picked(cfg, states, panes) == Pick(before, p, title) by { PickedMore(cfg, states, panes); }
        if p.windowId == window {
          EntryAtOwn(before, p, title);
          ChosenFirst(cfg, p);
          if EntryAt(before, window) < |before| {
            ChosenMore(cfg, mine, before[EntryAt(before, window)], p);
          } else {
            assert mine + [p] == [p];
          }
        } else {
          EntryAtPicked(before, p, title, window);
          assert mine + [] == mine;
        }
      } else {
        assert mine + [] == mine;
      }
    }
  }

  lemma {:induction false} PickedMore(cfg: Config, states: map<PaneId, PaneState>, panes: seq<Pane>)
    requires panes != [] && RunsAgent(states, panes[|panes| - 1])
    ensures var front, p := panes[..|panes| - 1], panes[|panes| - 1];
            Picked(cfg, states, panes) == Pick(Picked(cfg, states, front), p, CleanTitle(cfg, p.title))
  {
    hide CleanTitle, Pick;
  }

  /** A usable title goes unused exactly when the window's first agent pane is the
      active one with none, and no other active pane has one. */
  lemma {:induction false} TitleUnusedIff(cfg: Config, states: map<PaneId, PaneState>, panes: seq<Pane>,
        window: WindowId)
    requires AnyTitled(cfg, AgentPanes(states, panes, window))
    ensures var entries, mine := Picked(cfg, states, panes), AgentPanes(states, panes, window);
            && mine != [] && EntryAt(entries, window) < |entries|
            && (entries[EntryAt(entries, window)].title.None?
                <==> mine[0].active && !AnyWins(cfg, mine))
  {
    var mine := AgentPanes(states, panes, window);
    assert mine != [];
    PickedIsChosen(cfg, states, panes, window);
    var entries := Picked(cfg, states, panes);
    var i := EntryAt(entries, window);
    assert i < |entries| && Chosen(cfg, mine, entries[i]);
    var e := entries[i];
    hide CleanTitle, Picked, EntryAt, AgentPanes, AnyWins, AnyTitled, Wins, FirstTitled;
    if AnyWins(cfg, mine) {
      var k: nat :| Wins(cfg, mine, k) && e.pane == mine[k];
      WinsIs(cfg, mine, k);
    } else if !mine[0].active {
      var k: nat :| FirstTitled(cfg, mine, k) && e.pane == mine[k];
      FirstTitledIs(cfg, mine, k);
    }
  }

  // ---- What a call does ----------------------------------------------------

  /** The user named it: never named by a call it keeps a name of its own, and named
      by one it has another name now. */
  ghost predicate NamedByHand(w: Named) {
    (w.lastAutoname == "" && !w.automaticRename) || (w.lastAutoname != "" && w.name != w.lastAutoname)
  }

  /** A call that tmux can read leaves a window alone once naming is off for it,
      turns naming off for one named by hand, and gives any other window its title
      when it has one, which tmux then no longer renames by itself. */
  lemma {:induction false} CallNames(cfg: Config, states: map<PaneId, PaneState>, panes: seq<Pane>, table: Table,
        i: nat)
    requires ListedFrom(panes, table) && NoNameEnds(Picked(cfg, states, panes)) && i < |Picked(cfg, states, panes)|
    ensures var e, after := Picked(cfg, states, panes)[i], AfterCall(table, ArgsFor(cfg, states, panes));
            var w := Target(e.pane.windowId);
            && w in table && w in after
            && (table[w].autonameOff ==> after[w] == table[w])
            && (!table[w].autonameOff && NamedByHand(table[w]) ==>
                  after[w].autonameOff && after[w].name == table[w].name)
            && (!table[w].autonameOff && !NamedByHand(table[w]) && e.title.Some? && Verbatim(e.title.value) ==>
                  && after[w].name == e.title.value && !after[w].autonameOff
                  && (table[w].name != e.title.value ==>
                        after[w].lastAutoname == e.title.value && !after[w].automaticRename))
            && (!table[w].autonameOff && !NamedByHand(table[w]) && e.title.None? ==> after[w] == table[w])
  {
    var e := Picked(cfg, states, panes)[i];
    CallApplies(cfg, states, panes, table);
    EntriesFromPanes(cfg, states, panes, table);
    if e.title.Some? {
      VerbatimIff(e.title.value);
    }
    hide Picked, AfterCall, ArgsFor, NoNameEnds, ListedFrom, Target, Text, Verbatim;
  }
}
