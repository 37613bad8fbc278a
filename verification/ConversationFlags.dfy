/** The flags that pick a conversation, agent by agent, and the flags that take no
    value (src/restore.rs): what becomes of them and of the word after them. */
module ConversationFlags {
  import opened Wrappers
  import opened ResumeCommand

  // ---- By what a flag takes ------------------------------------------------

  lemma {:induction false} WholeFlag(w: string)
    requires '=' !in w
    ensures !Inline(w) && Flag(w) == w
  {
  }

  lemma {:induction false} AfterFlag(f: string, v: string, rest: Words)
    ensures ([f] + rest)[0] == f && ([f] + rest)[1..] == rest && Drop([f] + rest, 1) == rest
    ensures [f, v] + rest == [f] + ([v] + rest)
    ensures Drop([f, v] + rest, 1) == [v] + rest && Drop([f, v] + rest, 2) == rest && ([f, v] + rest)[1] == v
  {
  }

  lemma {:induction false} FlagGoes(kind: AgentKind, f: string, v: string, rest: Words, after: bool)
    requires '=' !in f && ResumeFlag(kind, f).Some?
    ensures ResumeFlag(kind, f) == Some(Nothing) ==> Kept(kind, [f] + rest, after) == Kept(kind, rest, false)
    ensures ResumeFlag(kind, f) == Some(Value) ==> Kept(kind, [f, v] + rest, after) == Kept(kind, rest, false)
    ensures ResumeFlag(kind, f) == Some(OptionalValue) ==>
              Kept(kind, [f, v] + rest, after)
              == if Dash(v) then Kept(kind, [v] + rest, false) else Kept(kind, rest, false)
  {
    WholeFlag(f);
    AfterFlag(f, v, rest);
    hide ResumeFlag, Flag, Inline, Dash, Drop, BooleanFlag;
    assert Picks(kind, f);
    assert ([f, v] + rest)[0] == f;
  }

  // ---- Agent by agent ------------------------------------------------------

  /** Claude: `--resume` and `-r` go with the id after them, if that is no flag;
      `--session-id` goes with the word after it; `--continue` and `-c` go alone. */
  lemma {:induction false} ClaudeFlagsGo(f: string, v: string, rest: Words, after: bool)
    ensures f in {"--resume", "-r"} ==>
              Kept(Claude, [f, v] + rest, after)
              == if Dash(v) then Kept(Claude, [v] + rest, false) else Kept(Claude, rest, false)
    ensures f == "--session-id" ==> Kept(Claude, [f, v] + rest, after) == Kept(Claude, rest, false)
    ensures f in {"--continue", "-c"} ==> Kept(Claude, [f] + rest, after) == Kept(Claude, rest, false)
  {
    if f in {"--resume", "-r", "--session-id", "--continue", "-c"} {
      assert '=' !in f;
      assert f in {"--resume", "-r"} ==> ResumeFlag(Claude, f) == Some(OptionalValue);
      assert f == "--session-id" ==> ResumeFlag(Claude, f) == Some(Value);
      assert f in {"--continue", "-c"} ==> ResumeFlag(Claude, f) == Some(Nothing);
      hide *;
      FlagGoes(Claude, f, v, rest, after);
    }
  }

  /** OpenCode: `--session` and `-s` go with the word after them, `--continue` and
      `-c` alone. */
  lemma {:induction false} OpenCodeFlagsGo(f: string, v: string, rest: Words, after: bool)
    ensures f in {"--session", "-s"} ==> Kept(OpenCode, [f, v] + rest, after) == Kept(OpenCode, rest, false)
    ensures f in {"--continue", "-c"} ==> Kept(OpenCode, [f] + rest, after) == Kept(OpenCode, rest, false)
  {
    if f in {"--session", "-s", "--continue", "-c"} {
      assert '=' !in f;
      assert f in {"--session", "-s"} ==> ResumeFlag(OpenCode, f) == Some(Value);
      assert f in {"--continue", "-c"} ==> ResumeFlag(OpenCode, f) == Some(Nothing);
      hide *;
      FlagGoes(OpenCode, f, v, rest, after);
    }
  }

  /** Codex: `--last` goes alone. */
  lemma {:induction false} CodexFlagsGo(v: string, rest: Words, after: bool)
    ensures Kept(Codex, ["--last"] + rest, after) == Kept(Codex, rest, false)
  {
    assert '=' !in "--last" && ResumeFlag(Codex, "--last") == Some(Nothing);
    hide *;
    FlagGoes(Codex, "--last", v, rest, after);
  }

  // ---- All other flags -----------------------------------------------------

  /** The flags of an agent that pick a conversation. */
  function Conversation(kind: AgentKind): set<string> {
    match kind
    case Claude => {"--resume", "-r", "--session-id", "--continue", "-c"}
    case OpenCode => {"--session", "-s", "--continue", "-c"}
    case Codex => {"--last"}
    case _ => {}
  }

  lemma {:induction false} PicksIff(kind: AgentKind, w: string)
    ensures Picks(kind, w) <==> Flag(w) in Conversation(kind)
    ensures !Dash(w) ==> !Picks(kind, w) && !TakesWord(w)
  {
    hide BeforeEquals;
    if !Dash(w) {
      assert !Inline(w);
    }
  }

  lemma {:induction false} BooleanIff(f: string)
    ensures BooleanFlag(f) <==>
            f in {"--dangerously-skip-permissions", "--dangerously-bypass-approvals-and-sandbox", "--verbose",
                  "--full-auto", "--yolo"}
  {
  }

  /** Any other flag stays. The word after it stays with it when it is no flag,
      unless the flag has its value inline or is one of five that take none. */
  lemma {:induction false} OtherFlagsStay(kind: AgentKind, f: string, v: string, rest: Words, after: bool)
    requires Dash(f) && Flag(f) !in Conversation(kind) && !Dash(v)
    ensures Kept(kind, [f, v] + rest, after)
            == if Inline(f) || f in {"--dangerously-skip-permissions", "--dangerously-bypass-approvals-and-sandbox",
                                     "--verbose", "--full-auto", "--yolo"}
               then [f] + Kept(kind, rest, false) else [f, v] + Kept(kind, rest, false)
  {
    hide Conversation, Flag, Inline, Dash, Drop, BooleanFlag, Picks, Kept;
    PicksIff(kind, f);
    PicksIff(kind, v);
    BooleanIff(f);
    KeptFirst(kind, f, [v] + rest, after);
    KeptFirst(kind, v, rest, TakesWord(f));
    AfterFlag(f, v, rest);
    assert [f] + ([v] + Kept(kind, rest, false)) == [f, v] + Kept(kind, rest, false);
  }

  lemma {:induction false} KeptFirst(kind: AgentKind, w: string, rest: Words, after: bool)
    requires !Picks(kind, w)
    ensures Kept(kind, [w] + rest, after)
            == if !Dash(w) && !after then Kept(kind, rest, false) else [w] + Kept(kind, rest, TakesWord(w))
  {
    hide Picks, Dash, TakesWord;
    assert ([w] + rest)[0] == w && ([w] + rest)[1..] == rest;
  }

  // ---- The resumed conversation --------------------------------------------

  lemma {:induction false} KeptNeverPicks(kind: AgentKind, args: Words, after: bool)
    ensures forall k :: 0 <= k < |Kept(kind, args, after)| ==> !Picks(kind, Kept(kind, args, after)[k])
    decreases |args|
  {
    hide Picks, Dash, TakesWord, Width;
    if args != [] {
      if Picks(kind, args[0]) {
        KeptNeverPicks(kind, Drop(args, Width(kind, args)), false);
      } else {
        KeptNeverPicks(kind, args[1..], false);
        KeptNeverPicks(kind, args[1..], TakesWord(args[0]));
      }
    }
  }

  /** The resumed command is the program, words none of which picks a conversation,
      and the one flag and id that do; for Codex these come first. */
  lemma {:induction false} ResumePicksOnce(kind: AgentKind, argv: Words, id: string)
    requires argv != [] && (kind.Claude? || kind.Codex? || kind.OpenCode?)
    ensures exists kept: Words ::
              && (forall k :: 0 <= k < |kept| ==> Flag(kept[k]) !in Conversation(kind))
              && ResumeSpec(kind, argv, Some(id))
                 == argv[..ProgLen(argv)]
                    + match kind
                      case Codex => ["resume", id] + kept
                      case OpenCode => kept + ["-s", id]
                      case _ => kept + ["--resume", id]
  {
    var args := argv[ProgLen(argv)..];
    var kept := KeptArgs(kind, argv);
    KeptNeverPicks(kind, args[Subcommand(kind, args)..], false);
    hide Flag, Conversation, Picks, Kept, ProgLen, Subcommand;
    forall k | 0 <= k < |kept|
      ensures Flag(kept[k]) !in Conversation(kind)
    {
      PicksIff(kind, kept[k]);
    }
    var prog := argv[..ProgLen(argv)];
    assert prog + ["resume", id] + kept == prog + (["resume", id] + kept);
    assert prog + kept + ["-s", id] == prog + (kept + ["-s", id]);
    assert prog + kept + ["--resume", id] == prog + (kept + ["--resume", id]);
  }

  /** Nothing is rewritten without a session id, for Pi, or without words; an agent
      defined by the user has its own resume command, if any. */
  lemma {:induction false} ResumeOtherwise(kind: AgentKind, argv: Words, sessionId: Option<string>)
    ensures kind.Custom? && kind.resume != [] ==> ResumeSpec(kind, argv, sessionId) == kind.resume
    ensures ResumeSpec(kind, argv, sessionId) != argv ==>
              || (kind.Custom? && kind.resume != [])
              || (sessionId.Some? && argv != [] && kind in {Claude, Codex, OpenCode})
    ensures ForkSpec(kind, argv, sessionId).None?
            <==> sessionId.None? || argv == [] || kind !in {Claude, Codex, OpenCode}
  {
    hide Resumed, Forked;
  }

  // ---- The program ---------------------------------------------------------

  /** The base name is what follows the last slash. */
  lemma {:induction false} BaseNameIs(path: string) returns (dir: string)
    ensures path == dir + BaseName(path) && '/' !in BaseName(path)
    ensures dir != [] ==> dir[|dir| - 1] == '/'
  {
    dir := [];
    if path != [] && '/' in path[1..] {
      var later := BaseNameIs(path[1..]);
      var base := BaseName(path);
      assert base == BaseName(path[1..]) && path == [path[0]] + path[1..];
      hide BaseName;
      assert '/' in later + base;
      dir := [path[0]] + later;
    } else if path != [] && path[0] == '/' {
      dir := [path[0]];
    }
  }

  /** The program is one word, or two when the first one is a JavaScript runtime, by
      the part after the last slash, and there is a second. */
  lemma {:induction false} ProgramIs(argv: Words)
    requires argv != []
    ensures ProgLen(argv) == (if BaseName(argv[0]) in {"node", "bun", "deno"} && |argv| > 1 then 2 else 1)
  {
    hide BaseName;
  }
}
