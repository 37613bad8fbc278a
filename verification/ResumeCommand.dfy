/** The command lines that resume or fork an agent conversation
    (src/restore.rs): the flags picking a conversation and the initial prompt
    are taken out of the recorded argv and the new id is put in. */
module ResumeCommand {
  import opened Wrappers

  type Words = seq<string>

  /** A TOML-defined agent carries the command that resumes its latest
      conversation (empty when it has none). */
  datatype AgentKind = Claude | Codex | Pi | OpenCode | Custom(resume: Words)

  datatype Takes = Nothing | Value | OptionalValue

  function ResumeFlag(kind: AgentKind, flag: string): Option<Takes> {
    match kind
    case Claude =>
      if flag == "--resume" || flag == "-r" then Some(OptionalValue)
      else if flag == "--continue" || flag == "-c" then Some(Nothing)
      else if flag == "--session-id" then Some(Value)
      else None
    case OpenCode =>
      if flag == "--session" || flag == "-s" then Some(Value)
      else if flag == "--continue" || flag == "-c" then Some(Nothing)
      else None
    case Codex => if flag == "--last" then Some(Nothing) else None
    case _ => None
  }

  predicate BooleanFlag(flag: string) {
    || flag == "--dangerously-skip-permissions"
    || flag == "--dangerously-bypass-approvals-and-sandbox"
    || flag == "--verbose"
    || flag == "--full-auto"
    || flag == "--yolo"
  }

  predicate Dash(w: string) {
    |w| > 0 && w[0] == '-'
  }

  /** The part after the last slash. */
  function BaseName(path: string): string {
    if path == [] then []
    else if '/' in path[1..] then BaseName(path[1..])
    else if path[0] == '/' then path[1..]
    else path
  }

  predicate IsRuntime(arg0: string) {
    BaseName(arg0) == "node" || BaseName(arg0) == "bun" || BaseName(arg0) == "deno"
  }

  /** The part before the first `=`, and whether there is one. */
  function BeforeEquals(w: string): (r: (string, bool))
    ensures r.1 <==> '=' in w
    ensures r.0 <= w
  {
    if w == [] then ([], false)
    else if w[0] == '=' then ([], true)
    else var (f, has) := BeforeEquals(w[1..]); ([w[0]] + f, has)
  }

  /** `--flag=value` holds its value in the same word. */
  predicate Inline(w: string) {
    "--" <= w && '=' in w
  }

  function Flag(w: string): string {
    if Inline(w) then BeforeEquals(w).0 else w
  }

  /** The word is a flag that picks a conversation. */
  predicate Picks(kind: AgentKind, w: string) {
    ResumeFlag(kind, Flag(w)).Some?
  }

  /** How many words a conversation flag stands for, itself included. */
  function Width(kind: AgentKind, args: Words): (n: nat)
    requires args != [] && Picks(kind, args[0])
    ensures 1 <= n <= 2
  {
    var takes := ResumeFlag(kind, Flag(args[0])).value;
    var nextIsValue := |args| > 1 && !Dash(args[1]);
    if !Inline(args[0]) && (takes == Value || (takes == OptionalValue && nextIsValue)) then 2 else 1
  }

  predicate TakesWord(w: string) {
    Dash(w) && !Inline(w) && !BooleanFlag(w)
  }

  function Drop(args: Words, n: nat): (r: Words)
    ensures |r| <= |args| && (n > 0 && args != [] ==> |r| < |args|)
  {
    if n <= |args| then args[n..] else []
  }

  /** The words kept from `args`; `afterValueFlag`: the word before was a kept
      flag that may take this one as its value. */
  function Kept(kind: AgentKind, args: Words, afterValueFlag: bool): Words
    decreases |args|
  {
    if args == [] then []
    else if Picks(kind, args[0]) then Kept(kind, Drop(args, Width(kind, args)), false)
    else if !Dash(args[0]) && !afterValueFlag then Kept(kind, args[1..], false)
    else [args[0]] + Kept(kind, args[1..], TakesWord(args[0]))
  }

  // ---- The two commands ----------------------------------------------------

  /** Words before the agent's own arguments: the program, and the script it is
      when the program is a JavaScript runtime. */
  function ProgLen(argv: Words): (n: nat)
    requires argv != []
    ensures 1 <= n <= |argv|
  {
    if IsRuntime(argv[0]) && |argv| >= 2 then 2 else 1
  }

  /** A leading Codex `resume [id]` subcommand. */
  function Subcommand(kind: AgentKind, args: Words): (n: nat)
    ensures n <= |args|
  {
    if kind == Codex && args != [] && args[0] == "resume"
    then if |args| > 1 && !Dash(args[1]) then 2 else 1
    else 0
  }

  function KeptArgs(kind: AgentKind, argv: Words): Words
    requires argv != []
  {
    var args := argv[ProgLen(argv)..];
    Kept(kind, args[Subcommand(kind, args)..], false)
  }

  function Resumed(kind: AgentKind, argv: Words, id: string): Words
    requires argv != []
  {
    var prog, kept := argv[..ProgLen(argv)], KeptArgs(kind, argv);
    match kind
    case Codex => prog + ["resume", id] + kept
    case OpenCode => prog + kept + ["-s", id]
    case _ => prog + kept + ["--resume", id]
  }

  function Forked(kind: AgentKind, argv: Words, id: string): Words
    requires argv != []
  {
    var prog, kept := argv[..ProgLen(argv)], KeptArgs(kind, argv);
    match kind
    case Codex => prog + ["fork", id] + kept
    case OpenCode => prog + kept + ["-s", id, "--fork"]
    case _ => prog + kept + ["--resume", id, "--fork-session"]
  }

  /** One turn of the loop over the arguments. */
  lemma {:induction false} KeptStep(kind: AgentKind, args: Words, i: nat, after: bool, before: Words)
    requires i < |args|
    ensures var w := args[i];
            before + Kept(kind, Drop(args, i), after) ==
            if Picks(kind, w) then before + Kept(kind, Drop(args, i + Width(kind, args[i..])), false)
            else if !Dash(w) && !after then before + Kept(kind, Drop(args, i + 1), false)
            else before + [w] + Kept(kind, Drop(args, i + 1), TakesWord(w))
  {
    hide ResumeFlag, BooleanFlag, Inline, Flag, Dash, Width;
    var rest := Drop(args, i);
    assert rest[0] == args[i] && rest[1..] == Drop(args, i + 1) && Drop(rest, 1) == Drop(args, i + 1);
    assert Drop(rest, 2) == Drop(args, i + 2);
    assert before + ([args[i]] + Kept(kind, Drop(args, i + 1), TakesWord(args[i])))
        == before + [args[i]] + Kept(kind, Drop(args, i + 1), TakesWord(args[i]));
  }

  lemma {:induction false} DropIsRest(args: Words, n: nat)
    requires n <= |args|
    ensures Drop(args, n) == args[n..]
  {
  }

  lemma {:induction false} KeptNothing(kind: AgentKind, args: Words, i: nat, after: bool)
    requires |args| <= i
    ensures Kept(kind, Drop(args, i), after) == []
  {
  }

  /** The loop `resume_command` and `fork_command` both contain: the arguments
      from `start` on without conversation flags and stray positional words. */
  method KeepArgs(kind: AgentKind, args: Words, start: nat) returns (kept: Words)
    requires start <= |args|
    ensures kept == Kept(kind, args[start..], false)
  {
    hide ResumeFlag, BooleanFlag, Inline, Flag, Dash, Kept, Drop;
    var i := start;
    kept := [];
    var afterValueFlag := false;
    DropIsRest(args, start);
    while i < |args|
      invariant kept + Kept(kind, Drop(args, i), afterValueFlag) == Kept(kind, args[start..], false)
      decreases |args| - i
    {
      KeptStep(kind, args, i, afterValueFlag, kept);
      assert args[i..][0] == args[i] && (i + 1 < |args| ==> args[i..][1] == args[i + 1]);
      var arg := args[i];
      i := i + 1;
      var inline := Inline(arg);
      var takes := ResumeFlag(kind, Flag(arg));
      if takes.Some? {
        var nextIsValue := i < |args| && !Dash(args[i]);
        if !inline && (takes.value == Value || (takes.value == OptionalValue && nextIsValue)) {
          i := i + 1;
        }
        afterValueFlag := false;
        continue;
      }
      if !Dash(arg) && !afterValueFlag {
        continue;
      }
      afterValueFlag := Dash(arg) && !inline && !BooleanFlag(arg);
      kept := kept + [arg];
    }
    KeptNothing(kind, args, i, afterValueFlag);
  }

  /** Program words and kept arguments of a recorded argv. */
  method Split(kind: AgentKind, argv: Words) returns (prog: Words, kept: Words)
    requires argv != []
    ensures prog == argv[..ProgLen(argv)] && kept == KeptArgs(kind, argv)
  {
    hide IsRuntime;
    var progLen := if IsRuntime(argv[0]) && |argv| > 1 then 2 else 1;
    var args := argv[progLen..];
    prog := argv[..progLen];
    var start := 0;
    if kind == Codex && args != [] && args[0] == "resume" {
      start := if |args| > 1 && !Dash(args[1]) then 2 else 1;
    }
    kept := KeepArgs(kind, args, start);
  }

  /** The command resuming agent session `sessionId`. */
  method Resume(kind: AgentKind, argv: Words, sessionId: Option<string>) returns (out: Words)
    ensures out == ResumeSpec(kind, argv, sessionId)
  {
    if kind.Custom? {
      return if kind.resume == [] then argv else kind.resume;
    }
    if sessionId.None? || kind.Pi? || argv == [] {
      return argv;
    }
    var id := sessionId.value;
    var prog, kept := Split(kind, argv);
    if kind.Codex? {
      out := prog + ["resume", id] + kept;
    } else if kind.OpenCode? {
      out := prog + kept + ["-s", id];
    } else {
      out := prog + kept + ["--resume", id];
    }
  }

  /** The command forking agent session `sessionId`; `None` when the agent can't
      fork or there is no session id. */
  method Fork(kind: AgentKind, argv: Words, sessionId: Option<string>) returns (r: Option<Words>)
    ensures r == ForkSpec(kind, argv, sessionId)
  {
    if sessionId.None? || kind.Pi? || kind.Custom? || argv == [] {
      return None;
    }
    var id := sessionId.value;
    var prog, kept := Split(kind, argv);
    if kind.Codex? {
      r := Some(prog + ["fork", id] + kept);
    } else if kind.OpenCode? {
      r := Some(prog + kept + ["-s", id, "--fork"]);
    } else {
      r := Some(prog + kept + ["--resume", id, "--fork-session"]);
    }
  }

  function ResumeSpec(kind: AgentKind, argv: Words, sessionId: Option<string>): Words {
    if kind.Custom? then if kind.resume == [] then argv else kind.resume
    else if sessionId.None? || kind.Pi? || argv == [] then argv
    else Resumed(kind, argv, sessionId.value)
  }

  function ForkSpec(kind: AgentKind, argv: Words, sessionId: Option<string>): Option<Words> {
    if sessionId.None? || kind.Pi? || kind.Custom? || argv == [] then None
    else Some(Forked(kind, argv, sessionId.value))
  }

  // ---- Which words are kept ------------------------------------------------

  /** The word at `i` is the value of a conversation flag. */
  predicate Consumed(kind: AgentKind, args: Words, i: nat)
    requires i < |args|
  {
    i > 0 && !Consumed(kind, args, i - 1) && Picks(kind, args[i - 1]) && Width(kind, args[i - 1..]) == 2
  }

  /** The word at `i` directly follows a kept flag that may take a value. */
  predicate FollowsFlag(kind: AgentKind, args: Words, i: nat)
    requires i <= |args|
  {
    i > 0 && !Consumed(kind, args, i - 1) && !Picks(kind, args[i - 1]) && TakesWord(args[i - 1])
  }

  /** A word stays unless it picks a conversation, is the value of a flag that
      does, or is a positional word not following a flag. */
  predicate Stays(kind: AgentKind, args: Words, i: nat)
    requires i < |args|
  {
    !Consumed(kind, args, i) && !Picks(kind, args[i]) && (Dash(args[i]) || FollowsFlag(kind, args, i))
  }

  function Staying(kind: AgentKind, args: Words, n: nat): Words
    requires n <= |args|
  {
    if n == 0 then []
    else Staying(kind, args, n - 1) + if Stays(kind, args, n - 1) then [args[n - 1]] else []
  }

  lemma {:induction false} AfterPick(kind: AgentKind, args: Words, i: nat)
    requires i < |args| && !Consumed(kind, args, i) && Picks(kind, args[i])
    ensures args[i..][0] == args[i]
    ensures Staying(kind, args, i + 1) == Staying(kind, args, i) && !FollowsFlag(kind, args, i + 1)
    ensures i + 1 < |args| ==> (Consumed(kind, args, i + 1) <==> Width(kind, args[i..]) == 2)
    ensures i + 1 < |args| && Width(kind, args[i..]) == 2 ==>
              Staying(kind, args, i + 2) == Staying(kind, args, i) && !FollowsFlag(kind, args, i + 2)
              && (i + 2 < |args| ==> !Consumed(kind, args, i + 2))
  {
    hide Picks, Width;
  }

  lemma {:induction false} AfterWord(kind: AgentKind, args: Words, i: nat)
    requires i < |args| && !Consumed(kind, args, i) && !Picks(kind, args[i])
    ensures Staying(kind, args, i + 1)
            == Staying(kind, args, i) + if Dash(args[i]) || FollowsFlag(kind, args, i) then [args[i]] else []
    ensures FollowsFlag(kind, args, i + 1) == TakesWord(args[i]) && (TakesWord(args[i]) ==> Dash(args[i]))
    ensures i + 1 < |args| ==> !Consumed(kind, args, i + 1)
  {
    hide Picks, Width, BooleanFlag;
  }

  lemma {:induction false} KeptFrom(kind: AgentKind, args: Words, i: nat)
    requires i <= |args| && (i < |args| ==> !Consumed(kind, args, i))
    ensures Staying(kind, args, i) + Kept(kind, Drop(args, i), FollowsFlag(kind, args, i))
            == Staying(kind, args, |args|)
    decreases |args| - i
  {
    hide *;
    if i < |args| {
      KeptStep(kind, args, i, FollowsFlag(kind, args, i), Staying(kind, args, i));
      if Picks(kind, args[i]) {
        AfterPick(kind, args, i);
        if i + 1 < |args| {
          KeptFrom(kind, args, i + Width(kind, args[i..]));
        } else {
          KeptNothing(kind, args, i + Width(kind, args[i..]), false);
        }
      } else {
        AfterWord(kind, args, i);
        KeptFrom(kind, args, i + 1);
      }
    } else {
      KeptNothing(kind, args, i, FollowsFlag(kind, args, i));
    }
  }

  /** The rewriting keeps exactly the words that stay, in order. */
  lemma {:induction false} KeptIsStaying(kind: AgentKind, args: Words)
    ensures Kept(kind, args, false) == Staying(kind, args, |args|)
  {
    KeptFrom(kind, args, 0);
    assert Drop(args, 0) == args;
  }

  // ---- Rewriting a rewritten command ---------------------------------------

  lemma {:induction false} KeptStartsWithFlag(kind: AgentKind, args: Words)
    ensures Kept(kind, args, false) == [] || Dash(Kept(kind, args, false)[0])
    decreases |args|
  {
    hide ResumeFlag, BooleanFlag, Inline, Flag;
    if args != [] {
      if Picks(kind, args[0]) {
        KeptStartsWithFlag(kind, Drop(args, Width(kind, args)));
      } else {
        KeptStartsWithFlag(kind, args[1..]);
      }
    }
  }

  lemma {:induction false} FlagFirst(kind: AgentKind, args: Words, after: bool)
    requires args == [] || Dash(args[0])
    ensures Kept(kind, args, after) == Kept(kind, args, false)
  {
    hide ResumeFlag, BooleanFlag, Inline, Flag;
  }

  /** Kept words survive a second pass, whatever flags are put after them. */
  lemma {:induction false} KeptAgain(kind: AgentKind, args: Words, after: bool, tail: Words)
    requires tail == [] || Dash(tail[0])
    ensures Kept(kind, Kept(kind, args, after) + tail, after) == Kept(kind, args, after) + Kept(kind, tail, false)
    decreases |args|
  {
    hide ResumeFlag, BooleanFlag, Inline, Flag, Dash, Kept;
    KeptCases(kind, args, after);
    var kept := Kept(kind, args, after);
    if args == [] {
      assert kept + tail == tail;
      FlagFirst(kind, tail, after);
    } else if Picks(kind, args[0]) {
      var rest := Drop(args, Width(kind, args));
      KeptAgain(kind, rest, false, tail);
      KeptStartsWithFlag(kind, rest);
      FlagFirst(kind, kept + tail, after);
    } else if !Dash(args[0]) && !after {
      KeptAgain(kind, args[1..], false, tail);
    } else {
      KeptAgain(kind, args[1..], TakesWord(args[0]), tail);
      KeptWord(kind, args[0], Kept(kind, args[1..], TakesWord(args[0])), tail, after);
    }
  }

  lemma {:induction false} KeptCases(kind: AgentKind, args: Words, after: bool)
    ensures Kept(kind, args, after) ==
            if args == [] then []
            else if Picks(kind, args[0]) then Kept(kind, Drop(args, Width(kind, args)), false)
            else if !Dash(args[0]) && !after then Kept(kind, args[1..], false)
            else [args[0]] + Kept(kind, args[1..], TakesWord(args[0]))
  {
  }

  lemma {:induction false} KeptWord(kind: AgentKind, w: string, inner: Words, tail: Words, after: bool)
    requires !Picks(kind, w) && (Dash(w) || after)
    requires Kept(kind, inner + tail, TakesWord(w)) == inner + Kept(kind, tail, false)
    ensures Kept(kind, [w] + inner + tail, after) == [w] + inner + Kept(kind, tail, false)
  {
    hide Picks, Dash, TakesWord;
    var all := [w] + inner + tail;
    KeptCases(kind, all, after);
    assert all[0] == w && all[1..] == inner + tail;
    assert [w] + (inner + Kept(kind, tail, false)) == [w] + inner + Kept(kind, tail, false);
  }

  /** What the id of the last rewrite leaves behind in the next one. */
  function Leftover(kind: AgentKind, id: string): Words {
    if !kind.OpenCode? && Dash(id) && !Picks(kind, id) then [id] else []
  }

  lemma {:induction false} SecondClaude(id: string)
    ensures Kept(Claude, ["--resume", id], false) == Leftover(Claude, id)
  {
    hide Kept;
    var w := ["--resume", id];
    assert !Inline("--resume") && Picks(Claude, "--resume");
    assert w[1..] == [id] && Drop(w, 1) == [id] && Drop(w, 2) == [];
    KeptCases(Claude, w, false);
    KeptCases(Claude, [], false);
    KeptOne(Claude, id);
  }

  lemma {:induction false} KeptOne(kind: AgentKind, w: string)
    ensures Kept(kind, [w], false) == if Dash(w) && !Picks(kind, w) then [w] else []
  {
    hide Picks, Dash, Width;
    assert [w][1..] == [] && [w][0] == w;
    KeptCases(kind, [w], false);
  }

  lemma {:induction false} SecondOpenCode(id: string)
    ensures Kept(OpenCode, ["-s", id], false) == []
  {
    hide Kept;
    var w := ["-s", id];
    assert !Inline("-s") && Picks(OpenCode, "-s");
    assert Drop(w, 2) == [];
    KeptCases(OpenCode, w, false);
    KeptCases(OpenCode, [], false);
  }

  lemma {:induction false} KeptStable(kind: AgentKind, args: Words, after: bool)
    ensures Kept(kind, Kept(kind, args, false), after) == Kept(kind, args, false)
  {
    hide Kept, Dash;
    var kept := Kept(kind, args, false);
    KeptAgain(kind, args, false, []);
    assert kept + [] == kept;
    KeptCases(kind, [], false);
    KeptStartsWithFlag(kind, args);
    FlagFirst(kind, kept, after);
  }

  lemma {:induction false} CodexFlagIsOneWord(args: Words)
    requires args != [] && Picks(Codex, args[0])
    ensures Width(Codex, args) == 1
  {
  }

  lemma {:induction false} LeadingCodexId(args: Words, id: string)
    ensures Kept(Codex, (if Dash(id) then [id] else []) + Kept(Codex, args, false), false)
            == Leftover(Codex, id) + Kept(Codex, args, false)
  {
    hide Kept, Dash, Picks, Width;
    var kept := Kept(Codex, args, false);
    KeptStable(Codex, args, false);
    assert [] + kept == kept;
    if Dash(id) {
      var all := [id] + kept;
      assert all[0] == id && all[1..] == kept && Drop(all, 1) == kept;
      KeptCases(Codex, all, false);
      if Picks(Codex, id) {
        CodexFlagIsOneWord(all);
      } else {
        KeptStable(Codex, args, TakesWord(id));
      }
    }
  }

  /** A runtime argv names the script it runs. */
  predicate NamesScript(argv: Words)
    requires argv != []
  {
    IsRuntime(argv[0]) ==> |argv| >= 2
  }

  predicate Resumable(kind: AgentKind) {
    kind.Claude? || kind.OpenCode? || kind.Codex?
  }

  lemma {:induction false} SameProgram(argv: Words, rest: Words)
    requires argv != [] && NamesScript(argv) && rest != []
    ensures var again := argv[..ProgLen(argv)] + rest;
            again != [] && ProgLen(again) == ProgLen(argv)
            && again[..ProgLen(again)] == argv[..ProgLen(argv)] && again[ProgLen(again)..] == rest
  {
    hide IsRuntime;
    var again := argv[..ProgLen(argv)] + rest;
    assert again[0] == argv[0];
  }

  /** What a second rewrite keeps of the first one's output. */
  lemma {:induction false} KeptOfResumed(kind: AgentKind, argv: Words, id: string)
    requires argv != [] && NamesScript(argv) && Resumable(kind)
    ensures var again := Resumed(kind, argv, id);
            && again != [] && again[..ProgLen(again)] == argv[..ProgLen(argv)]
            && KeptArgs(kind, again) ==
               if kind.Codex? then Leftover(kind, id) + KeptArgs(kind, argv)
               else KeptArgs(kind, argv) + Leftover(kind, id)
  {
    hide Kept, IsRuntime, ProgLen, Picks, Dash;
    var prog, kept := argv[..ProgLen(argv)], KeptArgs(kind, argv);
    var args := argv[ProgLen(argv)..][Subcommand(kind, argv[ProgLen(argv)..])..];
    if kind.Codex? {
      var rest := ["resume", id] + kept;
      assert prog + ["resume", id] + kept == prog + rest;
      SameProgram(argv, rest);
      LeadingCodexId(args, id);
      assert rest[1..] == [id] + kept && rest[2..] == [] + kept;
    } else if kind.OpenCode? {
      var rest := kept + ["-s", id];
      assert prog + kept + ["-s", id] == prog + rest;
      SameProgram(argv, rest);
      assert rest[0..] == rest && kept + [] == kept;
      DashS();
      KeptAgain(kind, args, false, ["-s", id]);
      SecondOpenCode(id);
    } else {
      var rest := kept + ["--resume", id];
      assert prog + kept + ["--resume", id] == prog + rest;
      SameProgram(argv, rest);
      assert rest[0..] == rest;
      DashS();
      KeptAgain(kind, args, false, ["--resume", id]);
      SecondClaude(id);
    }
  }

  lemma {:induction false} DashS()
    ensures Dash("-s") && Dash("--resume")
  {
  }

  /** The last id wins, exactly when the argv names a runtime's script and the
      first id is not a stray flag. */
  lemma {:induction false} LastIdWins(kind: AgentKind, argv: Words, a: string, b: string)
    requires argv != [] && Resumable(kind)
    ensures ResumeSpec(kind, ResumeSpec(kind, argv, Some(a)), Some(b)) == ResumeSpec(kind, argv, Some(b))
            <==> NamesScript(argv) && (kind.OpenCode? || !Dash(a) || Picks(kind, a))
  {
    hide *;
    ResumesAs(kind, argv, a);
    ResumesAs(kind, argv, b);
    ResumesAs(kind, Resumed(kind, argv, a), b);
    if NamesScript(argv) {
      RewriteTwice(kind, argv, a, b);
    } else {
      LoneRuntime(kind, argv, a, b);
    }
  }

  lemma {:induction false} ResumesAs(kind: AgentKind, argv: Words, id: string)
    requires argv != [] && Resumable(kind)
    ensures ResumeSpec(kind, argv, Some(id)) == Resumed(kind, argv, id) != []
    ensures |Resumed(kind, argv, id)| == ProgLen(argv) + 2 + |KeptArgs(kind, argv)|
  {
    hide KeptArgs, ProgLen;
  }

  lemma {:induction false} RewriteTwice(kind: AgentKind, argv: Words, a: string, b: string)
    requires argv != [] && Resumable(kind) && NamesScript(argv)
    ensures Resumed(kind, argv, a) != []
    ensures Resumed(kind, Resumed(kind, argv, a), b) == Resumed(kind, argv, b)
            <==> kind.OpenCode? || !Dash(a) || Picks(kind, a)
  {
    hide *;
    KeptOfResumed(kind, argv, a);
    ResumesAs(kind, argv, b);
    ResumesAs(kind, Resumed(kind, argv, a), b);
    var again := Resumed(kind, argv, a);
    SameParts(kind, argv, again, b);
    LeftoverEmpty(kind, argv, a);
  }

  lemma {:induction false} LeftoverEmpty(kind: AgentKind, argv: Words, a: string)
    requires argv != [] && Resumable(kind)
    ensures var kept := KeptArgs(kind, argv);
            (if kind.Codex? then Leftover(kind, a) + kept else kept + Leftover(kind, a)) == kept
            <==> kind.OpenCode? || !Dash(a) || Picks(kind, a)
  {
    hide KeptArgs, Picks, Dash;
    var kept := KeptArgs(kind, argv);
    assert [] + kept == kept && kept + [] == kept;
    assert |[a] + kept| == |kept + [a]| == |kept| + 1;
  }

  lemma {:induction false} SameParts(kind: AgentKind, argv: Words, again: Words, b: string)
    requires argv != [] && again != [] && again[..ProgLen(again)] == argv[..ProgLen(argv)]
    ensures Resumed(kind, again, b) == Resumed(kind, argv, b) <==> KeptArgs(kind, again) == KeptArgs(kind, argv)
  {
    hide KeptArgs, ProgLen;
    var prog, k, l := argv[..ProgLen(argv)], KeptArgs(kind, argv), KeptArgs(kind, again);
    var t, u := ["resume", b], if kind.OpenCode? then ["-s", b] else ["--resume", b];
    if prog + t + l == prog + t + k {
      assert l == (prog + t + l)[|prog + t|..] == (prog + t + k)[|prog + t|..] == k;
    }
    if prog + l + u == prog + k + u {
      assert |l| == |k|;
      assert l == (prog + l + u)[|prog|..|prog| + |l|] == (prog + k + u)[|prog|..|prog| + |k|] == k;
    }
  }

  /** A lone runtime word is taken for a script by the second rewrite. */
  lemma {:induction false} LoneRuntime(kind: AgentKind, argv: Words, a: string, b: string)
    requires argv != [] && Resumable(kind) && !NamesScript(argv)
    ensures Resumed(kind, argv, a) != []
    ensures Resumed(kind, Resumed(kind, argv, a), b) != Resumed(kind, argv, b)
  {
    var again := Resumed(kind, argv, a);
    hide Kept, IsRuntime;
    ResumesAs(kind, argv, a);
    ResumesAs(kind, argv, b);
    ResumesAs(kind, again, b);
    assert again[0] == argv[0] && |again| >= 2;
    assert KeptArgs(kind, argv) == [] by {
      assert argv[1..] == [];
      KeptCases(kind, [], false);
    }
  }

  // ---- Forks ---------------------------------------------------------------

  /** A fork is the resume command with the agent's fork suffix, or for Codex
      with the subcommand word swapped. */
  lemma {:induction false} ForkIsResumePlus(kind: AgentKind, argv: Words, id: string)
    requires argv != [] && Resumable(kind)
    ensures var r := ResumeSpec(kind, argv, Some(id));
            && (kind.Claude? ==> ForkSpec(kind, argv, Some(id)) == Some(r + ["--fork-session"]))
            && (kind.OpenCode? ==> ForkSpec(kind, argv, Some(id)) == Some(r + ["--fork"]))
            && (kind.Codex? ==> |r| > ProgLen(argv) && r[ProgLen(argv)] == "resume"
                                && ForkSpec(kind, argv, Some(id)) == Some(r[ProgLen(argv) := "fork"]))
  {
    hide KeptArgs, ProgLen;
    var prog, kept := argv[..ProgLen(argv)], KeptArgs(kind, argv);
    assert prog + kept + ["--resume", id, "--fork-session"] == prog + kept + ["--resume", id] + ["--fork-session"];
    assert prog + kept + ["-s", id, "--fork"] == prog + kept + ["-s", id] + ["--fork"];
    assert (prog + ["resume", id] + kept)[|prog| := "fork"] == prog + ["fork", id] + kept;
  }

  /** Resuming a Codex fork resumes the original; Claude and OpenCode keep the
      fork flag, so resuming their fork forks again. */
  lemma {:induction false} ResumeOfFork(kind: AgentKind, argv: Words, a: string, b: string)
    requires argv != [] && NamesScript(argv) && Resumable(kind) && !Dash(a)
    ensures var prog, kept := argv[..ProgLen(argv)], KeptArgs(kind, argv);
            var again := ResumeSpec(kind, Forked(kind, argv, a), Some(b));
            && (kind.Codex? ==> again == ResumeSpec(kind, argv, Some(b)))
            && (kind.Claude? ==>
                  again == prog + kept + ["--fork-session", "--resume", b] != ResumeSpec(kind, argv, Some(b)))
            && (kind.OpenCode? ==> again == prog + kept + ["--fork", "-s", b] != ResumeSpec(kind, argv, Some(b)))
  {
    hide Kept, IsRuntime, ProgLen, Picks, Dash, Width, TakesWord, Inline;
    var prog, kept := argv[..ProgLen(argv)], KeptArgs(kind, argv);
    var args := argv[ProgLen(argv)..][Subcommand(kind, argv[ProgLen(argv)..])..];
    ForkWords(a);
    if kind.Codex? {
      var rest := ["fork", a] + kept;
      assert prog + ["fork", a] + kept == prog + rest;
      SameProgram(argv, rest);
      assert rest[0..] == rest && rest[1..] == [a] + kept && rest[1..][1..] == kept;
      KeptCases(kind, rest, false);
      KeptCases(kind, [a] + kept, false);
      NonFlags(kind, a);
      KeptStable(kind, args, false);
    } else {
      var tail := if kind.Claude? then ["--resume", a, "--fork-session"] else ["-s", a, "--fork"];
      var rest := kept + tail;
      assert prog + kept + tail == prog + rest;
      SameProgram(argv, rest);
      assert rest[0..] == rest;
      KeptAgain(kind, args, false, tail);
      ForkTail(a);
      var flag := if kind.Claude? then "--fork-session" else "--fork";
      var last := if kind.Claude? then ["--resume", b] else ["-s", b];
      assert prog + (kept + [flag]) + last == prog + kept + ([flag] + last);
    }
  }

  lemma {:induction false} NonFlags(kind: AgentKind, a: string)
    requires !Dash(a) && kind.Codex?
    ensures !Picks(kind, a)
  {
  }

  lemma {:induction false} ForkWords(a: string)
    requires !Dash(a)
    ensures Dash("-s") && Dash("--resume") && !Dash("fork") && !Picks(Codex, "fork")
  {
  }

  lemma {:induction false} ForkTail(a: string)
    requires !Dash(a)
    ensures Kept(Claude, ["--resume", a, "--fork-session"], false) == ["--fork-session"]
    ensures Kept(OpenCode, ["-s", a, "--fork"], false) == ["--fork"]
  {
    hide Kept;
    var c, o := ["--resume", a, "--fork-session"], ["-s", a, "--fork"];
    assert !Inline("--resume") && Picks(Claude, "--resume") && !Inline("-s") && Picks(OpenCode, "-s");
    assert !Inline("--fork") && !Inline("--fork-session") && Dash("--fork") && Dash("--fork-session");
    assert Drop(c, 2) == ["--fork-session"] && Drop(o, 2) == ["--fork"];
    KeptCases(Claude, c, false);
    KeptCases(OpenCode, o, false);
    KeptOne(Claude, "--fork-session");
    KeptOne(OpenCode, "--fork");
  }
}
