/** Joining words into the shell command line that is pasted (src/restore.rs,
    src/tmux.rs), against the token recognition and quote removal of the POSIX
    Shell Command Language, sections 2.2.2, 2.2.1, 2.3 and 2.6.7. */
module ShellQuote {
  import opened Wrappers

  predicate Alphanumeric(c: char) {
    'a' <= c <= 'z' || 'A' <= c <= 'Z' || '0' <= c <= '9'
  }

  predicate PlainChar(c: char) {
    Alphanumeric(c) || c in "-_./=:@%+,"
  }

  predicate Plain(w: string) {
    w != [] && forall i :: 0 <= i < |w| ==> PlainChar(w[i])
  }

  /** Each single quote closes the quoting, is escaped, and reopens it. */
  function EscapeQuotes(w: string): string {
    if w == [] then []
    else (if w[0] == '\'' then "'\\''" else [w[0]]) + EscapeQuotes(w[1..])
  }

  function ShellEscape(w: string): string {
    "'" + EscapeQuotes(w) + "'"
  }

  function ShellWord(w: string): string {
    if Plain(w) then w else ShellEscape(w)
  }

  /** Join words into a shell command line, quoting only where needed. */
  function ShellJoin(words: seq<string>): string {
    if words == [] then ""
    else if |words| == 1 then ShellWord(words[0])
    else ShellWord(words[0]) + " " + ShellJoin(words[1..])
  }

  // ---- The shell's reading -------------------------------------------------

  /** Reading state: between words, inside one, inside single quotes, or after a
      backslash; `word` is the current word with its quoting removed. */
  datatype Mode = Between | InWord(word: string) | Quoted(word: string) | Escaped(word: string)

  /** Characters that must be quoted to represent themselves (section 2.2), or
      may need to be; an unquoted one makes the line more than a list of words. */
  predicate Special(c: char) {
    c in "|&;<>()$`\"*?[]#~!{}^\n"
  }

  predicate Blank(c: char) {
    c == ' ' || c == '\t'
  }

  /** The words of a simple command without expansions; `None` when the line
      holds an unquoted special character or unfinished quoting. */
  function Words(mode: Mode, line: string): Option<seq<string>>
    decreases |line|
  {
    if line == [] then
      match mode
      case Between => Some([])
      case InWord(w) => Some([w])
      case _ => None
    else
      var c, rest := line[0], line[1..];
      match mode
      case Quoted(w) => if c == '\'' then Words(InWord(w), rest) else Words(Quoted(w + [c]), rest)
      case Escaped(w) => if c == '\n' then None else Words(InWord(w + [c]), rest)
      case Between =>
        if Blank(c) then Words(Between, rest)
        else if c == '\'' then Words(Quoted(""), rest)
        else if c == '\\' then Words(Escaped(""), rest)
        else if Special(c) then None
        else Words(InWord([c]), rest)
      case InWord(w) =>
        if Blank(c) then
          (match Words(Between, rest)
           case Some(ws) => Some([w] + ws)
           case None => None)
        else if c == '\'' then Words(Quoted(w), rest)
        else if c == '\\' then Words(Escaped(w), rest)
        else if Special(c) then None
        else Words(InWord(w + [c]), rest)
  }

  lemma {:induction false} PlainCharIsOrdinary(c: char)
    requires PlainChar(c)
    ensures !Blank(c) && c != '\'' && c != '\\' && !Special(c)
  {
  }

  /** Reading the plain word `w` inside a word appends it. */
  lemma {:induction false} ReadPlain(acc: string, w: string, rest: string)
    requires forall i :: 0 <= i < |w| ==> PlainChar(w[i])
    ensures Words(InWord(acc), w + rest) == Words(InWord(acc + w), rest)
    decreases |w|
  {
    if w == [] {
      assert w + rest == rest && acc + w == acc;
    } else {
      hide PlainChar;
      PlainCharIsOrdinary(w[0]);
      assert (w + rest)[1..] == w[1..] + rest;
      ReadPlain(acc + [w[0]], w[1..], rest);
      assert acc + [w[0]] + w[1..] == acc + w;
    }
  }

  lemma {:induction false} ReadEscapedQuote(acc: string, rest: string)
    ensures Words(Quoted(acc), "'\\''" + rest) == Words(Quoted(acc + ['\'']), rest)
  {
    var q := "'\\''" + rest;
    assert q[1..] == "\\''" + rest && q[2..] == "''" + rest && q[3..] == "'" + rest && q[4..] == rest;
    assert q[1..][1..] == q[2..] && q[2..][1..] == q[3..] && q[3..][1..] == q[4..];
    assert Words(Quoted(acc), q) == Words(InWord(acc), q[1..]);
    assert Words(InWord(acc), q[1..]) == Words(Escaped(acc), q[2..]);
    assert Words(Escaped(acc), q[2..]) == Words(InWord(acc + ['\'']), q[3..]);
  }

  /** Reading an escaped body inside single quotes gives back the characters. */
  lemma {:induction false} ReadQuoted(acc: string, w: string, rest: string)
    ensures Words(Quoted(acc), EscapeQuotes(w) + "'" + rest) == Words(InWord(acc + w), rest)
    decreases |w|
  {
    if w == [] {
      assert EscapeQuotes(w) + "'" + rest == "'" + rest && ("'" + rest)[1..] == rest && acc + w == acc;
    } else {
      var tail := EscapeQuotes(w[1..]) + "'" + rest;
      ReadQuoted(acc + [w[0]], w[1..], rest);
      assert acc + [w[0]] + w[1..] == acc + w;
      if w[0] == '\'' {
        assert EscapeQuotes(w) + "'" + rest == "'\\''" + tail;
        ReadEscapedQuote(acc, tail);
      } else {
        assert EscapeQuotes(w) + "'" + rest == [w[0]] + tail;
        assert ([w[0]] + tail)[1..] == tail;
      }
    }
  }

  /** One joined word is read back as that word. */
  lemma {:induction false} ReadWord(w: string, rest: string)
    ensures Words(Between, ShellWord(w) + rest) == Words(InWord(w), rest)
  {
    if Plain(w) {
      assert w + rest == [w[0]] + (w[1..] + rest);
      PlainCharIsOrdinary(w[0]);
      assert (w + rest)[1..] == w[1..] + rest;
      ReadPlain([w[0]], w[1..], rest);
      assert [w[0]] + w[1..] == w;
    } else {
      var body := EscapeQuotes(w) + "'" + rest;
      assert ShellWord(w) + rest == "'" + body;
      assert ("'" + body)[1..] == body;
      ReadQuoted("", w, rest);
      assert "" + w == w;
    }
  }

  /** The shell reads a joined command line back as exactly its words. */
  lemma {:induction false} JoinIsRead(words: seq<string>)
    ensures Words(Between, ShellJoin(words)) == Some(words)
    decreases |words|
  {
    if words == [] {
    } else if |words| == 1 {
      ReadWord(words[0], "");
      assert ShellWord(words[0]) + "" == ShellWord(words[0]) && words == [words[0]];
    } else {
      var rest := " " + ShellJoin(words[1..]);
      assert ShellJoin(words) == ShellWord(words[0]) + rest;
      ReadWord(words[0], rest);
      assert rest[1..] == ShellJoin(words[1..]);
      JoinIsRead(words[1..]);
      assert [words[0]] + words[1..] == words;
    }
  }

  /** Different word lists give different command lines. */
  lemma {:induction false} JoinInjective(a: seq<string>, b: seq<string>)
    requires ShellJoin(a) == ShellJoin(b)
    ensures a == b
  {
    JoinIsRead(a);
    JoinIsRead(b);
  }

  /** Quoting happens only where needed: the bare words would be read back
      exactly when none of them had to be quoted. */
  lemma {:induction false} PlainUnchanged(w: string)
    ensures ShellWord(w) == w <==> Plain(w)
  {
    if !Plain(w) {
      EscapeLonger(w);
    }
  }

  lemma {:induction false} EscapeLonger(w: string)
    ensures |EscapeQuotes(w)| >= |w|
  {
    if w != [] {
      EscapeLonger(w[1..]);
    }
  }
}
