/** How tmux reads the words of one invocation as a list of commands, and the
    numbers in ids and idle times. */
module TmuxArgs {

  // ---- Command lists -------------------------------------------------------

  /** A word ending in `;` ends its command, without the `;`; one ending in `\;`
      stands for itself with a plain `;` at its end. */
  predicate Ends(word: string) {
    word != [] && word[|word| - 1] == ';' && !(|word| >= 2 && word[|word| - 2] == '\\')
  }

  function Text(word: string): string {
    if word == [] || word[|word| - 1] != ';' then word
    else if Ends(word) then word[..|word| - 1]
    else word[..|word| - 2] + ";"
  }

  /** The words this one adds to its command. */
  function Added(word: string): seq<string> {
    if Ends(word) && Text(word) == [] then [] else [Text(word)]
  }

  /** The commands of `args`, `current` being what the first one has so far. A
      separator without a command before it gives an empty command. */
  function Commands(current: seq<string>, args: seq<string>): seq<seq<string>>
    decreases |args|
  {
    if args == [] then if current == [] then [] else [current]
    else if Ends(args[0]) then [current + Added(args[0])] + Commands([], args[1..])
    else Commands(current + Added(args[0]), args[1..])
  }

  /** tmux runs none of the commands when one of them is empty. */
  function Parsed(args: seq<string>): seq<seq<string>> {
    var cs := Commands([], args);
    if exists i :: 0 <= i < |cs| && cs[i] == [] then [] else cs
  }

  /** Commands separated by a word `;` each. */
  function Joined(cs: seq<seq<string>>): seq<string> {
    if cs == [] then [] else if |cs| == 1 then cs[0] else cs[0] + ([";"] + Joined(cs[1..]))
  }

  /** A word tmux takes as it is. */
  predicate Verbatim(word: string) {
    word == [] || word[|word| - 1] != ';'
  }

  predicate AllVerbatim(words: seq<string>) {
    forall i :: 0 <= i < |words| ==> Verbatim(words[i])
  }

  lemma {:induction false} VerbatimIff(word: string)
    ensures Verbatim(word) <==> !Ends(word) && Text(word) == word
    ensures word != [] && !Ends(word) ==> Text(word) != []
  {
    if !Verbatim(word) && !Ends(word) {
      assert |Text(word)| == |word| - 1;
    }
  }

  predicate NoneEnds(words: seq<string>) {
    forall i :: 0 <= i < |words| ==> !Ends(words[i])
  }

  function Texts(words: seq<string>): (ts: seq<string>)
    ensures |ts| == |words| && forall i :: 0 <= i < |words| ==> ts[i] == Text(words[i])
  {
    seq(|words|, i requires 0 <= i < |words| => Text(words[i]))
  }

  lemma {:induction false} TextsVerbatim(words: seq<string>)
    requires AllVerbatim(words)
    ensures NoneEnds(words) && Texts(words) == words
  {
    forall i | 0 <= i < |words|
      ensures !Ends(words[i]) && Text(words[i]) == words[i]
    {
      VerbatimIff(words[i]);
    }
  }

  lemma {:induction false} ReadWords(current: seq<string>, words: seq<string>, rest: seq<string>)
    requires NoneEnds(words)
    ensures Commands(current, words + rest) == Commands(current + Texts(words), rest)
    decreases |words|
  {
    if words == [] {
      assert words + rest == rest && current + Texts(words) == current;
    } else {
      assert !Ends(words[0]) && Added(words[0]) == [Text(words[0])];
      assert (words + rest)[1..] == words[1..] + rest;
      ReadWords(current + [Text(words[0])], words[1..], rest);
      assert current + [Text(words[0])] + Texts(words[1..]) == current + Texts(words);
    }
  }

  /** Adding a command at the end. */
  lemma {:induction false} JoinedMore(cs: seq<seq<string>>, c: seq<string>)
    ensures Joined(cs + [c]) == if cs == [] then c else Joined(cs) + [";"] + c
    decreases |cs|
  {
    if |cs| > 1 {
      assert (cs + [c])[1..] == cs[1..] + [c];
      JoinedMore(cs[1..], c);
    } else if |cs| == 1 {
      assert (cs + [c])[1..] == [c];
    } else {
      assert cs + [c] == [c];
    }
  }

  lemma {:induction false} ReadFirst(first: seq<string>, rest: seq<string>)
    requires NoneEnds(first)
    ensures Commands([], first + ([";"] + rest)) == [Texts(first)] + Commands([], rest)
    ensures Commands([], first) == if first == [] then [] else [Texts(first)]
  {
    var more, texts := [";"] + rest, Texts(first);
    assert Added(";") == [] && Ends(";") && more[1..] == rest && texts + [] == texts;
    assert Commands(texts, more) == [texts] + Commands([], rest);
    assert Commands(texts, []) == if texts == [] then [] else [texts];
    hide Commands, Texts, Ends, Added;
    assert [] + texts == texts && first + [] == first;
    ReadWords([], first, more);
    ReadWords([], first, []);
  }

  /** Commands none of whose words ends one. */
  ghost predicate Separable(cs: seq<seq<string>>) {
    forall i :: 0 <= i < |cs| ==> cs[i] != [] && NoneEnds(cs[i])
  }

  function AllTexts(cs: seq<seq<string>>): (ts: seq<seq<string>>)
    ensures |ts| == |cs| && forall i :: 0 <= i < |cs| ==> ts[i] == Texts(cs[i])
  {
    seq(|cs|, i requires 0 <= i < |cs| => Texts(cs[i]))
  }

  /** tmux reads joined commands back, each word as its text. */
  lemma {:induction false} JoinedIsRead(cs: seq<seq<string>>)
    requires Separable(cs)
    ensures Commands([], Joined(cs)) == AllTexts(cs) && Parsed(Joined(cs)) == AllTexts(cs)
    decreases |cs|
  {
    if cs != [] {
      assert AllTexts(cs) == [Texts(cs[0])] + AllTexts(cs[1..]);
      if |cs| == 1 {
        ReadFirst(cs[0], []);
      } else {
        assert Separable(cs[1..]);
        JoinedIsRead(cs[1..]);
        ReadFirst(cs[0], Joined(cs[1..]));
      }
    }
  }

  ghost predicate Plain(cs: seq<seq<string>>) {
    forall i :: 0 <= i < |cs| ==> cs[i] != [] && AllVerbatim(cs[i])
  }

  lemma {:induction false} PlainIsRead(cs: seq<seq<string>>)
    requires Plain(cs)
    ensures Separable(cs) && AllTexts(cs) == cs && Parsed(Joined(cs)) == cs
  {
    forall i | 0 <= i < |cs|
      ensures NoneEnds(cs[i]) && Texts(cs[i]) == cs[i]
    {
      TextsVerbatim(cs[i]);
    }
    JoinedIsRead(cs);
  }

  // ---- Calls tmux refuses --------------------------------------------------

  ghost predicate HasEmpty(cs: seq<seq<string>>) {
    exists i :: 0 <= i < |cs| && cs[i] == []
  }

  lemma {:induction false} HasEmptyAfter(a: seq<seq<string>>, b: seq<seq<string>>)
    requires HasEmpty(b)
    ensures HasEmpty(a + b)
  {
    var i :| 0 <= i < |b| && b[i] == [];
    assert (a + b)[|a| + i] == [];
  }

  /** Reading words leaves some commands and the start of the next one, which is
      empty when the last word ended its command. */
  lemma {:induction false} ReadPast(current: seq<string>, words: seq<string>, rest: seq<string>)
    returns (before: seq<seq<string>>, after: seq<string>)
    ensures Commands(current, words + rest) == before + Commands(after, rest)
    ensures words != [] && Ends(words[|words| - 1]) ==> after == []
    decreases |words|
  {
    if words == [] {
      before, after := [], current;
      assert words + rest == rest && [] + Commands(current, rest) == Commands(current, rest);
    } else {
      assert (words + rest)[1..] == words[1..] + rest;
      if Ends(words[0]) {
        if |words| == 1 {
          before, after := [current + Added(words[0])], [];
          assert words[1..] + rest == rest;
        } else {
          before, after := ReadPast([], words[1..], rest);
          before := [current + Added(words[0])] + before;
        }
      } else {
        before, after := ReadPast(current + Added(words[0]), words[1..], rest);
      }
    }
  }

  /** A command, other than the last, whose last word ends it: the separator after
      it makes an empty command and tmux runs none of them. */
  lemma {:induction false} EndedTwiceIsRefused(cs: seq<seq<string>>, i: nat)
    requires i + 1 < |cs| && cs[i] != [] && Ends(cs[i][|cs[i]| - 1])
    ensures Parsed(Joined(cs)) == []
  {
    EndedTwice(cs, i, []);
  }

  lemma {:induction false} EndedTwice(cs: seq<seq<string>>, i: nat, current: seq<string>)
    requires i + 1 < |cs| && cs[i] != [] && Ends(cs[i][|cs[i]| - 1])
    ensures HasEmpty(Commands(current, Joined(cs)))
    decreases i
  {
    var rest := [";"] + Joined(cs[1..]);
    assert Added(";") == [] && Ends(";") && rest[1..] == Joined(cs[1..]);
    var before, after := ReadPast(current, cs[0], rest);
    assert after + [] == after;
    assert Commands(after, rest) == [after] + Commands([], Joined(cs[1..]));
    if i == 0 {
      assert ([after] + Commands([], Joined(cs[1..])))[0] == [];
    } else {
      assert cs[1..][i - 1] == cs[i];
      EndedTwice(cs[1..], i - 1, []);
      HasEmptyAfter([after], Commands([], Joined(cs[1..])));
    }
    HasEmptyAfter(before, Commands(after, rest));
  }

  // ---- Numbers -------------------------------------------------------------

  const DIGITS := "0123456789"

  function Decimal(n: nat): (text: string)
    ensures text != [] && forall i :: 0 <= i < |text| ==> text[i] in DIGITS
  {
    if n < 10 then [DIGITS[n]] else Decimal(n / 10) + [DIGITS[n % 10]]
  }

  /** The number a decimal text stands for. */
  function ValueOf(text: string): nat
    requires forall i :: 0 <= i < |text| ==> text[i] in DIGITS
  {
    if text == [] then 0 else
    10 * ValueOf(text[..|text| - 1]) + (text[|text| - 1] as int - '0' as int)
  }

  lemma {:induction false} DecimalReads(n: nat)
    ensures ValueOf(Decimal(n)) == n
  {
    if n < 10 {
      assert Decimal(n)[..0] == [];
    } else {
      DecimalReads(n / 10);
      assert Decimal(n)[..|Decimal(n)| - 1] == Decimal(n / 10);
    }
  }

  /** A window id as tmux prints it. */
  function Target(id: nat): string {
    "@" + Decimal(id)
  }

  lemma {:induction false} TargetInjective(a: nat, b: nat)
    requires Target(a) == Target(b)
    ensures a == b
  {
    assert Target(a)[1..] == Decimal(a) && Target(b)[1..] == Decimal(b);
    DecimalReads(a);
    DecimalReads(b);
  }

  lemma {:induction false} TargetIsVerbatim(id: nat)
    ensures Verbatim(Target(id))
  {
    var d := Decimal(id);
    assert d[|d| - 1] in DIGITS;
  }
}
