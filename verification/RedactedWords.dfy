/** Position by position, which words of a command line are kept out of a
    snapshot (src/snapshot.rs). */
module RedactedWords {
  import opened Wrappers
  import opened Snapshots

  /** `*SUFFIX=`, as opposed to a flag. */
  ghost predicate SuffixOf(p: string, suffix: string) {
    p == "*" + suffix + "="
  }

  /** The word is `NAME=value` with a name ending in the suffix, the name being
      what comes before the first `=`. */
  ghost predicate Assigns(w: string, suffix: string) {
    exists name: string, value: string :: w == name + "=" + value && '=' !in name && EndsIn(name, suffix)
  }

  ghost predicate EndsIn(name: string, suffix: string) {
    exists start: string :: name == start + suffix
  }

  /** A pattern names the word: the flag itself or `flag=value`, or a name ending
      in a suffix. */
  ghost predicate Named(w: string, p: string) {
    if exists suffix :: SuffixOf(p, suffix) then exists suffix :: SuffixOf(p, suffix) && Assigns(w, suffix)
    else w == p || p + "=" <= w
  }

  ghost predicate NamedByAny(w: string, patterns: seq<string>) {
    exists k :: 0 <= k < |patterns| && Named(w, patterns[k])
  }

  /** The word is a flag whose value is the next word. */
  ghost predicate IsFlag(w: string, patterns: seq<string>) {
    exists k :: 0 <= k < |patterns| && patterns[k] == w && !exists suffix :: SuffixOf(w, suffix)
  }

  /** The word at `i` is the value of the flag before it. */
  ghost predicate IsValue(argv: seq<string>, patterns: seq<string>, i: nat)
    requires i < |argv|
  {
    i > 0 && IsFlag(argv[i - 1], patterns) && !IsValue(argv, patterns, i - 1)
  }

  ghost predicate Stays(argv: seq<string>, patterns: seq<string>, i: nat)
    requires i < |argv|
  {
    !IsValue(argv, patterns, i) && !NamedByAny(argv[i], patterns)
  }

  ghost function Staying(argv: seq<string>, patterns: seq<string>, n: nat): seq<string>
    requires n <= |argv|
  {
    if n == 0 then [] else
    Staying(argv, patterns, n - 1) + if Stays(argv, patterns, n - 1) then [argv[n - 1]] else []
  }

  // ---- The patterns --------------------------------------------------------

  lemma {:induction false} SuffixPatternIs(p: string)
    ensures SuffixPattern(p) <==> exists suffix :: SuffixOf(p, suffix)
    ensures SuffixPattern(p) ==> |p| >= 2 && SuffixOf(p, p[1..|p| - 1])
    ensures forall suffix :: SuffixOf(p, suffix) ==> suffix == p[1..|p| - 1]
  {
    if SuffixPattern(p) {
      assert p == "*" + p[1..|p| - 1] + "=";
      assert SuffixOf(p, p[1..|p| - 1]);
    }
    forall suffix | SuffixOf(p, suffix)
      ensures SuffixPattern(p) && suffix == p[1..|p| - 1]
    {
    }
  }

  lemma {:induction false} NameIs(w: string)
    ensures NameOf(w).Some? ==> '=' !in NameOf(w).value && NameOf(w).value + "=" <= w
    ensures NameOf(w).None? ==> '=' !in w
  {
    if w != [] && w[0] != '=' {
      NameIs(w[1..]);
      if NameOf(w[1..]).Some? {
        var n := NameOf(w[1..]).value;
        assert w == [w[0]] + w[1..] && [w[0]] + n + "=" == [w[0]] + (n + "=");
      }
    }
  }

  lemma {:induction false} NameUnique(w: string, name: string, value: string)
    requires w == name + "=" + value && '=' !in name
    ensures NameOf(w) == Some(name)
  {
    if name == [] {
      assert w[0] == '=';
    } else {
      assert w[0] == name[0] && w[0] in name && w[1..] == name[1..] + "=" + value;
      assert forall c :: c in name[1..] ==> c in name;
      NameUnique(w[1..], name[1..], value);
      assert [w[0]] + name[1..] == name;
    }
  }

  lemma {:induction false} AssignsIff(w: string, suffix: string)
    ensures Assigns(w, suffix) <==> NameOf(w).Some? && EndsWith(NameOf(w).value, suffix)
  {
    NameIs(w);
    if Assigns(w, suffix) {
      var name: string, value: string :| w == name + "=" + value && '=' !in name && EndsIn(name, suffix);
      NameUnique(w, name, value);
      var start: string :| name == start + suffix;
      assert |name| == |start| + |suffix| && name[|start|..] == suffix;
    }
    if NameOf(w).Some? && EndsWith(NameOf(w).value, suffix) {
      var name := NameOf(w).value;
      assert name == name[..|name| - |suffix|] + suffix;
      assert w == name + "=" + w[|name| + 1..];
    }
  }

  lemma {:induction false} NamedIff(w: string, p: string)
    ensures Named(w, p) <==> SecretBy(w, p)
  {
    SuffixPatternIs(p);
    hide SuffixPattern, NameOf, Assigns, SuffixOf, EndsWith;
    if SuffixPattern(p) {
      AssignsIff(w, p[1..|p| - 1]);
    }
  }

  lemma {:induction false} SecretIff(w: string, patterns: seq<string>)
    ensures Secret(w, patterns) <==> NamedByAny(w, patterns)
    ensures TakesSecret(w, patterns) <==> IsFlag(w, patterns)
  {
    forall k | 0 <= k < |patterns|
      ensures Named(w, patterns[k]) <==> SecretBy(w, patterns[k])
    {
      NamedIff(w, patterns[k]);
    }
    SuffixPatternIs(w);
    hide Named, SecretBy, SuffixPattern, SuffixOf;
  }

  // ---- The words -----------------------------------------------------------

  lemma {:induction false} RedactedFirst(argv: seq<string>, patterns: seq<string>, i: nat)
    requires i < |argv|
    ensures TakesSecret(argv[i], patterns) ==>
              Redacted(argv[i..], patterns) == Redacted(if i + 1 < |argv| then argv[i + 2..] else [], patterns)
    ensures !TakesSecret(argv[i], patterns) ==>
              Redacted(argv[i..], patterns)
              == (if Secret(argv[i], patterns) then [] else [argv[i]]) + Redacted(argv[i + 1..], patterns)
  {
    hide TakesSecret, Secret;
    assert argv[i..][0] == argv[i] && argv[i..][1..] == argv[i + 1..];
    if i + 1 < |argv| {
      assert argv[i..][2..] == argv[i + 2..];
    }
    assert [] + Redacted(argv[i + 1..], patterns) == Redacted(argv[i + 1..], patterns);
  }

  lemma {:induction false} StayingNext(argv: seq<string>, patterns: seq<string>, i: nat)
    requires i < |argv| && !IsValue(argv, patterns, i)
    ensures Staying(argv, patterns, i + 1)
            == Staying(argv, patterns, i) + if NamedByAny(argv[i], patterns) then [] else [argv[i]]
    ensures i + 1 < |argv| ==> (IsValue(argv, patterns, i + 1) <==> IsFlag(argv[i], patterns))
    ensures i + 1 < |argv| && IsFlag(argv[i], patterns) ==>
              Staying(argv, patterns, i + 2) == Staying(argv, patterns, i + 1)
              && (i + 2 < |argv| ==> !IsValue(argv, patterns, i + 2))
  {
    hide NamedByAny, IsFlag;
    var kept := Staying(argv, patterns, i + 1);
    assert kept + [] == kept;
  }

  /** From a word that is no value on, redacting adds the words that stay. */
  lemma {:induction false} RestStays(argv: seq<string>, patterns: seq<string>, i: nat)
    requires i <= |argv| && (i < |argv| ==> !IsValue(argv, patterns, i))
    ensures Staying(argv, patterns, i) + Redacted(argv[i..], patterns) == Staying(argv, patterns, |argv|)
    decreases |argv| - i
  {
    if i == |argv| {
      assert Redacted(argv[i..], patterns) == [];
    } else {
      hide *;
      var w := argv[i];
      var more := if NamedByAny(w, patterns) then [] else [w];
      SecretIff(w, patterns);
      TakingIsSecret(w, patterns);
      RedactedFirst(argv, patterns, i);
      StayingNext(argv, patterns, i);
      if TakesSecret(w, patterns) && i + 1 < |argv| {
        RestStays(argv, patterns, i + 2);
        NothingAdded(Staying(argv, patterns, i));
      } else {
        RestStays(argv, patterns, i + 1);
        LastFlag(argv, patterns, i);
        ConcatAssoc(Staying(argv, patterns, i), more, Redacted(argv[i + 1..], patterns));
      }
    }
  }

  lemma {:induction false} NothingAdded(kept: seq<string>)
    ensures kept + [] == kept
  {
  }

  /** A flag at the very end has no value to go with it. */
  lemma {:induction false} LastFlag(argv: seq<string>, patterns: seq<string>, i: nat)
    requires i < |argv| && (TakesSecret(argv[i], patterns) ==> i + 1 == |argv|)
    ensures TakesSecret(argv[i], patterns) ==> Redacted(argv[i..], patterns) == [] + Redacted(argv[i + 1..], patterns)
  {
    hide Secret, TakesSecret;
    if TakesSecret(argv[i], patterns) {
      RedactedFirst(argv, patterns, i);
      assert argv[i + 1..] == [];
    }
  }

  /** A snapshot keeps exactly the words that no pattern names and that are not the
      value of a flag before them, in order. */
  lemma {:induction false} RedactedIsStaying(argv: seq<string>, patterns: seq<string>)
    ensures Redacted(argv, patterns) == Staying(argv, patterns, |argv|)
  {
    RestStays(argv, patterns, 0);
    assert argv[0..] == argv;
    assert [] + Redacted(argv, patterns) == Redacted(argv, patterns);
  }
}
