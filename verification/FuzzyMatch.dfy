/** Fuzzy matching of branch names (src/app.rs): the greedy scan finds the
    leftmost way to match, and the picker ranks exactly the matches. Strings are
    lower-cased and the query is trimmed already; `length` is the candidate's
    length as it is displayed. */
module FuzzyMatch {
  import opened Wrappers

  /** `at` are ascending positions of `candidate` holding the characters of `query`. */
  ghost predicate Embeds(at: seq<nat>, query: string, candidate: string) {
    && |at| == |query|
    && (forall k :: 0 <= k < |at| ==> at[k] < |candidate| && candidate[at[k]] == query[k])
    && (forall j, k :: 0 <= j < k < |at| ==> at[j] < at[k])
  }

  /** No position of any embedding is further left. */
  ghost predicate Leftmost(at: seq<nat>, query: string, candidate: string) {
    Embeds(at, query, candidate) && forall other: seq<nat> :: Embeds(other, query, candidate) ==> AllBefore(at, other)
  }

  ghost predicate AllBefore(a: seq<nat>, b: seq<nat>) {
    |a| == |b| && forall k :: 0 <= k < |a| ==> a[k] <= b[k]
  }

  /** An early first match, then few characters skipped between the matches, then
      a short candidate. */
  function Score(at: seq<nat>, length: nat): int {
    if at == [] then 0 else
    at[0] * 4 + (at[|at| - 1] - at[0] - (|at| - 1)) * 2 + length / 10
  }

  /** The score of the leftmost embedding; `None` when the query isn't a
      subsequence of the candidate. */
  ghost function ScoreOf(query: string, candidate: string, length: nat): (r: Option<int>)
    ensures r.Some? ==> exists at :: Leftmost(at, query, candidate) && r.value == Score(at, length)
  {
    if at :| Leftmost(at, query, candidate) then Some(Score(at, length)) else None
  }

  lemma {:induction false} LeftmostUnique(a: seq<nat>, b: seq<nat>, query: string, candidate: string)
    requires Leftmost(a, query, candidate) && Leftmost(b, query, candidate)
    ensures a == b
  {
    assert AllBefore(a, b) && AllBefore(b, a);
  }

  lemma {:induction false} LeftmostScore(at: seq<nat>, query: string, candidate: string, length: nat)
    requires Leftmost(at, query, candidate)
    ensures ScoreOf(query, candidate, length) == Some(Score(at, length))
  {
    forall other | Leftmost(other, query, candidate)
      ensures other == at
    {
      LeftmostUnique(at, other, query, candidate);
    }
    hide Leftmost;
  }

  lemma {:induction false} EmbedsPrefix(at: seq<nat>, query: string, candidate: string, i: nat)
    requires Embeds(at, query, candidate) && i <= |query|
    ensures Embeds(at[..i], query[..i], candidate)
  {
  }

  /** The next character found first at `p`: the embedding grows and is leftmost. */
  lemma {:induction false} LeftmostGrows(at: seq<nat>, query: string, candidate: string, i: nat, p: nat)
    requires i < |query| && Leftmost(at, query[..i], candidate)
    requires p < |candidate| && candidate[p] == query[i] && (at == [] || at[|at| - 1] < p)
    requires forall k :: (if at == [] then 0 else at[|at| - 1] + 1) <= k < p ==> candidate[k] != query[i]
    ensures Leftmost(at + [p], query[..i + 1], candidate)
  {
    var more := at + [p];
    forall other | Embeds(other, query[..i + 1], candidate)
      ensures AllBefore(more, other)
    {
      EmbedsPrefix(other, query[..i + 1], candidate, i);
      assert query[..i + 1][..i] == query[..i];
      assert AllBefore(at, other[..i]);
      assert forall k :: 0 <= k < i ==> at[k] <= other[k];
    }
  }

  lemma {:induction false} NextIsLater(at: seq<nat>, other: seq<nat>, query: string, candidate: string, i: nat)
    requires i < |query| && Leftmost(at, query[..i], candidate) && Embeds(other, query, candidate)
    ensures (if at == [] then 0 else at[|at| - 1] + 1) <= other[i] < |candidate| && candidate[other[i]] == query[i]
  {
    EmbedsPrefix(other, query, candidate, i);
    assert AllBefore(at, other[..i]);
    assert i > 0 ==> at[i - 1] <= other[..i][i - 1];
  }

  /** The next character isn't there any more: there is no embedding at all. */
  lemma {:induction false} NoEmbedding(at: seq<nat>, query: string, candidate: string, i: nat)
    requires i < |query| && Leftmost(at, query[..i], candidate)
    requires forall k :: (if at == [] then 0 else at[|at| - 1] + 1) <= k < |candidate| ==> candidate[k] != query[i]
    ensures forall other :: !Embeds(other, query, candidate)
  {
    hide Leftmost;
    forall other | Embeds(other, query, candidate)
      ensures false
    {
      NextIsLater(at, other, query, candidate, i);
    }
  }

  /** Score of `query` in `candidate`, lower is better. It is found exactly when
      the query is a subsequence of the candidate, and is that of the leftmost
      embedding. */
  method FuzzyScore(query: string, candidate: string, length: nat) returns (r: Option<int>)
    ensures r == ScoreOf(query, candidate, length)
    ensures r.Some? <==> exists at :: Embeds(at, query, candidate)
    ensures r.Some? ==> exists at :: Leftmost(at, query, candidate) && r.value == Score(at, length)
  {
    if query == [] {
      assert Leftmost([], query, candidate);
      LeftmostScore([], query, candidate, length);
      return Some(0);
    }
    var ci := 0;
    var first: Option<nat>, prev: Option<nat> := None, None;
    var gaps := 0;
    ghost var at: seq<nat> := [];
    assert Leftmost([], query[..0], candidate);
    for i := 0 to |query|
      invariant Leftmost(at, query[..i], candidate) && |at| == i
      invariant ci == (if i == 0 then 0 else at[i - 1] + 1) <= |candidate|
      invariant first == (if i == 0 then None else Some(at[0]))
      invariant prev == (if i == 0 then None else Some(at[i - 1]))
      invariant gaps == if i == 0 then 0 else at[i - 1] - at[0] - (i - 1)
    {
      hide Leftmost;
      var qc := query[i];
      var found := false;
      ghost var start := ci;
      while ci < |candidate|
        invariant start <= ci <= |candidate|
        invariant forall k :: start <= k < ci ==> candidate[k] != qc
        invariant !found
      {
        var matched := candidate[ci] == qc;
        ci := ci + 1;
        if matched {
          var p := ci - 1;
          LeftmostGrows(at, query, candidate, i, p);
          if first.None? {
            first := Some(p);
          }
          if prev.Some? {
            gaps := gaps + (p - prev.value - 1);
          }
          prev := Some(p);
          at := at + [p];
          found := true;
          break;
        }
      }
      if !found {
        NoEmbedding(at, query, candidate, i);
        NothingScored(query, candidate, length);
        return None;
      }
    }
    assert query[..|query|] == query;
    LeftmostScore(at, query, candidate, length);
    var f := if first.Some? then first.value else 0;
    r := Some(f * 4 + gaps * 2 + length / 10);
  }

  lemma {:induction false} NothingScored(query: string, candidate: string, length: nat)
    requires forall other :: !Embeds(other, query, candidate)
    ensures ScoreOf(query, candidate, length) == None
  {
  }

  /** No match of a query is better than one at the very start without gaps, which
      scores by the length alone. */
  lemma {:induction false} PrefixIsBest(at: seq<nat>, query: string, candidate: string, length: nat)
    requires query != [] && Embeds(at, query, candidate)
    ensures Score(at, length) >= length / 10
    ensures Score(at, length) == length / 10 <==> query <= candidate && forall k :: 0 <= k < |at| ==> at[k] == k
  {
    Spread(at, query, candidate);
    if forall k :: 0 <= k < |at| ==> at[k] == k {
      assert at[0] == 0 && at[|at| - 1] == |at| - 1;
      assert candidate[..|query|] == query;
    }
  }

  /** Positions are at least as far apart as their places, and consecutive when no
      further. */
  lemma {:induction false} Spread(at: seq<nat>, query: string, candidate: string)
    requires Embeds(at, query, candidate) && at != []
    ensures at[|at| - 1] - at[0] >= |at| - 1
    ensures at[|at| - 1] - at[0] == |at| - 1 ==> forall k :: 0 <= k < |at| ==> at[k] == at[0] + k
  {
    if |at| > 1 {
      var front := at[..|at| - 1];
      EmbedsPrefix(at, query, candidate, |at| - 1);
      Spread(front, query[..|at| - 1], candidate);
      assert front[|front| - 1] < at[|at| - 1];
    }
  }

  // ---- The branch picker ---------------------------------------------------

  /** A branch, lower-cased, and its displayed length. */
  datatype Branch = Branch(name: string, lower: string, length: nat)

  datatype Scored = Scored(score: int, index: nat)

  predicate Before(a: Scored, b: Scored) {
    a.score < b.score || (a.score == b.score && a.index < b.index)
  }

  ghost predicate Ranked(list: seq<Scored>) {
    forall i, j :: 0 <= i < j < |list| ==> Before(list[i], list[j])
  }

  function Insert(list: seq<Scored>, x: Scored): seq<Scored> {
    if list == [] then [x] else if Before(x, list[0]) then [x] + list else [list[0]] + Insert(list[1..], x)
  }

  lemma {:induction false} InsertRanks(list: seq<Scored>, x: Scored)
    requires Ranked(list) && forall y :: y in list ==> y.index != x.index
    ensures Ranked(Insert(list, x)) && forall y :: y in Insert(list, x) <==> y == x || y in list
  {
    if list != [] && !Before(x, list[0]) {
      var more := Insert(list[1..], x);
      InsertRanks(list[1..], x);
      forall i | 0 <= i < |more|
        ensures Before(list[0], more[i])
      {
        assert more[i] in more;
        if more[i] != x {
          var k :| 0 <= k < |list[1..]| && list[1..][k] == more[i];
          assert list[k + 1] == more[i];
        } else {
          assert list[0] in list;
        }
      }
    } else if list != [] {
      assert forall i :: 0 <= i < |list| ==> Before(x, list[i]);
    }
  }

  /** The query matches the branch with this score. */
  ghost predicate Scores(query: string, branches: seq<Branch>, x: Scored) {
    x.index < |branches| && ScoreOf(query, branches[x.index].lower, branches[x.index].length) == Some(x.score)
  }

  /** The matches are these: every branch the query matches, by score and then by
      position. */
  ghost predicate Matches(matches: seq<string>, ranked: seq<Scored>, query: string, branches: seq<Branch>) {
    && Ranked(ranked) && |matches| == |ranked|
    && (forall k :: 0 <= k < |ranked| ==> ranked[k].index < |branches| && matches[k] == branches[ranked[k].index].name)
    && (forall x :: x in ranked <==> Scores(query, branches, x))
  }

  method FilteredBranches(query: string, branches: seq<Branch>) returns (matches: seq<string>)
    ensures exists ranked :: Matches(matches, ranked, query, branches)
  {
    hide ScoreOf;
    var scored: seq<Scored> := [];
    for i := 0 to |branches|
      invariant Ranked(scored)
      invariant forall x :: x in scored <==> x.index < i && Scores(query, branches, x)
    {
      var r := FuzzyScore(query, branches[i].lower, branches[i].length);
      if r.Some? {
        InsertRanks(scored, Scored(r.value, i));
        scored := Insert(scored, Scored(r.value, i));
      }
    }
    matches := [];
    for k := 0 to |scored|
      invariant |matches| == k
      invariant forall j :: 0 <= j < k ==> scored[j].index < |branches| && matches[j] == branches[scored[j].index].name
    {
      assert scored[k] in scored;
      matches := matches + [branches[scored[k].index].name];
    }
    assert Matches(matches, scored, query, branches);
  }

  /** With an empty query every branch is listed, in list order. */
  lemma {:induction false} EmptyQueryListsAll(matches: seq<string>, branches: seq<Branch>, ranked: seq<Scored>)
    requires Matches(matches, ranked, "", branches)
    ensures |matches| == |branches| && forall k :: 0 <= k < |branches| ==> matches[k] == branches[k].name
  {
    forall x
      ensures x in ranked <==> x.index < |branches| && x.score == 0
    {
      if x.index < |branches| {
        var b := branches[x.index];
        assert Leftmost([], "", b.lower);
        LeftmostScore([], "", b.lower, b.length);
      }
    }
    RankedIsIdentity(ranked, |branches|);
  }

  ghost predicate ListsZeros(ranked: seq<Scored>, n: nat) {
    forall x :: x in ranked <==> x.index < n && x.score == 0
  }

  lemma {:induction false} FirstIsIn(ranked: seq<Scored>)
    ensures ranked == [] || ranked[0] in ranked
  {
  }

  lemma {:induction false} ZerosInFront(ranked: seq<Scored>, n: nat)
    requires Ranked(ranked) && ListsZeros(ranked, n + 1)
    ensures ranked != [] && ranked[|ranked| - 1] == Scored(0, n)
    ensures Ranked(ranked[..|ranked| - 1]) && ListsZeros(ranked[..|ranked| - 1], n)
  {
    assert Scored(0, n) in ranked;
    var k :| 0 <= k < |ranked| && ranked[k] == Scored(0, n);
    var last, front := ranked[|ranked| - 1], ranked[..|ranked| - 1];
    assert last in ranked;
    assert k < |ranked| - 1 ==> Before(ranked[k], last);
    forall x
      ensures x in front <==> x in ranked && x != last
    {
      if x in front {
        var i :| 0 <= i < |front| && front[i] == x;
        assert ranked[i] == x && Before(ranked[i], last);
      }
      if x in ranked && x != last {
        var i :| 0 <= i < |ranked| && ranked[i] == x;
        assert front[i] == x;
      }
    }
  }

  lemma {:induction false} RankedIsIdentity(ranked: seq<Scored>, n: nat)
    requires Ranked(ranked) && ListsZeros(ranked, n)
    ensures |ranked| == n && forall k :: 0 <= k < n ==> ranked[k] == Scored(0, k)
    decreases n
  {
    if n == 0 {
      FirstIsIn(ranked);
    } else {
      hide *;
      ZerosInFront(ranked, n - 1);
      RankedIsIdentity(ranked[..|ranked| - 1], n - 1);
    }
  }
}
