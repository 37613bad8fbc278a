/** Tasks stacked on each other by base branch (src/config.rs). Links may form
    cycles, and nothing stops two tasks from sharing a branch: the lookup maps
    then keep the last of them. */
module TaskStacks {
  import opened Wrappers
  import opened ParentChains
  import opened Sequences

  datatype Task = Task(name: string, branch: string, base: Option<string>) {
    /** Effective base branch. */
    function BaseBranch(): string {
      match base
      case Some(b) => b
      case None => "main"
    }
  }

  datatype Member = Member(branch: string, depth: nat)

  /** Where the walk up the base links ends, and how many tasks it passed. */
  datatype Place = Place(root: string, depth: nat)

  type Lookup = map<string, Task>

  ghost predicate Keyed(byBranch: Lookup) {
    forall b :: b in byBranch ==> byBranch[b].branch == b
  }

  /** Task lookup by branch; the last task of a branch wins. */
  function ByBranch(ts: seq<Task>): (m: Lookup)
    ensures Keyed(m)
    ensures forall b :: b in m <==> exists i :: 0 <= i < |ts| && ts[i].branch == b
  {
    if ts == [] then map[] else
    var init := ByBranch(ts[..|ts| - 1]);
    assert forall i :: 0 <= i < |ts| - 1 ==> ts[..|ts| - 1][i] == ts[i];
    init[ts[|ts| - 1].branch := ts[|ts| - 1]]
  }

  ghost predicate DistinctBranches(ts: seq<Task>) {
    forall i, j :: 0 <= i < j < |ts| ==> ts[i].branch != ts[j].branch
  }

  lemma {:induction false} ByBranchOfDistinct(ts: seq<Task>, i: nat)
    requires DistinctBranches(ts) && i < |ts|
    ensures ts[i].branch in ByBranch(ts) && ByBranch(ts)[ts[i].branch] == ts[i]
  {
    if i < |ts| - 1 {
      ByBranchOfDistinct(ts[..|ts| - 1], i);
    }
  }

  // ---- The walk up the base links ------------------------------------------

  function Climb(m: Lookup, current: Task, visited: set<string>, depth: nat): Place
    requires Keyed(m)
    decreases m.Keys - visited
  {
    var b := current.BaseBranch();
    if b in m && b !in visited then Climb(m, m[b], visited + {b}, depth + 1) else Place(current.branch, depth)
  }

  function PlaceOf(ts: seq<Task>, i: nat): Place
    requires i < |ts|
  {
    Climb(ByBranch(ts), ts[i], {ts[i].branch}, 1)
  }

  function RootOf(ts: seq<Task>, i: nat): string
    requires i < |ts|
  {
    PlaceOf(ts, i).root
  }

  function DepthOf(ts: seq<Task>, i: nat): nat
    requires i < |ts|
  {
    PlaceOf(ts, i).depth
  }

  /** The base links among task branches, as parent links. */
  function Bases(m: Lookup): map<string, string> {
    map b | b in m :: m[b].BaseBranch()
  }

  lemma {:induction false} ClimbRooted(m: Lookup, current: Task, visited: set<string>, depth: nat, n: nat)
    requires Keyed(m) && current.branch in m && m[current.branch] == current
    requires Rooted(m.Keys, Bases(m), current.branch, n)
    requires forall x, k: nat :: x in visited && Rooted(m.Keys, Bases(m), x, k) ==> n <= k
    ensures Ancestor(m.Keys, Bases(m), current.branch, n) == Some(Climb(m, current, visited, depth).root)
    ensures Climb(m, current, visited, depth).depth == depth + n
    decreases n
  {
    var b := current.BaseBranch();
    assert Parent(m.Keys, Bases(m), current.branch) == if b in m then Some(b) else None;
    if b in m {
      forall x, k: nat | x in visited + {b} && Rooted(m.Keys, Bases(m), x, k)
        ensures n - 1 <= k
      {
        if x == b {
          RootedUnique(m.Keys, Bases(m), b, k, n - 1);
        }
      }
      ClimbRooted(m, m[b], visited + {b}, depth + 1, n - 1);
    }
  }

  /** When its base links end, a task's depth is one more than its number of
      ancestors and its root is its parentless ancestor. */
  lemma {:induction false} PlaceWhenLinksEnd(ts: seq<Task>, i: nat, n: nat)
    requires DistinctBranches(ts) && i < |ts|
    requires Rooted(ByBranch(ts).Keys, Bases(ByBranch(ts)), ts[i].branch, n)
    ensures DepthOf(ts, i) == n + 1
    ensures Ancestor(ByBranch(ts).Keys, Bases(ByBranch(ts)), ts[i].branch, n) == Some(RootOf(ts, i))
    ensures Parent(ByBranch(ts).Keys, Bases(ByBranch(ts)), RootOf(ts, i)) == None
  {
    var m := ByBranch(ts);
    ByBranchOfDistinct(ts, i);
    forall x, k: nat | x in {ts[i].branch} && Rooted(m.Keys, Bases(m), x, k)
      ensures n <= k
    {
      RootedUnique(m.Keys, Bases(m), x, k, n);
    }
    ClimbRooted(m, ts[i], {ts[i].branch}, 1, n);
    AncestorOfRooted(m.Keys, Bases(m), ts[i].branch, n, n);
  }

  /** One walk, from `task`. */
  method Walk(byBranch: Lookup, task: Task) returns (place: Place)
    requires Keyed(byBranch) && task.branch in byBranch
    ensures place == Climb(byBranch, task, {task.branch}, 1)
    ensures 1 <= place.depth <= |byBranch|
  {
    var current, depth := task, 1;
    var visited := [task.branch];
    assert (set b | b in visited) == {task.branch};
    while current.BaseBranch() in byBranch && current.BaseBranch() !in visited
      invariant Distinct(visited) && |visited| == depth && forall b :: b in visited ==> b in byBranch
      invariant Climb(byBranch, current, (set b | b in visited), depth) == Climb(byBranch, task, {task.branch}, 1)
      decreases byBranch.Keys - set b | b in visited
    {
      var parent := byBranch[current.BaseBranch()];
      assert (set b | b in visited) + {parent.branch} == set b | b in visited + [parent.branch];
      visited := visited + [parent.branch];
      depth := depth + 1;
      current := parent;
    }
    place := Place(current.branch, depth);
    DistinctWithin(visited, byBranch.Keys);
  }

  lemma {:induction false} DistinctWithin(s: seq<string>, a: set<string>)
    requires Distinct(s) && forall x :: x in s ==> x in a
    ensures |s| <= |a|
  {
    if s != [] {
      var init, last := s[..|s| - 1], s[|s| - 1];
      DistinctWithin(init, a - {last});
    }
  }

  // ---- Chains --------------------------------------------------------------

  /** The tasks among the first `n` whose walk ends at `root`, in config order. */
  function Group(ts: seq<Task>, root: string, n: nat): (g: seq<nat>)
    requires n <= |ts|
    ensures forall k: nat :: k in g <==> k < n && RootOf(ts, k) == root
    ensures Indexes(ts, g) && forall a, b :: 0 <= a < b < |g| ==> g[a] < g[b]
  {
    if n == 0 then [] else
    var g := Group(ts, root, n - 1);
    assert forall k :: 0 <= k < |g| ==> g[k] in g;
    if RootOf(ts, n - 1) == root then g + [n - 1] else g
  }

  function MemberOf(ts: seq<Task>, i: nat): Member
    requires i < |ts|
  {
    Member(ts[i].branch, DepthOf(ts, i))
  }

  ghost predicate Indexes(ts: seq<Task>, g: seq<nat>) {
    forall k :: 0 <= k < |g| ==> g[k] < |ts|
  }

  function MembersOf(ts: seq<Task>, g: seq<nat>): (ms: seq<Member>)
    requires Indexes(ts, g)
    ensures |ms| == |g|
    ensures forall k :: 0 <= k < |g| ==> ms[k] == MemberOf(ts, g[k])
  {
    if g == [] then [] else MembersOf(ts, g[..|g| - 1]) + [MemberOf(ts, g[|g| - 1])]
  }

  /** `chains` lists, for each root, the tasks whose walk ends there. */
  ghost predicate Chained(ts: seq<Task>, chains: map<string, seq<Member>>, n: nat)
    requires n <= |ts|
  {
    forall r :: Listed(chains, r) == MembersOf(ts, Group(ts, r, n))
  }

  function Listed(chains: map<string, seq<Member>>, r: string): seq<Member> {
    if r in chains then chains[r] else []
  }

  /** Tasks grouped by their chain's root branch. */
  method StackChains(ts: seq<Task>) returns (chains: map<string, seq<Member>>)
    ensures Chained(ts, chains, |ts|)
    ensures forall r :: r in chains ==> chains[r] != []
  {
    var byBranch := IndexByBranch(ts);
    chains := map[];
    assert Chained(ts, chains, 0);
    hide Chained, Climb, ByBranch;
    for i := 0 to |ts|
      invariant Chained(ts, chains, i)
      invariant forall r :: r in chains ==> chains[r] != []
    {
      var place := Walk(byBranch, ts[i]);
      ChainedStep(ts, chains, i, place);
      chains := chains[place.root := Listed(chains, place.root) + [Member(ts[i].branch, place.depth)]];
    }
  }

  method IndexByBranch(ts: seq<Task>) returns (byBranch: Lookup)
    ensures byBranch == ByBranch(ts)
  {
    byBranch := map[];
    for i := 0 to |ts|
      invariant byBranch == ByBranch(ts[..i])
    {
      assert ts[..i + 1][..i] == ts[..i];
      byBranch := byBranch[ts[i].branch := ts[i]];
    }
    assert ts[..|ts|] == ts;
  }

  lemma {:induction false} ChainedStep(ts: seq<Task>, before: map<string, seq<Member>>, i: nat, place: Place)
    requires i < |ts| && Chained(ts, before, i) && place == PlaceOf(ts, i)
    ensures Chained(ts, before[place.root := Listed(before, place.root) + [Member(ts[i].branch, place.depth)]], i + 1)
  {
    hide Group, MembersOf, PlaceOf;
    var after := before[place.root := Listed(before, place.root) + [Member(ts[i].branch, place.depth)]];
    forall r
      ensures Listed(after, r) == MembersOf(ts, Group(ts, r, i + 1))
    {
      GroupStep(ts, r, i);
    }
  }

  lemma {:induction false} GroupStep(ts: seq<Task>, r: string, i: nat)
    requires i < |ts|
    ensures MembersOf(ts, Group(ts, r, i + 1))
            == MembersOf(ts, Group(ts, r, i)) + if RootOf(ts, i) == r then [MemberOf(ts, i)] else []
  {
    var g := Group(ts, r, i);
    assert (g + [i])[..|g|] == g;
  }

  // ---- Display order -------------------------------------------------------

  /** Config index of the first task of the same chain. */
  function Anchor(ts: seq<Task>, i: nat): (a: nat)
    requires i < |ts|
    ensures a <= i && RootOf(ts, a) == RootOf(ts, i)
    ensures forall k: nat :: k < |ts| && RootOf(ts, k) == RootOf(ts, i) ==> a <= k
  {
    var g := Group(ts, RootOf(ts, i), |ts|);
    assert i in g;
    g[0]
  }

  /** Chains in the order of their first member; inside one, by depth and then
      config order. */
  ghost predicate Before(ts: seq<Task>, i: nat, j: nat)
    requires i < |ts| && j < |ts|
  {
    || Anchor(ts, i) < Anchor(ts, j)
    || (Anchor(ts, i) == Anchor(ts, j)
        && (DepthOf(ts, i) < DepthOf(ts, j) || (DepthOf(ts, i) == DepthOf(ts, j) && i < j)))
  }

  ghost predicate Permutation(ts: seq<Task>, out: seq<nat>) {
    Distinct(out) && forall k: nat :: k in out <==> k < |ts|
  }

  ghost predicate Ascending(ts: seq<Task>, out: seq<nat>) {
    Indexes(ts, out) && forall a, b :: 0 <= a < b < |out| ==> Before(ts, out[a], out[b])
  }

  /** The display order: every task once, in `Before` order. */
  ghost predicate StackOrdered(ts: seq<Task>, out: seq<nat>) {
    Permutation(ts, out) && Ascending(ts, out)
  }

  /** There is only one display order. */
  lemma {:induction false} OrderUnique(ts: seq<Task>, a: seq<nat>, b: seq<nat>, k: nat)
    requires StackOrdered(ts, a) && StackOrdered(ts, b) && k <= |a|
    ensures k <= |b| && a[..k] == b[..k]
    ensures k == |a| ==> a == b
  {
    hide Before;
    SameElements(a, b);
    if k > 0 {
      OrderUnique(ts, a, b, k - 1);
      var x := a[k - 1];
      assert x in b;
      var j :| 0 <= j < |b| && b[j] == x;
      assert forall i :: 0 <= i < k - 1 ==> a[i] == a[..k - 1][i] == b[..k - 1][i] == b[i];
      assert k - 1 <= j;
      var y := b[k - 1];
      assert y in a;
      var i :| 0 <= i < |a| && a[i] == y;
      assert k - 1 <= i;
      if x != y {
        NotBothBefore(ts, x, y);
      }
      assert a[..k] == a[..k - 1] + [x] && b[..k] == b[..k - 1] + [y];
    }
    assert a[..|a|] == a && b[..|b|] == b;
  }

  lemma {:induction false} SameElements(a: seq<nat>, b: seq<nat>)
    requires Distinct(a) && Distinct(b) && forall k: nat :: k in a <==> k in b
    ensures |a| == |b|
  {
    DistinctMultiset(a);
    DistinctMultiset(b);
    assert multiset(a) == multiset(b);
    assert |multiset(a)| == |a| && |multiset(b)| == |b|;
  }

  lemma {:induction false} NotBothBefore(ts: seq<Task>, i: nat, j: nat)
    requires i < |ts| && j < |ts|
    ensures !(Before(ts, i, j) && Before(ts, j, i))
  {
  }

  /** The tasks of a chain are displayed in one block. */
  lemma {:induction false} ChainsContiguous(ts: seq<Task>, out: seq<nat>, a: nat, b: nat, c: nat)
    requires StackOrdered(ts, out) && a < b < c < |out|
    requires RootOf(ts, out[a]) == RootOf(ts, out[c])
    ensures RootOf(ts, out[b]) == RootOf(ts, out[a])
  {
    assert Before(ts, out[a], out[b]) && Before(ts, out[b], out[c]);
    assert Anchor(ts, out[a]) == Anchor(ts, out[c]) by {
      assert Anchor(ts, out[a]) <= Anchor(ts, out[c]) && Anchor(ts, out[c]) <= Anchor(ts, out[a]);
    }
  }

  /** A task stacked on another is displayed after it, when the links end. */
  lemma {:induction false} ParentPrecedesChild(ts: seq<Task>, out: seq<nat>, a: nat, b: nat)
    requires DistinctBranches(ts) && StackOrdered(ts, out) && a < |out| && b < |out|
    requires ts[out[b]].BaseBranch() == ts[out[a]].branch
    requires Ends(ByBranch(ts).Keys, Bases(ByBranch(ts)), ts[out[b]].branch)
    ensures a < b && RootOf(ts, out[a]) == RootOf(ts, out[b])
  {
    ParentPlace(ts, out[a], out[b]);
    SameAnchor(ts, out[a], out[b]);
    NotBothBefore(ts, out[a], out[b]);
  }

  lemma {:induction false} SameAnchor(ts: seq<Task>, i: nat, j: nat)
    requires i < |ts| && j < |ts| && RootOf(ts, i) == RootOf(ts, j)
    ensures Anchor(ts, i) == Anchor(ts, j)
  {
    hide PlaceOf;
    assert Anchor(ts, i) <= Anchor(ts, j) && Anchor(ts, j) <= Anchor(ts, i);
  }

  lemma {:induction false} ParentPlace(ts: seq<Task>, i: nat, j: nat)
    requires DistinctBranches(ts) && i < |ts| && j < |ts| && ts[j].BaseBranch() == ts[i].branch
    requires Ends(ByBranch(ts).Keys, Bases(ByBranch(ts)), ts[j].branch)
    ensures RootOf(ts, i) == RootOf(ts, j) && DepthOf(ts, j) == DepthOf(ts, i) + 1
  {
    hide *;
    var m := ByBranch(ts);
    BaseIsParent(ts, i, j);
    var n := AncestorCount(m, ts[j].branch);
    RootedParent(m.Keys, Bases(m), ts[j].branch, ts[i].branch, n);
    PlaceWhenLinksEnd(ts, j, n);
    PlaceWhenLinksEnd(ts, i, n - 1);
  }

  lemma {:induction false} AncestorCount(m: Lookup, b: string) returns (n: nat)
    requires Ends(m.Keys, Bases(m), b)
    ensures Rooted(m.Keys, Bases(m), b, n)
  {
    n :| Rooted(m.Keys, Bases(m), b, n);
  }

  lemma {:induction false} BaseIsParent(ts: seq<Task>, i: nat, j: nat)
    requires DistinctBranches(ts) && i < |ts| && j < |ts| && ts[j].BaseBranch() == ts[i].branch
    ensures Parent(ByBranch(ts).Keys, Bases(ByBranch(ts)), ts[j].branch) == Some(ts[i].branch)
  {
    ByBranchOfDistinct(ts, i);
    ByBranchOfDistinct(ts, j);
  }

  // ---- Computing it --------------------------------------------------------

  function IndexOf(ts: seq<Task>): (m: map<string, nat>)
    ensures forall b :: b in m ==> m[b] < |ts| && ts[m[b]].branch == b
    ensures forall i :: 0 <= i < |ts| ==> ts[i].branch in m && i <= m[ts[i].branch]
  {
    if ts == [] then map[] else
    var init := IndexOf(ts[..|ts| - 1]);
    assert forall i :: 0 <= i < |ts| - 1 ==> ts[..|ts| - 1][i] == ts[i];
    init[ts[|ts| - 1].branch := |ts| - 1]
  }

  method NumberByBranch(ts: seq<Task>) returns (indexOf: map<string, nat>)
    ensures indexOf == IndexOf(ts)
  {
    indexOf := map[];
    for i := 0 to |ts|
      invariant indexOf == IndexOf(ts[..i])
    {
      assert ts[..i + 1][..i] == ts[..i];
      indexOf := indexOf[ts[i].branch := i];
    }
    assert ts[..|ts|] == ts;
  }

  predicate KeyLeq(indexOf: map<string, nat>, a: Member, b: Member)
    requires a.branch in indexOf && b.branch in indexOf
  {
    a.depth < b.depth || (a.depth == b.depth && indexOf[a.branch] <= indexOf[b.branch])
  }

  ghost predicate Numbered(indexOf: map<string, nat>, ms: seq<Member>) {
    forall k :: 0 <= k < |ms| ==> ms[k].branch in indexOf
  }

  ghost predicate Sorted(indexOf: map<string, nat>, ms: seq<Member>) {
    Numbered(indexOf, ms) && forall i, j :: 0 <= i < j < |ms| ==> KeyLeq(indexOf, ms[i], ms[j])
  }

  /** Members by depth, then by config index of their branch. */
  method SortMembers(indexOf: map<string, nat>, ms: seq<Member>) returns (sorted: seq<Member>)
    requires Numbered(indexOf, ms)
    ensures Sorted(indexOf, sorted) && multiset(sorted) == multiset(ms)
  {
    sorted := [];
    for i := 0 to |ms|
      invariant Sorted(indexOf, sorted) && multiset(sorted) == multiset(ms[..i])
    {
      assert ms[..i + 1] == ms[..i] + [ms[i]];
      sorted := InsertMember(indexOf, sorted, ms[i]);
    }
    assert ms[..|ms|] == ms;
  }

  method InsertMember(indexOf: map<string, nat>, sorted: seq<Member>, x: Member) returns (r: seq<Member>)
    requires Sorted(indexOf, sorted) && x.branch in indexOf
    ensures Sorted(indexOf, r) && multiset(r) == multiset(sorted) + multiset{x}
  {
    var j := |sorted|;
    while j > 0 && !KeyLeq(indexOf, sorted[j - 1], x)
      invariant 0 <= j <= |sorted|
      invariant forall k :: j <= k < |sorted| ==> KeyLeq(indexOf, x, sorted[k])
    {
      j := j - 1;
    }
    r := sorted[..j] + [x] + sorted[j..];
    forall k | 0 <= k < j
      ensures KeyLeq(indexOf, sorted[k], x)
    {
      assert k < j - 1 ==> KeyLeq(indexOf, sorted[k], sorted[j - 1]);
    }
    InsertKeeps(indexOf, sorted, x, j);
  }

  lemma {:induction false} InsertKeeps(indexOf: map<string, nat>, s: seq<Member>, x: Member, j: nat)
    requires Sorted(indexOf, s) && x.branch in indexOf && j <= |s|
    requires forall k :: 0 <= k < j ==> KeyLeq(indexOf, s[k], x)
    requires forall k :: j <= k < |s| ==> KeyLeq(indexOf, x, s[k])
    ensures Sorted(indexOf, s[..j] + [x] + s[j..])
    ensures multiset(s[..j] + [x] + s[j..]) == multiset(s) + multiset{x}
  {
    hide KeyLeq;
    assert s == s[..j] + s[j..];
  }

  /** `chainOf` gives each stacked branch the members of a chain holding it. */
  ghost predicate Stacked(chains: map<string, seq<Member>>, todo: set<string>, chainOf: map<string, seq<Member>>) {
    && (forall b :: b in chainOf ==> exists r :: HoldsBranch(chains, r, b) && chainOf[b] == chains[r])
    && (forall r, b :: r in chains && r !in todo && HoldsBranch(chains, r, b) ==> b in chainOf)
  }

  ghost predicate HoldsBranch(chains: map<string, seq<Member>>, r: string, b: string) {
    r in chains && |chains[r]| >= 2 && exists k :: 0 <= k < |chains[r]| && chains[r][k].branch == b
  }

  /** The chain of two or more members each branch is in; the chains are visited
      in an arbitrary order. */
  method ChainOfBranch(chains: map<string, seq<Member>>) returns (chainOf: map<string, seq<Member>>)
    ensures Stacked(chains, {}, chainOf)
  {
    chainOf := map[];
    var todo := chains.Keys;
    while todo != {}
      invariant todo <= chains.Keys && Stacked(chains, todo, chainOf)
    {
      var r :| r in todo;
      var members := chains[r];
      ghost var before := chainOf;
      if |members| >= 2 {
        for k := 0 to |members|
          invariant forall b :: b in before ==> b in chainOf
          invariant forall b :: b in chainOf ==>
                    (b in before && chainOf[b] == before[b]) || (HoldsBranch(chains, r, b) && chainOf[b] == members)
          invariant forall x :: 0 <= x < k ==> members[x].branch in chainOf
        {
          chainOf := chainOf[members[k].branch := members];
        }
      }
      todo := todo - {r};
    }
  }

  /** Positions of the members, by the last task of each branch. */
  function Positions(indexOf: map<string, nat>, ms: seq<Member>): (ps: seq<nat>)
    requires Numbered(indexOf, ms)
    ensures |ps| == |ms| && forall k :: 0 <= k < |ms| ==> ps[k] == indexOf[ms[k].branch]
  {
    if ms == [] then [] else Positions(indexOf, ms[..|ms| - 1]) + [indexOf[ms[|ms| - 1].branch]]
  }

  lemma {:induction false} IndexOfDistinct(ts: seq<Task>, i: nat)
    requires DistinctBranches(ts) && i < |ts|
    ensures ts[i].branch in IndexOf(ts) && IndexOf(ts)[ts[i].branch] == i
  {
  }

  /** A sorted chain, as config indexes: the whole group in display order. */
  lemma {:induction false} SortedGroup(ts: seq<Task>, r: string, ms: seq<Member>)
    requires DistinctBranches(ts)
    requires Sorted(IndexOf(ts), ms) && multiset(ms) == multiset(MembersOf(ts, Group(ts, r, |ts|)))
    ensures Numbered(IndexOf(ts), ms)
    ensures forall k :: k in Positions(IndexOf(ts), ms) <==> k in Group(ts, r, |ts|)
    ensures Ascending(ts, Positions(IndexOf(ts), ms)) && Distinct(Positions(IndexOf(ts), ms))
  {
    var g, ps := Group(ts, r, |ts|), Positions(IndexOf(ts), ms);
    hide *;
    MembersDistinct(ts, g);
    DistinctMultiset(MembersOf(ts, g));
    DistinctFromMultiset(ms);
    GroupPositions(ts, g, ms);
    SortedAscends(ts, r, ms, ps);
  }

  lemma {:induction false} GroupPositions(ts: seq<Task>, g: seq<nat>, ms: seq<Member>)
    requires DistinctBranches(ts) && Indexes(ts, g) && Numbered(IndexOf(ts), ms)
    requires multiset(ms) == multiset(MembersOf(ts, g))
    ensures var ps := Positions(IndexOf(ts), ms);
            && (forall k :: 0 <= k < |ms| ==> ps[k] < |ts| && ps[k] in g && ms[k] == MemberOf(ts, ps[k]))
            && forall k :: k in ps <==> k in g
  {
    var all, ps := MembersOf(ts, g), Positions(IndexOf(ts), ms);
    hide MemberOf, Positions, MembersOf, IndexOf;
    forall k | 0 <= k < |ms|
      ensures ps[k] < |ts| && ps[k] in g && ms[k] == MemberOf(ts, ps[k])
    {
      assert ms[k] in multiset(all);
      var x :| 0 <= x < |all| && all[x] == ms[k];
      MemberPosition(ts, g[x]);
    }
    forall x | 0 <= x < |g|
      ensures g[x] in ps
    {
      assert all[x] in multiset(ms);
      var k :| 0 <= k < |ms| && ms[k] == all[x];
      MemberPosition(ts, g[x]);
      assert ps[k] == g[x];
    }
  }

  lemma {:induction false} MemberPosition(ts: seq<Task>, i: nat)
    requires DistinctBranches(ts) && i < |ts|
    ensures MemberOf(ts, i).branch in IndexOf(ts) && IndexOf(ts)[MemberOf(ts, i).branch] == i
  {
    IndexOfDistinct(ts, i);
  }

  lemma {:induction false} MembersDistinct(ts: seq<Task>, g: seq<nat>)
    requires DistinctBranches(ts) && Indexes(ts, g) && forall a, b :: 0 <= a < b < |g| ==> g[a] < g[b]
    ensures Distinct(MembersOf(ts, g))
  {
    hide DepthOf;
  }

  lemma {:induction false} SortedAscends(ts: seq<Task>, r: string, ms: seq<Member>, ps: seq<nat>)
    requires DistinctBranches(ts) && |ps| == |ms| && Sorted(IndexOf(ts), ms) && Distinct(ms)
    requires forall k :: 0 <= k < |ms| ==> ps[k] < |ts| && ps[k] in Group(ts, r, |ts|) && ms[k] == MemberOf(ts, ps[k])
    ensures Ascending(ts, ps) && Distinct(ps)
  {
    hide PlaceOf, IndexOf, Group;
    forall a, b | 0 <= a < b < |ps|
      ensures Before(ts, ps[a], ps[b])
    {
      SameAnchor(ts, ps[a], ps[b]);
      IndexOfDistinct(ts, ps[a]);
      IndexOfDistinct(ts, ps[b]);
      assert ms[a] != ms[b];
      assert KeyLeq(IndexOf(ts), ms[a], ms[b]);
    }
  }

  /** What the ordering loop keeps for any tasks: a branch shown once is shown as
      its last task when stacked and as its first task when not. */
  ghost predicate Shown(ts: seq<Task>, chainOf: map<string, seq<Member>>, n: nat, emitted: set<string>, out: seq<nat>)
  {
    && n <= |ts| && Indexes(ts, out)
    && (forall x :: 0 <= x < |out| ==> ts[out[x]].branch in emitted)
    && (forall x :: 0 <= x < |out| ==> FirstOrLast(ts, chainOf, out[x]))
    && (forall j :: 0 <= j < n ==> ts[j].branch in emitted)
  }

  ghost predicate FirstOrLast(ts: seq<Task>, chainOf: map<string, seq<Member>>, k: nat)
    requires k < |ts|
  {
    if ts[k].branch in chainOf then k == IndexOf(ts)[ts[k].branch]
    else forall j :: 0 <= j < k ==> ts[j].branch != ts[k].branch
  }

  /** What it keeps when branches are distinct: the chains first met so far, in
      display order. */
  ghost predicate InOrder(ts: seq<Task>, n: nat, emitted: set<string>, out: seq<nat>) {
    && Distinct(out) && Ascending(ts, out)
    && (forall k: nat :: k in out <==> k < |ts| && Anchor(ts, k) < n)
    && (forall k: nat :: k < |ts| && ts[k].branch in emitted ==> k in out)
  }

  lemma {:induction false} SkipInOrder(ts: seq<Task>, n: nat, emitted: set<string>, out: seq<nat>)
    requires InOrder(ts, n, emitted, out) && n < |ts| && ts[n].branch in emitted
    ensures InOrder(ts, n + 1, emitted, out)
  {
    hide Group, PlaceOf, Ascending;
    forall k: nat | k < |ts| && Anchor(ts, k) == n
      ensures false
    {
      SameAnchor(ts, k, n);
    }
  }

  lemma {:induction false} AppendInOrder(ts: seq<Task>, n: nat, emitted: set<string>, out: seq<nat>,
                                         block: seq<nat>, emitted': set<string>)
    requires DistinctBranches(ts) && InOrder(ts, n, emitted, out) && n < |ts| && n !in out
    requires Distinct(block) && Ascending(ts, block)
    requires forall k: nat :: k in block <==> k < |ts| && RootOf(ts, k) == RootOf(ts, n)
    requires forall b :: b in emitted' <==> b in emitted || exists x :: 0 <= x < |block| && ts[block[x]].branch == b
    ensures InOrder(ts, n + 1, emitted', out + block)
  {
    hide Group, PlaceOf, Before;
    assert Anchor(ts, n) == n;
    forall k: nat | k < |ts|
      ensures k in block <==> Anchor(ts, k) == n
    {
      if RootOf(ts, k) == RootOf(ts, n) {
        SameAnchor(ts, k, n);
      }
    }
    forall a, b | 0 <= a < |out| && 0 <= b < |block|
      ensures Before(ts, out[a], block[b]) && out[a] != block[b]
    {
      assert out[a] in out && block[b] in block;
      SmallerAnchor(ts, out[a], block[b]);
    }
    forall k: nat | k < |ts| && ts[k].branch in emitted'
      ensures k in out + block
    {
      if ts[k].branch !in emitted {
        var x :| 0 <= x < |block| && ts[block[x]].branch == ts[k].branch;
        assert block[x] in block;
        assert k == block[x];
      }
    }
  }

  lemma {:induction false} SmallerAnchor(ts: seq<Task>, i: nat, j: nat)
    requires i < |ts| && j < |ts| && Anchor(ts, i) < Anchor(ts, j)
    ensures Before(ts, i, j)
  {
  }

  /** A task outside every stack is alone in its chain. */
  lemma {:induction false} LoneGroup(ts: seq<Task>, chains: map<string, seq<Member>>,
        chainOf: map<string, seq<Member>>, i: nat)
    requires DistinctBranches(ts) && i < |ts| && Chained(ts, chains, |ts|) && Stacked(chains, {}, chainOf)
    requires ts[i].branch !in chainOf
    ensures Group(ts, RootOf(ts, i), |ts|) == [i]
  {
    hide PlaceOf, Group;
    var g := Group(ts, RootOf(ts, i), |ts|);
    assert i in g;
    if |g| >= 2 {
      InStack(ts, chains, chainOf, i);
    }
  }

  lemma {:induction false} InStack(ts: seq<Task>, chains: map<string, seq<Member>>,
        chainOf: map<string, seq<Member>>, i: nat)
    requires i < |ts| && Chained(ts, chains, |ts|) && Stacked(chains, {}, chainOf)
    requires |Group(ts, RootOf(ts, i), |ts|)| >= 2
    ensures ts[i].branch in chainOf
  {
    hide PlaceOf, Group;
    var r := RootOf(ts, i);
    var g := Group(ts, r, |ts|);
    assert Listed(chains, r) == MembersOf(ts, g);
    assert i in g;
    var x :| 0 <= x < |g| && g[x] == i;
    assert chains[r][x].branch == ts[i].branch;
    assert HoldsBranch(chains, r, ts[i].branch);
  }

  /** A stacked task's members are the tasks of its own chain. */
  lemma {:induction false} StackedGroup(ts: seq<Task>, chains: map<string, seq<Member>>,
        chainOf: map<string, seq<Member>>, i: nat)
    requires DistinctBranches(ts) && i < |ts| && Chained(ts, chains, |ts|) && Stacked(chains, {}, chainOf)
    requires ts[i].branch in chainOf
    ensures chainOf[ts[i].branch] == MembersOf(ts, Group(ts, RootOf(ts, i), |ts|))
  {
    var r :| HoldsBranch(chains, r, ts[i].branch) && chainOf[ts[i].branch] == chains[r];
    hide *;
    HeldUnderRoot(ts, chains, r, i);
  }

  lemma {:induction false} HeldUnderRoot(ts: seq<Task>, chains: map<string, seq<Member>>, r: string, i: nat)
    requires DistinctBranches(ts) && i < |ts| && Chained(ts, chains, |ts|) && HoldsBranch(chains, r, ts[i].branch)
    ensures r in chains && chains[r] == MembersOf(ts, Group(ts, r, |ts|)) && r == RootOf(ts, i)
  {
    hide PlaceOf, Group;
    var g := Group(ts, r, |ts|);
    assert Listed(chains, r) == MembersOf(ts, g);
    var k :| 0 <= k < |chains[r]| && chains[r][k].branch == ts[i].branch;
    assert g[k] in g && ts[g[k]].branch == ts[i].branch;
  }

  /** Every member of every chain of two or more is itself stacked. */
  lemma {:induction false} MembersStacked(ts: seq<Task>, chains: map<string, seq<Member>>,
        chainOf: map<string, seq<Member>>, b: string)
    requires Chained(ts, chains, |ts|) && Stacked(chains, {}, chainOf) && b in chainOf
    ensures Numbered(IndexOf(ts), chainOf[b])
    ensures forall k :: 0 <= k < |chainOf[b]| ==> chainOf[b][k].branch in chainOf
  {
    hide PlaceOf, Group;
    var r :| HoldsBranch(chains, r, b) && chainOf[b] == chains[r];
    assert Listed(chains, r) == MembersOf(ts, Group(ts, r, |ts|));
    forall k | 0 <= k < |chains[r]|
      ensures chains[r][k].branch in chainOf && chains[r][k].branch in IndexOf(ts)
    {
      assert HoldsBranch(chains, r, chains[r][k].branch);
    }
  }

  lemma {:induction false} SameMembers(a: seq<Member>, b: seq<Member>)
    requires multiset(a) == multiset(b)
    ensures forall m :: m in a <==> m in b
  {
    assert forall m :: m in a <==> m in multiset(a);
    assert forall m :: m in b <==> m in multiset(b);
  }

  /** With a repeated branch one of its tasks is never shown. */
  lemma {:induction false} RepeatedOmitted(ts: seq<Task>, chainOf: map<string, seq<Member>>, emitted: set<string>,
        out: seq<nat>)
    requires Shown(ts, chainOf, |ts|, emitted, out) && Permutation(ts, out)
    ensures DistinctBranches(ts)
  {
    forall i, j | 0 <= i < j < |ts|
      ensures ts[i].branch != ts[j].branch
    {
      assert i as nat in out && j as nat in out;
      assert FirstOrLast(ts, chainOf, i) && FirstOrLast(ts, chainOf, j);
    }
  }

  lemma {:induction false} NothingShown(ts: seq<Task>, chainOf: map<string, seq<Member>>)
    ensures Shown(ts, chainOf, 0, {}, []) && InOrder(ts, 0, {}, [])
  {
  }

  lemma {:induction false} SkipShown(ts: seq<Task>, chainOf: map<string, seq<Member>>, i: nat, emitted: set<string>,
        out: seq<nat>)
    requires Shown(ts, chainOf, i, emitted, out) && i < |ts| && ts[i].branch in emitted
    ensures Shown(ts, chainOf, i + 1, emitted, out)
    ensures DistinctBranches(ts) && InOrder(ts, i, emitted, out) ==> InOrder(ts, i + 1, emitted, out)
  {
    hide FirstOrLast, InOrder;
    if DistinctBranches(ts) && InOrder(ts, i, emitted, out) {
      SkipInOrder(ts, i, emitted, out);
    }
  }

  lemma {:induction false} NotYetOut(ts: seq<Task>, chainOf: map<string, seq<Member>>, i: nat, emitted: set<string>,
        out: seq<nat>)
    requires Shown(ts, chainOf, i, emitted, out) && i < |ts| && ts[i].branch !in emitted
    ensures i !in out
  {
    hide FirstOrLast;
  }

  lemma {:induction false} LoneShown(ts: seq<Task>, chains: map<string, seq<Member>>, chainOf: map<string, seq<Member>>,
                                     i: nat, emitted: set<string>, out: seq<nat>)
    requires Shown(ts, chainOf, i, emitted, out) && i < |ts| && ts[i].branch !in emitted
    requires Chained(ts, chains, |ts|) && Stacked(chains, {}, chainOf) && ts[i].branch !in chainOf
    ensures Shown(ts, chainOf, i + 1, emitted + {ts[i].branch}, out + [i])
    ensures DistinctBranches(ts) && InOrder(ts, i, emitted, out)
            ==> InOrder(ts, i + 1, emitted + {ts[i].branch}, out + [i])
  {
    hide InOrder, Chained, Stacked, PlaceOf, Group;
    assert FirstOrLast(ts, chainOf, i);
    if DistinctBranches(ts) && InOrder(ts, i, emitted, out) {
      LoneGroup(ts, chains, chainOf, i);
      assert forall k: nat :: k in [i] <==> k in Group(ts, RootOf(ts, i), |ts|);
      NotYetOut(ts, chainOf, i, emitted, out);
      assert [i][0] == i;
      AppendInOrder(ts, i, emitted, out, [i], emitted + {ts[i].branch});
    }
  }

  function Branches(ms: seq<Member>): (bs: set<string>)
    ensures forall b :: b in bs <==> exists k :: 0 <= k < |ms| && ms[k].branch == b
  {
    if ms == [] then {} else Branches(ms[..|ms| - 1]) + {ms[|ms| - 1].branch}
  }

  lemma {:induction false} ChainShown(ts: seq<Task>, chains: map<string, seq<Member>>,
        chainOf: map<string, seq<Member>>,
                                      i: nat, emitted: set<string>, out: seq<nat>, ms: seq<Member>)
    requires Shown(ts, chainOf, i, emitted, out) && i < |ts| && ts[i].branch !in emitted
    requires Chained(ts, chains, |ts|) && Stacked(chains, {}, chainOf) && ts[i].branch in chainOf
    requires Sorted(IndexOf(ts), ms) && multiset(ms) == multiset(chainOf[ts[i].branch])
    ensures Shown(ts, chainOf, i + 1, emitted + {ts[i].branch} + Branches(ms), out + Positions(IndexOf(ts), ms))
    ensures DistinctBranches(ts) && InOrder(ts, i, emitted, out)
            ==> InOrder(ts, i + 1, emitted + {ts[i].branch} + Branches(ms), out + Positions(IndexOf(ts), ms))
  {
    hide Shown, InOrder;
    ChainShownSoFar(ts, chains, chainOf, i, emitted, out, ms);
    if DistinctBranches(ts) && InOrder(ts, i, emitted, out) {
      ChainInOrder(ts, chains, chainOf, i, emitted, out, ms);
    }
  }

  lemma {:induction false} ChainShownSoFar(ts: seq<Task>, chains: map<string, seq<Member>>,
        chainOf: map<string, seq<Member>>,
                                           i: nat, emitted: set<string>, out: seq<nat>, ms: seq<Member>)
    requires Shown(ts, chainOf, i, emitted, out) && i < |ts|
    requires Chained(ts, chains, |ts|) && Stacked(chains, {}, chainOf) && ts[i].branch in chainOf
    requires Numbered(IndexOf(ts), ms) && multiset(ms) == multiset(chainOf[ts[i].branch])
    ensures Shown(ts, chainOf, i + 1, emitted + {ts[i].branch} + Branches(ms), out + Positions(IndexOf(ts), ms))
  {
    var ps := Positions(IndexOf(ts), ms);
    hide Chained, Stacked, PlaceOf, Group, Positions, Branches, IndexOf;
    MembersStacked(ts, chains, chainOf, ts[i].branch);
    SameMembers(ms, chainOf[ts[i].branch]);
    forall k | 0 <= k < |ms|
      ensures ps[k] < |ts| && ts[ps[k]].branch == ms[k].branch && FirstOrLast(ts, chainOf, ps[k])
    {
      assert ms[k] in ms;
    }
  }

  lemma {:induction false} ChainInOrder(ts: seq<Task>, chains: map<string, seq<Member>>,
        chainOf: map<string, seq<Member>>,
                                        i: nat, emitted: set<string>, out: seq<nat>, ms: seq<Member>)
    requires DistinctBranches(ts) && InOrder(ts, i, emitted, out)
    requires Shown(ts, chainOf, i, emitted, out) && i < |ts| && ts[i].branch !in emitted
    requires Chained(ts, chains, |ts|) && Stacked(chains, {}, chainOf) && ts[i].branch in chainOf
    requires Sorted(IndexOf(ts), ms) && multiset(ms) == multiset(chainOf[ts[i].branch])
    ensures InOrder(ts, i + 1, emitted + {ts[i].branch} + Branches(ms), out + Positions(IndexOf(ts), ms))
  {
    var ps, r := Positions(IndexOf(ts), ms), RootOf(ts, i);
    hide *;
    StackedGroup(ts, chains, chainOf, i);
    SortedGroup(ts, r, ms);
    NotYetOut(ts, chainOf, i, emitted, out);
    assert i in Group(ts, r, |ts|);
    BlockBranches(ts, ms, i, emitted);
    AppendInOrder(ts, i, emitted, out, ps, emitted + {ts[i].branch} + Branches(ms));
  }

  lemma {:induction false} BlockBranches(ts: seq<Task>, ms: seq<Member>, i: nat, emitted: set<string>)
    requires Numbered(IndexOf(ts), ms) && i < |ts| && i in Positions(IndexOf(ts), ms)
    ensures var ps := Positions(IndexOf(ts), ms);
            && (forall x :: 0 <= x < |ps| ==> ps[x] < |ts|)
            && forall b :: b in emitted + {ts[i].branch} + Branches(ms)
                           <==> b in emitted || exists x :: 0 <= x < |ps| && ts[ps[x]].branch == b
  {
    hide Positions, Branches, IndexOf;
    var ps := Positions(IndexOf(ts), ms);
    assert forall x :: 0 <= x < |ps| ==> ts[ps[x]].branch == ms[x].branch;
    var x :| 0 <= x < |ps| && ps[x] == i;
    assert ms[x].branch == ts[i].branch;
  }

  lemma {:induction false} PositionsStep(indexOf: map<string, nat>, ms: seq<Member>, k: nat)
    requires Numbered(indexOf, ms) && k < |ms|
    ensures ms[k].branch in indexOf && Numbered(indexOf, ms[..k]) && Numbered(indexOf, ms[..k + 1])
    ensures Positions(indexOf, ms[..k + 1]) == Positions(indexOf, ms[..k]) + [indexOf[ms[k].branch]]
    ensures Branches(ms[..k + 1]) == Branches(ms[..k]) + {ms[k].branch}
  {
    assert ms[..k + 1][..k] == ms[..k];
  }

  /** Tasks in display order, as config indexes. */
  method TasksStackOrdered(ts: seq<Task>) returns (out: seq<nat>)
    ensures DistinctBranches(ts) ==> StackOrdered(ts, out)
    ensures Permutation(ts, out) <==> DistinctBranches(ts)
  {
    hide Shown, InOrder, StackOrdered, Permutation, DistinctBranches, Chained, Stacked, IndexOf, Positions, Branches;
    var chains := StackChains(ts);
    var indexOf := NumberByBranch(ts);
    var chainOf := ChainOfBranch(chains);
    var emitted: set<string> := {};
    out := [];
    NothingShown(ts, chainOf);
    for i := 0 to |ts|
      invariant Shown(ts, chainOf, i, emitted, out)
      invariant DistinctBranches(ts) ==> InOrder(ts, i, emitted, out)
    {
      if ts[i].branch in emitted {
        SkipShown(ts, chainOf, i, emitted, out);
        continue;
      }
      if ts[i].branch !in chainOf {
        LoneShown(ts, chains, chainOf, i, emitted, out);
        emitted := emitted + {ts[i].branch};
        out := out + [i];
        continue;
      }
      MembersStacked(ts, chains, chainOf, ts[i].branch);
      var members := SortMembers(indexOf, chainOf[ts[i].branch]);
      ChainShown(ts, chains, chainOf, i, emitted, out, members);
      out, emitted := EmitAll(indexOf, members, out, emitted + {ts[i].branch});
    }
    AllShown(ts, chainOf, emitted, out);
  }

  lemma {:induction false} NoPositions(indexOf: map<string, nat>, ms: seq<Member>)
    ensures Numbered(indexOf, ms[..0]) && Positions(indexOf, ms[..0]) == [] && Branches(ms[..0]) == {}
  {
  }

  /** Append the members' tasks, marking their branches. */
  method EmitAll(indexOf: map<string, nat>, members: seq<Member>, before: seq<nat>, marked: set<string>)
    returns (out: seq<nat>, emitted: set<string>)
    requires Numbered(indexOf, members)
    ensures out == before + Positions(indexOf, members) && emitted == marked + Branches(members)
  {
    hide Numbered, Positions, Branches;
    out, emitted := before, marked;
    NoPositions(indexOf, members);
    for k := 0 to |members|
      invariant Numbered(indexOf, members[..k]) && out == before + Positions(indexOf, members[..k])
      invariant emitted == marked + Branches(members[..k])
    {
      PositionsStep(indexOf, members, k);
      emitted := emitted + {members[k].branch};
      out := out + [indexOf[members[k].branch]];
    }
    assert members[..|members|] == members;
  }

  lemma {:induction false} AllShown(ts: seq<Task>, chainOf: map<string, seq<Member>>, emitted: set<string>,
        out: seq<nat>)
    requires Shown(ts, chainOf, |ts|, emitted, out)
    requires DistinctBranches(ts) ==> InOrder(ts, |ts|, emitted, out)
    ensures DistinctBranches(ts) ==> StackOrdered(ts, out)
    ensures Permutation(ts, out) <==> DistinctBranches(ts)
  {
    hide Ascending;
    if Permutation(ts, out) {
      RepeatedOmitted(ts, chainOf, emitted, out);
    }
  }

  // ---- Positions in a chain ------------------------------------------------

  /** `total` is the greatest depth in the chain of task `i`. */
  ghost predicate LongestPath(ts: seq<Task>, i: nat, total: nat)
    requires i < |ts|
  {
    && (forall k: nat :: k < |ts| && RootOf(ts, k) == RootOf(ts, i) ==> DepthOf(ts, k) <= total)
    && (exists k: nat :: k < |ts| && RootOf(ts, k) == RootOf(ts, i) && DepthOf(ts, k) == total)
  }

  ghost predicate Stackmate(ts: seq<Task>, i: nat)
    requires i < |ts|
  {
    exists k: nat :: k < |ts| && k != i && RootOf(ts, k) == RootOf(ts, i)
  }

  datatype Position = Position(depth: nat, total: nat)

  /** Positions come from chains of two or more and cover them. */
  ghost predicate Positioned(chains: map<string, seq<Member>>, todo: set<string>, positions: map<string, Position>) {
    && (forall b :: b in positions ==> exists r, k: nat :: PositionIn(chains, r, k, b, positions[b]))
    && (forall r, b :: r in chains && r !in todo && HoldsBranch(chains, r, b) ==> b in positions)
  }

  ghost predicate PositionIn(chains: map<string, seq<Member>>, r: string, k: nat, b: string, p: Position) {
    && r in chains && 2 <= |chains[r]| && k < |chains[r]| && chains[r][k] == Member(b, p.depth)
    && (forall x :: 0 <= x < |chains[r]| ==> chains[r][x].depth <= p.total)
    && (exists x :: 0 <= x < |chains[r]| && chains[r][x].depth == p.total)
  }

  method Deepest(ms: seq<Member>) returns (total: nat)
    requires ms != []
    ensures forall x :: 0 <= x < |ms| ==> ms[x].depth <= total
    ensures exists x :: 0 <= x < |ms| && ms[x].depth == total
  {
    total := ms[0].depth;
    for i := 1 to |ms|
      invariant forall x :: 0 <= x < i ==> ms[x].depth <= total
      invariant exists x :: 0 <= x < i && ms[x].depth == total
    {
      if ms[i].depth >= total {
        total := ms[i].depth;
      }
    }
  }

  method PositionsOfChains(chains: map<string, seq<Member>>) returns (positions: map<string, Position>)
    ensures Positioned(chains, {}, positions)
  {
    positions := map[];
    var todo := chains.Keys;
    while todo != {}
      invariant todo <= chains.Keys && Positioned(chains, todo, positions)
    {
      var r :| r in todo;
      if |chains[r]| >= 2 {
        positions := PlaceMembers(chains, r, positions);
      }
      todo := todo - {r};
    }
  }

  /** Record the members of one chain, all with the chain's greatest depth. */
  method PlaceMembers(chains: map<string, seq<Member>>, r: string, before: map<string, Position>)
    returns (positions: map<string, Position>)
    requires r in chains && |chains[r]| >= 2
    ensures forall b :: b in before ==> b in positions
    ensures forall b :: b in positions ==>
            (b in before && positions[b] == before[b]) || exists k: nat :: PositionIn(chains, r, k, b, positions[b])
    ensures forall x :: 0 <= x < |chains[r]| ==> chains[r][x].branch in positions
  {
    var members := chains[r];
    positions := before;
    var total := Deepest(members);
    for k := 0 to |members|
      invariant forall b :: b in before ==> b in positions
      invariant forall b :: b in positions ==>
                (b in before && positions[b] == before[b]) || exists k: nat :: PositionIn(chains, r, k, b, positions[b])
      invariant forall x :: 0 <= x < k ==> members[x].branch in positions
    {
      assert PositionIn(chains, r, k, members[k].branch, Position(members[k].depth, total));
      positions := positions[members[k].branch := Position(members[k].depth, total)];
    }
  }

  /** Each stacked task's depth and its chain's length, by branch. */
  method StackPositions(ts: seq<Task>) returns (positions: map<string, Position>)
    ensures DistinctBranches(ts) ==>
              forall i :: 0 <= i < |ts| ==>
                && (ts[i].branch in positions <==> Stackmate(ts, i))
                && (ts[i].branch in positions ==>
                      positions[ts[i].branch].depth == DepthOf(ts, i)
                        && LongestPath(ts, i, positions[ts[i].branch].total))
    ensures forall b :: b in positions ==> exists i :: 0 <= i < |ts| && ts[i].branch == b
  {
    var chains := StackChains(ts);
    positions := PositionsOfChains(chains);
    hide *;
    forall b | b in positions
      ensures exists i :: 0 <= i < |ts| && ts[i].branch == b
    {
      var i := PositionedTask(ts, chains, positions, b);
    }
    if DistinctBranches(ts) {
      forall i | 0 <= i < |ts|
        ensures ts[i].branch in positions <==> Stackmate(ts, i)
        ensures ts[i].branch in positions ==>
                  positions[ts[i].branch].depth == DepthOf(ts, i) && LongestPath(ts, i, positions[ts[i].branch].total)
      {
        PositionOfTask(ts, chains, positions, i);
      }
    }
  }

  lemma {:induction false} PositionedTask(ts: seq<Task>, chains: map<string, seq<Member>>,
        positions: map<string, Position>,
                                          b: string) returns (i: nat)
    requires Chained(ts, chains, |ts|) && Positioned(chains, {}, positions) && b in positions
    ensures i < |ts| && ts[i].branch == b && positions[b].depth == DepthOf(ts, i)
    ensures Stackmate(ts, i) && LongestPath(ts, i, positions[b].total)
  {
    hide PlaceOf, Group;
    var r, k: nat :| PositionIn(chains, r, k, b, positions[b]);
    var g := Group(ts, r, |ts|);
    assert Listed(chains, r) == MembersOf(ts, g);
    i := g[k];
    assert g[k] in g;
    PositionedChain(ts, g, r, k, positions[b]);
  }

  lemma {:induction false} PositionedChain(ts: seq<Task>, g: seq<nat>, r: string, k: nat, p: Position)
    requires g == Group(ts, r, |ts|) && 2 <= |g| && k < |g|
    requires forall x :: 0 <= x < |g| ==> MembersOf(ts, g)[x].depth <= p.total
    requires exists x :: 0 <= x < |g| && MembersOf(ts, g)[x].depth == p.total
    ensures Stackmate(ts, g[k]) && LongestPath(ts, g[k], p.total)
  {
    hide PlaceOf, Group;
    assert g[k] in g && g[0] in g && g[1] in g;
    var x :| 0 <= x < |g| && MembersOf(ts, g)[x].depth == p.total;
    assert g[x] in g;
    forall j: nat | j < |ts| && RootOf(ts, j) == RootOf(ts, g[k])
      ensures DepthOf(ts, j) <= p.total
    {
      assert j in g;
      var y :| 0 <= y < |g| && g[y] == j;
      assert MembersOf(ts, g)[y].depth == DepthOf(ts, j);
    }
    var j := if k == 0 then g[1] else g[0];
    assert j != g[k] && RootOf(ts, j) == RootOf(ts, g[k]);
  }

  lemma {:induction false} PositionOfTask(ts: seq<Task>, chains: map<string, seq<Member>>,
        positions: map<string, Position>, i: nat)
    requires DistinctBranches(ts) && i < |ts| && Chained(ts, chains, |ts|) && Positioned(chains, {}, positions)
    ensures ts[i].branch in positions <==> Stackmate(ts, i)
    ensures ts[i].branch in positions ==>
              positions[ts[i].branch].depth == DepthOf(ts, i) && LongestPath(ts, i, positions[ts[i].branch].total)
  {
    hide PlaceOf, Group, Stackmate, LongestPath;
    if ts[i].branch in positions {
      var j := PositionedTask(ts, chains, positions, ts[i].branch);
      assert j == i;
    }
    if Stackmate(ts, i) {
      StackmateHeld(ts, chains, i);
    }
  }

  lemma {:induction false} StackmateHeld(ts: seq<Task>, chains: map<string, seq<Member>>, i: nat)
    requires i < |ts| && Chained(ts, chains, |ts|) && Stackmate(ts, i)
    ensures HoldsBranch(chains, RootOf(ts, i), ts[i].branch)
  {
    hide PlaceOf, Group;
    var r := RootOf(ts, i);
    var g := Group(ts, r, |ts|);
    assert Listed(chains, r) == MembersOf(ts, g);
    var j: nat :| j < |ts| && j != i && RootOf(ts, j) == r;
    assert i in g && j in g;
    var x :| 0 <= x < |g| && g[x] == i;
    var y :| 0 <= y < |g| && g[y] == j;
    assert chains[r][x].branch == ts[i].branch;
  }
}
