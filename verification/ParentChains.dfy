/** Parent links among a finite set of names. Session records and task base
    branches both form such links, and neither is guaranteed to be acyclic. */
module ParentChains {
  import opened Wrappers

  /** The parent of `s`, when that parent is itself one of the names. */
  function Parent(names: set<string>, up: map<string, string>, s: string): (p: Option<string>)
    ensures p.Some? ==> p.value in names
  {
    if s in up && up[s] in names then Some(up[s]) else None
  }

  /** The `k`-th ancestor of `s`; `None` when the chain ends before. */
  function Ancestor(names: set<string>, up: map<string, string>, s: string, k: nat): Option<string>
    decreases k
  {
    if k == 0 then Some(s) else
    match Parent(names, up, s)
    case None => None
    case Some(p) => Ancestor(names, up, p, k - 1)
  }

  /** `s` has exactly `n` ancestors, the last of them without a parent. */
  predicate Rooted(names: set<string>, up: map<string, string>, s: string, n: nat)
    decreases n
  {
    match Parent(names, up, s)
    case None => n == 0
    case Some(p) => n > 0 && Rooted(names, up, p, n - 1)
  }

  /** `s` is one of its own proper ancestors. */
  ghost predicate OnCycle(names: set<string>, up: map<string, string>, s: string)
  {
    Above(names, up, s, s)
  }

  /** `s` is reached from `x` in one or more steps. */
  ghost predicate Above(names: set<string>, up: map<string, string>, x: string, s: string)
  {
    exists k: nat :: k > 0 && Ancestor(names, up, x, k) == Some(s)
  }

  /** Walking up from `s` runs into a cycle. */
  ghost predicate MeetsCycle(names: set<string>, up: map<string, string>, s: string)
  {
    exists k: nat :: Ancestor(names, up, s, k).Some? && OnCycle(names, up, Ancestor(names, up, s, k).value)
  }

  /** Following parents from `s` ends at a parentless name. */
  ghost predicate Ends(names: set<string>, up: map<string, string>, s: string)
  {
    exists n: nat :: Rooted(names, up, s, n)
  }

  lemma {:induction false} RootedUnique(names: set<string>, up: map<string, string>, s: string, m: nat, n: nat)
    requires Rooted(names, up, s, m) && Rooted(names, up, s, n)
    ensures m == n
    decreases n
  {
    match Parent(names, up, s)
    case None =>
    case Some(p) => RootedUnique(names, up, p, m - 1, n - 1);
  }

  lemma {:induction false} RootedParent(names: set<string>, up: map<string, string>, s: string, p: string, n: nat)
    requires Rooted(names, up, s, n) && Parent(names, up, s) == Some(p)
    ensures n > 0 && Rooted(names, up, p, n - 1)
    ensures Ancestor(names, up, s, n) == Ancestor(names, up, p, n - 1)
  {
  }

  /** A chain with `n` ancestors has a `k`-th one exactly for `k <= n`. */
  lemma {:induction false} AncestorOfRooted(names: set<string>, up: map<string, string>, s: string, n: nat, k: nat)
    requires Rooted(names, up, s, n)
    ensures Ancestor(names, up, s, k).Some? <==> k <= n
    ensures k <= n ==> Rooted(names, up, Ancestor(names, up, s, k).value, n - k)
    decreases k
  {
    if k > 0 {
      match Parent(names, up, s)
      case None =>
      case Some(p) => AncestorOfRooted(names, up, p, n - 1, k - 1);
    }
  }

  lemma {:induction false} AncestorAdd(names: set<string>, up: map<string, string>, s: string, j: nat, k: nat)
    requires Ancestor(names, up, s, j).Some?
    ensures Ancestor(names, up, s, j + k) == Ancestor(names, up, Ancestor(names, up, s, j).value, k)
    decreases j
  {
    if j > 0 {
      AncestorAdd(names, up, Parent(names, up, s).value, j - 1, k);
    }
  }

  lemma {:induction false} AncestorInNames(names: set<string>, up: map<string, string>, s: string, k: nat)
    requires s in names && Ancestor(names, up, s, k).Some?
    ensures Ancestor(names, up, s, k).value in names
    decreases k
  {
    if k > 0 {
      AncestorInNames(names, up, Parent(names, up, s).value, k - 1);
    }
  }

  /** `s` and its `n` ancestors. */
  function Line(names: set<string>, up: map<string, string>, s: string, n: nat): set<string>
    requires Rooted(names, up, s, n)
    decreases n
  {
    if n == 0 then {s} else {s} + Line(names, up, Parent(names, up, s).value, n - 1)
  }

  lemma {:induction false} LineMembers(names: set<string>, up: map<string, string>, s: string, n: nat)
    requires s in names && Rooted(names, up, s, n)
    ensures Line(names, up, s, n) <= names && |Line(names, up, s, n)| == n + 1
    ensures forall t, m: nat :: t in Line(names, up, s, n) && Rooted(names, up, t, m) ==> m <= n
    decreases n
  {
    forall m: nat | Rooted(names, up, s, m)
      ensures m == n
    {
      RootedUnique(names, up, s, m, n);
    }
    if n > 0 {
      LineMembers(names, up, Parent(names, up, s).value, n - 1);
    }
  }

  /** A terminating chain has fewer ancestors than there are names. */
  lemma {:induction false} DepthBound(names: set<string>, up: map<string, string>, s: string, n: nat)
    requires s in names && Rooted(names, up, s, n)
    ensures n < |names|
  {
    LineMembers(names, up, s, n);
    Subset(Line(names, up, s, n), names);
  }

  lemma {:induction false} Subset<T>(a: set<T>, b: set<T>)
    requires a <= b
    ensures |a| <= |b|
    decreases a
  {
    if a != {} {
      var x :| x in a;
      Subset(a - {x}, b - {x});
    }
  }

  lemma {:induction false} AboveParent(names: set<string>, up: map<string, string>, x: string, s: string, p: string)
    requires x == s || Above(names, up, x, s)
    requires Parent(names, up, s) == Some(p)
    ensures Above(names, up, x, p)
  {
    assert Ancestor(names, up, s, 1) == Ancestor(names, up, p, 0);
    if x != s {
      var k: nat :| k > 0 && Ancestor(names, up, x, k) == Some(s);
      AncestorAdd(names, up, x, k, 1);
      assert Ancestor(names, up, x, k + 1) == Some(p);
    }
  }

  lemma {:induction false} EndsFromParent(names: set<string>, up: map<string, string>, s: string, p: string)
    requires Parent(names, up, s) == Some(p)
    ensures Ends(names, up, p) ==> Ends(names, up, s)
    ensures MeetsCycle(names, up, p) ==> MeetsCycle(names, up, s)
  {
    if Ends(names, up, p) {
      var n: nat :| Rooted(names, up, p, n);
      assert Rooted(names, up, s, n + 1);
    }
    if MeetsCycle(names, up, p) {
      var k: nat :| Ancestor(names, up, p, k).Some? && OnCycle(names, up, Ancestor(names, up, p, k).value);
      assert Ancestor(names, up, s, k + 1) == Ancestor(names, up, p, k);
    }
  }

  /** Walking up from `s`, with every name already passed in `seen`, ends at a
      root or runs into a cycle. */
  lemma {:induction false} RootOrCycle(names: set<string>, up: map<string, string>, s: string, seen: set<string>)
    requires s in names && seen <= names
    requires forall x :: x in seen ==> Above(names, up, x, s)
    ensures Ends(names, up, s) || MeetsCycle(names, up, s)
    decreases names - seen
  {
    if s in seen {
      assert Ancestor(names, up, s, 0) == Some(s);
    } else {
      match Parent(names, up, s)
      case None => assert Rooted(names, up, s, 0);
      case Some(p) =>
        forall x | x in seen + {s}
          ensures Above(names, up, x, p)
        {
          AboveParent(names, up, x, s, p);
        }
        RootOrCycle(names, up, p, seen + {s});
        EndsFromParent(names, up, s, p);
    }
  }

  /** A chain ends exactly when it does not run into a cycle. */
  lemma {:induction false} EndsIffNoCycleAbove(names: set<string>, up: map<string, string>, s: string)
    requires s in names
    ensures Ends(names, up, s) <==> !MeetsCycle(names, up, s)
  {
    RootOrCycle(names, up, s, {});
    if Ends(names, up, s) && MeetsCycle(names, up, s) {
      var n: nat :| Rooted(names, up, s, n);
      var k: nat :| Ancestor(names, up, s, k).Some? && OnCycle(names, up, Ancestor(names, up, s, k).value);
      var c := Ancestor(names, up, s, k).value;
      AncestorOfRooted(names, up, s, n, k);
      var j: nat :| j > 0 && Ancestor(names, up, c, j) == Some(c);
      AncestorOfRooted(names, up, c, n - k, j);
      RootedUnique(names, up, c, n - k, n - k - j);
      assert false;
    }
  }

  /** Every chain ends exactly when no name is its own ancestor. */
  lemma {:induction false} AllEndIffNoCycle(names: set<string>, up: map<string, string>)
    ensures (forall s :: s in names ==> Ends(names, up, s)) <==>
            (forall s :: s in names ==> !OnCycle(names, up, s))
  {
    forall s | s in names
      ensures OnCycle(names, up, s) ==> !Ends(names, up, s)
      ensures !Ends(names, up, s) ==> exists c :: c in names && OnCycle(names, up, c)
    {
      EndsIffNoCycleAbove(names, up, s);
      assert Ancestor(names, up, s, 0) == Some(s);
      if !Ends(names, up, s) {
        var k: nat :| Ancestor(names, up, s, k).Some? && OnCycle(names, up, Ancestor(names, up, s, k).value);
        AncestorInNames(names, up, s, k);
      }
    }
  }
}
