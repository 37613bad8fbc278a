/** The session list nests each session under the parent its record names
    (src/sessions_view.rs). Parent records may form cycles and names may repeat;
    `NestSessions` is the explicit-stack traversal and `Forest` the recursive
    preorder it computes. */
module SessionTree {
  import opened Wrappers
  import opened ParentChains
  import opened Sequences

  datatype Entry = Entry(name: string, depth: nat)

  /** The sessions to list, their set of names, and the recorded parents. */
  datatype Listing = Listing(names: seq<string>, present: set<string>, up: map<string, string>) {
    ghost predicate Valid() {
      forall s :: s in present <==> s in names
    }

    predicate RootedAt(s: string, d: nat) {
      s in present && Rooted(present, up, s, d)
    }
  }

  /** The first occurrence of each name, in order. */
  function Dedup(ss: seq<string>): seq<string> {
    if ss == [] then [] else
    var init := Dedup(ss[..|ss| - 1]);
    if ss[|ss| - 1] in ss[..|ss| - 1] then init else init + [ss[|ss| - 1]]
  }

  lemma {:induction false} DedupMembers(ss: seq<string>)
    ensures forall c :: c in Dedup(ss) <==> c in ss
  {
    if ss != [] {
      DedupMembers(ss[..|ss| - 1]);
      assert ss == ss[..|ss| - 1] + [ss[|ss| - 1]];
    }
  }

  lemma {:induction false} DedupDistinct(ss: seq<string>)
    ensures Distinct(Dedup(ss))
    ensures Distinct(ss) ==> Dedup(ss) == ss
  {
    if ss != [] {
      DedupDistinct(ss[..|ss| - 1]);
      DedupMembers(ss[..|ss| - 1]);
    }
  }

  /** The names of `ss` whose present parent is `p` (`None`: the roots). */
  function WithParent(v: Listing, ss: seq<string>, p: Option<string>): seq<string> {
    if ss == [] then [] else
    var init := WithParent(v, ss[..|ss| - 1], p);
    if Parent(v.present, v.up, ss[|ss| - 1]) == p then init + [ss[|ss| - 1]] else init
  }

  lemma {:induction false} WithParentMembers(v: Listing, ss: seq<string>, p: Option<string>)
    ensures forall c :: c in WithParent(v, ss, p) <==> c in ss && Parent(v.present, v.up, c) == p
  {
    if ss != [] {
      WithParentMembers(v, ss[..|ss| - 1], p);
      assert ss == ss[..|ss| - 1] + [ss[|ss| - 1]];
    }
  }

  lemma {:induction false} WithParentDistinct(v: Listing, ss: seq<string>, p: Option<string>)
    requires Distinct(ss)
    ensures Distinct(WithParent(v, ss, p))
  {
    if ss != [] {
      WithParentDistinct(v, ss[..|ss| - 1], p);
      WithParentMembers(v, ss[..|ss| - 1], p);
    }
  }

  lemma {:induction false} DedupWithParent(v: Listing, ss: seq<string>, p: Option<string>)
    ensures Dedup(WithParent(v, ss, p)) == WithParent(v, Dedup(ss), p)
  {
    if ss != [] {
      var init, last := ss[..|ss| - 1], ss[|ss| - 1];
      DedupWithParent(v, init, p);
      WithParentMembers(v, init, p);
      var w := WithParent(v, init, p);
      assert (w + [last])[..|w|] == w;
      assert (Dedup(init) + [last])[..|Dedup(init)|] == Dedup(init);
    }
  }

  // ---- The recursive preorder ----------------------------------------------

  /** Children of `p` (`None`: the roots), once each, in input order. */
  function Kids(v: Listing, p: Option<string>): (ks: seq<string>)
    ensures forall c :: c in ks <==> c in v.names && Parent(v.present, v.up, c) == p
  {
    DedupMembers(v.names);
    WithParentMembers(v, Dedup(v.names), p);
    WithParent(v, Dedup(v.names), p)
  }

  ghost predicate AtDepth(v: Listing, cs: seq<string>, d: nat) {
    forall c :: c in cs ==> v.RootedAt(c, d)
  }

  /** `s` followed by its subtree, in preorder. */
  function Subtree(v: Listing, s: string, d: nat): seq<Entry>
    requires v.Valid() && v.RootedAt(s, d)
    decreases |v.present| - d, 1, 0
  {
    DepthBound(v.present, v.up, s, d);
    [Entry(s, d)] + Below(v, Kids(v, Some(s)), d + 1)
  }

  /** The subtrees of the siblings `cs`, one after the other. */
  function Below(v: Listing, cs: seq<string>, d: nat): seq<Entry>
    requires v.Valid() && AtDepth(v, cs, d)
    decreases |v.present| - d, 2, |cs|
  {
    if cs == [] then [] else
    assert cs[0] in cs;
    DepthBound(v.present, v.up, cs[0], d);
    Below(v, cs[..|cs| - 1], d) + Subtree(v, cs[|cs| - 1], d)
  }

  function Forest(v: Listing): seq<Entry>
    requires v.Valid()
  {
    Below(v, Kids(v, None), 0)
  }

  // ---- What the preorder lists ---------------------------------------------

  ghost predicate Under(v: Listing, s: string, d: nat, e: Entry) {
    d <= e.depth && v.RootedAt(e.name, e.depth) && Ancestor(v.present, v.up, e.name, e.depth - d) == Some(s)
  }

  /** The sibling subtree an entry belongs to. */
  ghost predicate UnderOne(v: Listing, cs: seq<string>, d: nat, e: Entry) {
    exists c :: c in cs && Under(v, c, d, e)
  }

  lemma {:induction false} UnderStep(v: Listing, s: string, d: nat, e: Entry)
    requires v.Valid() && v.RootedAt(s, d)
    ensures Under(v, s, d, e) <==> e == Entry(s, d) || UnderOne(v, Kids(v, Some(s)), d + 1, e)
  {
    var ks := Kids(v, Some(s));
    assert Ancestor(v.present, v.up, s, 0) == Some(s);
    if Under(v, s, d, e) && e.depth > d {
      var k := e.depth - d - 1;
      AncestorOfRooted(v.present, v.up, e.name, e.depth, k);
      AncestorAdd(v.present, v.up, e.name, k, 1);
      AncestorInNames(v.present, v.up, e.name, k);
      var c := Ancestor(v.present, v.up, e.name, k).value;
      assert Ancestor(v.present, v.up, c, 1) == Some(s);
      assert c in ks && Under(v, c, d + 1, e);
    }
    if UnderOne(v, ks, d + 1, e) {
      var c :| c in ks && Under(v, c, d + 1, e);
      AncestorAdd(v.present, v.up, e.name, e.depth - d - 1, 1);
      assert Ancestor(v.present, v.up, c, 1) == Ancestor(v.present, v.up, s, 0);
    }
  }

  /** A subtree lists exactly the descendants of its root, each at the depth
      that counts its present ancestors. */
  lemma {:induction false} SubtreeMembers(v: Listing, s: string, d: nat)
    requires v.Valid() && v.RootedAt(s, d)
    ensures forall e :: e in Subtree(v, s, d) <==> Under(v, s, d, e)
    decreases |v.present| - d, 1, 0
  {
    DepthBound(v.present, v.up, s, d);
    BelowMembers(v, Kids(v, Some(s)), d + 1);
    forall e
      ensures e in Subtree(v, s, d) <==> Under(v, s, d, e)
    {
      UnderStep(v, s, d, e);
    }
  }

  lemma {:induction false} BelowMembers(v: Listing, cs: seq<string>, d: nat)
    requires v.Valid() && AtDepth(v, cs, d)
    ensures forall e :: e in Below(v, cs, d) <==> UnderOne(v, cs, d, e)
    decreases |v.present| - d, 2, |cs|
  {
    if cs != [] {
      assert cs[0] in cs;
      DepthBound(v.present, v.up, cs[0], d);
      var init, last := cs[..|cs| - 1], cs[|cs| - 1];
      assert cs == init + [last];
      BelowMembers(v, init, d);
      SubtreeMembers(v, last, d);
    }
  }

  /** The list shows a session exactly when its parent chain ends, at the depth
      that counts its present ancestors. */
  lemma {:induction false} ForestMembers(v: Listing, e: Entry)
    requires v.Valid()
    ensures e in Forest(v) <==> v.RootedAt(e.name, e.depth)
  {
    var ks := Kids(v, None);
    BelowMembers(v, ks, 0);
    if v.RootedAt(e.name, e.depth) {
      AncestorOfRooted(v.present, v.up, e.name, e.depth, e.depth);
      AncestorInNames(v.present, v.up, e.name, e.depth);
      var r := Ancestor(v.present, v.up, e.name, e.depth).value;
      assert r in ks && Under(v, r, 0, e);
    }
  }

  // ---- No session twice ----------------------------------------------------

  function NamesOf(es: seq<Entry>): set<string> {
    if es == [] then {} else NamesOf(es[..|es| - 1]) + {es[|es| - 1].name}
  }

  lemma {:induction false} NamesOfMembers(es: seq<Entry>, n: string)
    ensures n in NamesOf(es) <==> exists e :: e in es && e.name == n
  {
    if es != [] {
      NamesOfMembers(es[..|es| - 1], n);
      assert es == es[..|es| - 1] + [es[|es| - 1]];
    }
  }

  lemma {:induction false} NamesOfAppend(a: seq<Entry>, b: seq<Entry>)
    ensures NamesOf(a + b) == NamesOf(a) + NamesOf(b)
  {
    if b == [] {
      assert a + b == a;
    } else {
      NamesOfAppend(a, b[..|b| - 1]);
      assert (a + b)[..|a + b| - 1] == a + b[..|b| - 1];
    }
  }

  lemma {:induction false} HeadNames(e: Entry, es: seq<Entry>)
    ensures NamesOf([e] + es) == {e.name} + NamesOf(es)
  {
    NamesOfAppend([e], es);
    assert NamesOf([e]) == {e.name};
  }

  ghost predicate DistinctNames(es: seq<Entry>) {
    forall i, j :: 0 <= i < j < |es| ==> es[i].name != es[j].name
  }

  lemma {:induction false} DistinctAppend(a: seq<Entry>, b: seq<Entry>)
    requires DistinctNames(a) && DistinctNames(b)
    requires forall e, f :: e in a && f in b ==> e.name != f.name
    ensures DistinctNames(a + b)
  {
    forall i, j | 0 <= i < j < |a + b|
      ensures (a + b)[i].name != (a + b)[j].name
    {
      if i < |a| <= j {
        assert (a + b)[i] in a && (a + b)[j] in b;
      }
    }
  }

  lemma {:induction false} SubtreeDistinct(v: Listing, s: string, d: nat)
    requires v.Valid() && v.RootedAt(s, d)
    ensures DistinctNames(Subtree(v, s, d))
    decreases |v.present| - d, 1, 0
  {
    DepthBound(v.present, v.up, s, d);
    var ks := Kids(v, Some(s));
    DedupDistinct(v.names);
    WithParentDistinct(v, Dedup(v.names), Some(s));
    BelowDistinct(v, ks, d + 1);
    BelowMembers(v, ks, d + 1);
    HeadFirst(v, s, d, Below(v, ks, d + 1));
  }

  lemma {:induction false} HeadFirst(v: Listing, s: string, d: nat, below: seq<Entry>)
    requires v.RootedAt(s, d) && DistinctNames(below)
    requires forall e :: e in below ==> v.RootedAt(e.name, e.depth) && d < e.depth
    ensures DistinctNames([Entry(s, d)] + below)
  {
    forall f | f in below
      ensures f.name != s
    {
      if f.name == s {
        RootedUnique(v.present, v.up, s, d, f.depth);
      }
    }
    DistinctAppend([Entry(s, d)], below);
  }

  lemma {:induction false} BelowDistinct(v: Listing, cs: seq<string>, d: nat)
    requires v.Valid() && AtDepth(v, cs, d) && Distinct(cs)
    ensures DistinctNames(Below(v, cs, d))
    decreases |v.present| - d, 2, |cs|
  {
    if cs != [] {
      assert cs[0] in cs;
      DepthBound(v.present, v.up, cs[0], d);
      var init, last := cs[..|cs| - 1], cs[|cs| - 1];
      BelowDistinct(v, init, d);
      SubtreeDistinct(v, last, d);
      BelowMembers(v, init, d);
      SubtreeMembers(v, last, d);
      forall e, f | e in Below(v, init, d) && f in Subtree(v, last, d)
        ensures e.name != f.name
      {
        assert UnderOne(v, init, d, e);
        if e.name == f.name {
          RootedUnique(v.present, v.up, e.name, e.depth, f.depth);
        }
      }
      DistinctAppend(Below(v, init, d), Subtree(v, last, d));
    }
  }

  /** No session is listed twice, even when the input repeats names. */
  lemma {:induction false} ForestDistinct(v: Listing)
    requires v.Valid()
    ensures DistinctNames(Forest(v))
  {
    DedupDistinct(v.names);
    WithParentDistinct(v, Dedup(v.names), None);
    BelowDistinct(v, Kids(v, None), 0);
  }

  // ---- Shape of the list ---------------------------------------------------

  /** The names listed, in order. */
  function Shown(es: seq<Entry>): (ns: seq<string>)
    ensures |ns| == |es|
    ensures forall i :: 0 <= i < |es| ==> ns[i] == es[i].name
  {
    if es == [] then [] else Shown(es[..|es| - 1]) + [es[|es| - 1].name]
  }

  /** The list is a permutation of the sessions exactly when no name repeats and
      no session is its own ancestor. */
  lemma {:induction false} PermutationIffNoCycle(v: Listing)
    requires v.Valid()
    ensures multiset(Shown(Forest(v))) == multiset(v.names)
            <==> Distinct(v.names) && forall s :: s in v.names ==> !OnCycle(v.present, v.up, s)
  {
    hide Forest;
    var shown := Shown(Forest(v));
    ForestDistinct(v);
    forall i | 0 <= i < |shown|
      ensures shown[i] in v.names
    {
      ForestMembers(v, Forest(v)[i]);
    }
    PermutationIffComplete(shown, v.names);
    forall s | s in v.names
      ensures s in shown <==> Ends(v.present, v.up, s)
    {
      ShownIffEnds(v, s);
    }
    AllEndIffNoCycle(v.present, v.up);
  }

  /** A session is shown exactly when its parent chain runs into no cycle. */
  lemma {:induction false} ShownIffEnds(v: Listing, s: string)
    requires v.Valid() && s in v.names
    ensures s in Shown(Forest(v)) <==> Ends(v.present, v.up, s)
    ensures s in Shown(Forest(v)) <==> !MeetsCycle(v.present, v.up, s)
  {
    hide Forest;
    EndsIffNoCycleAbove(v.present, v.up, s);
    var es := Forest(v);
    if s in Shown(es) {
      var i :| 0 <= i < |es| && Shown(es)[i] == s;
      ForestMembers(v, es[i]);
      assert Rooted(v.present, v.up, s, es[i].depth);
    }
    if Ends(v.present, v.up, s) {
      var n: nat :| Rooted(v.present, v.up, s, n);
      ForestMembers(v, Entry(s, n));
      var i :| 0 <= i < |es| && es[i] == Entry(s, n);
      assert Shown(es)[i] == s;
    }
  }

  /** `block` occurs in `es` with its first entry at `i`. */
  ghost predicate BlockAt(es: seq<Entry>, i: nat, block: seq<Entry>) {
    i + |block| <= |es| && es[i..i + |block|] == block
  }

  lemma {:induction false} BlockInside(a: seq<Entry>, b: seq<Entry>, c: seq<Entry>, i: nat, block: seq<Entry>)
    requires BlockAt(b, i, block)
    ensures BlockAt(a + b + c, |a| + i, block)
  {
  }

  lemma {:induction false} BelowLast(v: Listing, cs: seq<string>, d: nat)
    requires v.Valid() && AtDepth(v, cs, d) && cs != []
    ensures d < |v.present| && AtDepth(v, cs[..|cs| - 1], d) && v.RootedAt(cs[|cs| - 1], d)
    ensures Below(v, cs, d) == Below(v, cs[..|cs| - 1], d) + Subtree(v, cs[|cs| - 1], d)
  {
    assert cs[0] in cs;
    DepthBound(v.present, v.up, cs[0], d);
  }

  lemma {:induction false} SubtreeBlocks(v: Listing, s: string, d: nat, i: nat)
    requires v.Valid() && v.RootedAt(s, d) && i < |Subtree(v, s, d)|
    ensures var e := Subtree(v, s, d)[i];
            v.RootedAt(e.name, e.depth) && BlockAt(Subtree(v, s, d), i, Subtree(v, e.name, e.depth))
    decreases |v.present| - d, 1, 0
  {
    DepthBound(v.present, v.up, s, d);
    if i > 0 {
      var below := Below(v, Kids(v, Some(s)), d + 1);
      BelowBlocks(v, Kids(v, Some(s)), d + 1, i - 1);
      BlockInside([Entry(s, d)], below, [], i - 1, Subtree(v, below[i - 1].name, below[i - 1].depth));
      assert [Entry(s, d)] + below + [] == Subtree(v, s, d);
    }
  }

  lemma {:induction false} BelowBlocks(v: Listing, cs: seq<string>, d: nat, i: nat)
    requires v.Valid() && AtDepth(v, cs, d) && i < |Below(v, cs, d)|
    ensures var e := Below(v, cs, d)[i];
            v.RootedAt(e.name, e.depth) && BlockAt(Below(v, cs, d), i, Subtree(v, e.name, e.depth))
    decreases |v.present| - d, 2, |cs|
  {
    BelowLast(v, cs, d);
    var init, last := cs[..|cs| - 1], cs[|cs| - 1];
    var a, b := Below(v, init, d), Subtree(v, last, d);
    hide Below, Subtree;
    if i < |a| {
      BelowBlocks(v, init, d, i);
      BlockInside([], a, b, i, Subtree(v, a[i].name, a[i].depth));
      assert [] + a + b == a + b;
    } else {
      SubtreeBlocks(v, last, d, i - |a|);
      BlockInside(a, b, [], i - |a|, Subtree(v, b[i - |a|].name, b[i - |a|].depth));
      assert a + b + [] == a + b;
    }
  }

  /** Every shown session is followed by exactly its descendants, in one block. */
  lemma {:induction false} SubtreesContiguous(v: Listing, i: nat)
    requires v.Valid() && i < |Forest(v)|
    ensures var e := Forest(v)[i];
            v.RootedAt(e.name, e.depth) && BlockAt(Forest(v), i, Subtree(v, e.name, e.depth))
  {
    BelowBlocks(v, Kids(v, None), 0, i);
  }

  /** The shown names whose present parent is `p`, in list order. */
  function ShownUnder(v: Listing, es: seq<Entry>, p: Option<string>): seq<string> {
    WithParent(v, Shown(es), p)
  }

  lemma {:induction false} WithParentAppend(v: Listing, a: seq<string>, b: seq<string>, p: Option<string>)
    ensures WithParent(v, a + b, p) == WithParent(v, a, p) + WithParent(v, b, p)
  {
    if b == [] {
      assert a + b == a;
    } else {
      WithParentAppend(v, a, b[..|b| - 1], p);
      assert (a + b)[..|a + b| - 1] == a + b[..|b| - 1];
    }
  }

  lemma {:induction false} ShownUnderAppend(v: Listing, a: seq<Entry>, b: seq<Entry>, p: Option<string>)
    ensures ShownUnder(v, a + b, p) == ShownUnder(v, a, p) + ShownUnder(v, b, p)
  {
    assert Shown(a + b) == Shown(a) + Shown(b);
    WithParentAppend(v, Shown(a), Shown(b), p);
  }

  lemma {:induction false} ListsName(v: Listing, s: string, d: nat, p: string)
    requires v.Valid() && v.RootedAt(s, d)
    ensures p in NamesOf(Subtree(v, s, d)) <==> exists e :: Under(v, s, d, e) && e.name == p
  {
    SubtreeMembers(v, s, d);
    NamesOfMembers(Subtree(v, s, d), p);
  }

  lemma {:induction false} HeadSibling(v: Listing, e: Entry, es: seq<Entry>, p: Option<string>)
    ensures ShownUnder(v, [e] + es, p)
            == (if Parent(v.present, v.up, e.name) == p then [e.name] else []) + ShownUnder(v, es, p)
  {
    ShownUnderAppend(v, [e], es, p);
    assert Shown([e]) == [e.name];
    assert WithParent(v, [e.name], p)
           == WithParent(v, [], p) + if Parent(v.present, v.up, e.name) == p then [e.name] else [];
  }

  lemma {:induction false} KidsDistinct(v: Listing, p: Option<string>)
    ensures Distinct(Kids(v, p))
  {
    DedupDistinct(v.names);
    WithParentDistinct(v, Dedup(v.names), p);
  }

  /** Inside the subtree of `s`, the children of a listed `p` are in input order. */
  lemma {:induction false} SubtreeSiblings(v: Listing, s: string, d: nat, p: string)
    requires v.Valid() && v.RootedAt(s, d)
    ensures ShownUnder(v, Subtree(v, s, d), Some(p))
            == (if Parent(v.present, v.up, s) == Some(p) then [s] else [])
               + (if p in NamesOf(Subtree(v, s, d)) then Kids(v, Some(p)) else [])
    decreases |v.present| - d, 1, 0
  {
    DepthBound(v.present, v.up, s, d);
    var ks := Kids(v, Some(s));
    var below := Below(v, ks, d + 1);
    HeadSibling(v, Entry(s, d), below, Some(p));
    KidsDistinct(v, Some(s));
    HeadNames(Entry(s, d), below);
    HeadNotBelow(v, s, d);
    BelowSiblings(v, ks, d + 1, Some(s), p);
  }

  lemma {:induction false} HeadNotBelow(v: Listing, s: string, d: nat)
    requires v.Valid() && v.RootedAt(s, d)
    ensures AtDepth(v, Kids(v, Some(s)), d + 1) && s !in NamesOf(Below(v, Kids(v, Some(s)), d + 1))
  {
    var ks := Kids(v, Some(s));
    BelowMembers(v, ks, d + 1);
    NamesOfMembers(Below(v, ks, d + 1), s);
    if s in NamesOf(Below(v, ks, d + 1)) {
      var e :| e in Below(v, ks, d + 1) && e.name == s;
      RootedUnique(v.present, v.up, s, d, e.depth);
    }
  }

  lemma {:induction false} BelowSiblings(v: Listing, cs: seq<string>, d: nat, parent: Option<string>, p: string)
    requires v.Valid() && AtDepth(v, cs, d) && Distinct(cs)
    requires forall c :: c in cs ==> Parent(v.present, v.up, c) == parent
    requires parent == Some(p) ==> p !in NamesOf(Below(v, cs, d))
    ensures ShownUnder(v, Below(v, cs, d), Some(p))
            == if parent == Some(p) then cs else if p in NamesOf(Below(v, cs, d)) then Kids(v, Some(p)) else []
    decreases |v.present| - d, 2, |cs|
  {
    if cs != [] {
      hide *;
      BelowLast(v, cs, d);
      SplitLast(cs);
      var init, last := cs[..|cs| - 1], cs[|cs| - 1];
      var a, b := Below(v, init, d), Subtree(v, last, d);
      NamesOfAppend(a, b);
      ShownUnderAppend(v, a, b, Some(p));
      BelowSiblings(v, init, d, parent, p);
      SubtreeSiblings(v, last, d, p);
      OneSubtree(v, init, last, d, p);
      Joined(ShownUnder(v, a, Some(p)), ShownUnder(v, b, Some(p)), init, last, Kids(v, Some(p)),
             parent == Some(p), p in NamesOf(a), p in NamesOf(b));
    }
  }

  lemma {:induction false} SplitLast(cs: seq<string>)
    requires cs != [] && Distinct(cs)
    ensures Distinct(cs[..|cs| - 1]) && cs[|cs| - 1] !in cs[..|cs| - 1]
    ensures cs[..|cs| - 1] + [cs[|cs| - 1]] == cs
    ensures cs[|cs| - 1] in cs && forall c :: c in cs[..|cs| - 1] ==> c in cs
  {
  }

  lemma {:induction false} Joined(sa: seq<string>, sb: seq<string>, init: seq<string>, last: string, kids: seq<string>,
               same: bool, inA: bool, inB: bool)
    requires same ==> !inA && !inB
    requires !(inA && inB)
    requires sa == if same then init else if inA then kids else []
    requires sb == (if same then [last] else []) + (if inB then kids else [])
    ensures sa + sb == if same then init + [last] else if inA || inB then kids else []
  {
  }

  /** No name is in the subtrees of two different siblings. */
  lemma {:induction false} OneSubtree(v: Listing, cs: seq<string>, c: string, d: nat, p: string)
    requires v.Valid() && AtDepth(v, cs, d) && v.RootedAt(c, d) && c !in cs
    ensures !(p in NamesOf(Below(v, cs, d)) && p in NamesOf(Subtree(v, c, d)))
  {
    BelowMembers(v, cs, d);
    ListsName(v, c, d, p);
    NamesOfMembers(Below(v, cs, d), p);
    if p in NamesOf(Below(v, cs, d)) && p in NamesOf(Subtree(v, c, d)) {
      var e :| e in Below(v, cs, d) && e.name == p;
      var f :| Under(v, c, d, f) && f.name == p;
      RootedUnique(v.present, v.up, p, e.depth, f.depth);
    }
  }

  /** Siblings are listed in input order, without omissions. */
  lemma {:induction false} SiblingsInInputOrder(v: Listing, p: string)
    requires v.Valid() && p in Shown(Forest(v))
    ensures ShownUnder(v, Forest(v), Some(p)) == Kids(v, Some(p))
  {
    var ks := Kids(v, None);
    DedupDistinct(v.names);
    WithParentDistinct(v, Dedup(v.names), None);
    BelowSiblings(v, ks, 0, None, p);
    NamesOfMembers(Forest(v), p);
    var i :| 0 <= i < |Forest(v)| && Shown(Forest(v))[i] == p;
    assert Forest(v)[i] in Forest(v);
  }

  // ---- The traversal -------------------------------------------------------

  ghost predicate StackOk(v: Listing, stack: seq<Entry>) {
    forall e :: e in stack ==> v.RootedAt(e.name, e.depth)
  }

  /** What popping `stack` (top last) still has to list, given the names listed. */
  ghost function Rest(v: Listing, stack: seq<Entry>, visited: set<string>): seq<Entry>
    requires v.Valid() && StackOk(v, stack)
  {
    if stack == [] then [] else
    var e, init := stack[|stack| - 1], stack[..|stack| - 1];
    if e.name in visited then Rest(v, init, visited) else
    var t := Subtree(v, e.name, e.depth);
    t + Rest(v, init, visited + NamesOf(t))
  }

  /** `cs` pushed at depth `d` so that the first of them ends on top. */
  function Push(cs: seq<string>, d: nat): (es: seq<Entry>)
    ensures forall e :: e in es ==> e.name in cs && e.depth == d
  {
    if cs == [] then [] else Push(cs[1..], d) + [Entry(cs[0], d)]
  }

  lemma {:induction false} RestTop(v: Listing, stack: seq<Entry>, e: Entry, visited: set<string>)
    requires v.Valid() && StackOk(v, stack) && v.RootedAt(e.name, e.depth)
    ensures StackOk(v, stack + [e])
    ensures Rest(v, stack + [e], visited) ==
            if e.name in visited then Rest(v, stack, visited) else
            var t := Subtree(v, e.name, e.depth);
            t + Rest(v, stack, visited + NamesOf(t))
  {
    assert (stack + [e])[..|stack|] == stack;
  }

  lemma {:induction false} BelowOneMore(v: Listing, cs: seq<string>, c: string, d: nat)
    requires v.Valid() && AtDepth(v, cs, d) && v.RootedAt(c, d)
    ensures AtDepth(v, cs + [c], d)
    ensures Below(v, cs + [c], d) == Below(v, cs, d) + Subtree(v, c, d)
  {
    assert (cs + [c])[..|cs|] == cs;
  }

  /** A sibling is among the names listed so far only if it was popped itself. */
  lemma {:induction false} SiblingListed(v: Listing, cs: seq<string>, c: string, d: nat)
    requires v.Valid() && AtDepth(v, cs, d) && v.RootedAt(c, d)
    ensures c in NamesOf(Below(v, cs, d)) <==> c in cs
  {
    BelowMembers(v, cs, d);
    NamesOfMembers(Below(v, cs, d), c);
    assert Ancestor(v.present, v.up, c, 0) == Some(c);
    if c in cs {
      assert Under(v, c, d, Entry(c, d));
    }
    if c in NamesOf(Below(v, cs, d)) {
      var e :| e in Below(v, cs, d) && e.name == c;
      RootedUnique(v.present, v.up, c, d, e.depth);
    }
  }

  lemma {:induction false} TopPopped(v: Listing, d: nat, cs: seq<string>, c: string, stack: seq<Entry>,
        before: set<string>)
    requires v.Valid() && StackOk(v, stack) && AtDepth(v, cs, d) && v.RootedAt(c, d) && c !in before
    ensures StackOk(v, stack + [Entry(c, d)]) && AtDepth(v, cs + [c], d)
    ensures var a := Below(v, cs, d);
            var b := if c in cs then a else Below(v, cs + [c], d);
            a + Rest(v, stack + [Entry(c, d)], before + NamesOf(a)) == b + Rest(v, stack, before + NamesOf(b))
  {
    SiblingListed(v, cs, c, d);
    BelowOneMore(v, cs, c, d);
    var a, t := Below(v, cs, d), Subtree(v, c, d);
    RestTop(v, stack, Entry(c, d), before + NamesOf(a));
    if c !in cs {
      NamesOfAppend(a, t);
      UnionAssoc(before, NamesOf(a), NamesOf(t));
      ConcatAssoc(a, t, Rest(v, stack, before + NamesOf(a + t)));
    }
  }

  lemma {:induction false} UnionAssoc(a: set<string>, b: set<string>, c: set<string>)
    ensures a + b + c == a + (b + c)
  {
  }

  lemma {:induction false} ConcatAssoc(a: seq<Entry>, b: seq<Entry>, c: seq<Entry>)
    ensures a + (b + c) == a + b + c
  {
  }

  lemma {:induction false} PushTop(cs: seq<string>, stack: seq<Entry>, d: nat)
    requires cs != []
    ensures stack + Push(cs, d) == (stack + Push(cs[1..], d)) + [Entry(cs[0], d)]
  {
  }

  /** Popping the siblings `todo`, all at depth `d`, lists the subtrees of those
      not already in `done` and skips repeats. */
  lemma {:induction false} SiblingsPopped(v: Listing, d: nat, done: seq<string>, todo: seq<string>,
                                          stack: seq<Entry>, before: set<string>)
    requires v.Valid() && StackOk(v, stack) && AtDepth(v, Dedup(done), d) && AtDepth(v, Dedup(done + todo), d)
    requires AtDepth(v, todo, d) && forall c :: c in todo ==> c !in before
    ensures StackOk(v, stack + Push(todo, d))
    ensures Below(v, Dedup(done), d) + Rest(v, stack + Push(todo, d), before + NamesOf(Below(v, Dedup(done), d)))
            == Below(v, Dedup(done + todo), d) + Rest(v, stack, before + NamesOf(Below(v, Dedup(done + todo), d)))
    decreases |todo|
  {
    if todo == [] {
      assert done + todo == done && stack + Push(todo, d) == stack;
    } else {
      var c, next := todo[0], done + [todo[0]];
      assert done + todo == next + todo[1..];
      assert next[..|done|] == done;
      DedupMembers(done);
      BelowOneMore(v, Dedup(done), c, d);
      SiblingsPopped(v, d, next, todo[1..], stack, before);
      PushTop(todo, stack, d);
      TopPopped(v, d, Dedup(done), c, stack + Push(todo[1..], d), before);
    }
  }

  lemma {:induction false} AllPopped(v: Listing, d: nat, cs: seq<string>, stack: seq<Entry>, before: set<string>)
    requires v.Valid() && StackOk(v, stack) && AtDepth(v, cs, d) && forall c :: c in cs ==> c !in before
    ensures StackOk(v, stack + Push(cs, d)) && AtDepth(v, Dedup(cs), d)
    ensures var below := Below(v, Dedup(cs), d);
            Rest(v, stack + Push(cs, d), before) == below + Rest(v, stack, before + NamesOf(below))
  {
    DedupMembers(cs);
    assert [] + cs == cs && before + {} == before;
    SiblingsPopped(v, d, [], cs, stack, before);
  }

  /** Every visited session's parent was visited. */
  ghost predicate ParentsFirst(v: Listing, visited: set<string>) {
    forall t, p :: t in visited && p !in visited ==> Parent(v.present, v.up, t) != Some(p)
  }

  /** Every stacked session's parent was visited. */
  ghost predicate ParentsListed(v: Listing, stack: seq<Entry>, visited: set<string>) {
    forall e, p :: e in stack && p !in visited ==> Parent(v.present, v.up, e.name) != Some(p)
  }

  lemma {:induction false} RawKids(v: Listing, e: Entry, cs: seq<string>)
    requires v.Valid() && v.RootedAt(e.name, e.depth) && cs == WithParent(v, v.names, Some(e.name))
    ensures Dedup(cs) == Kids(v, Some(e.name)) && AtDepth(v, cs, e.depth + 1)
    ensures forall c :: c in cs ==> c != e.name && Parent(v.present, v.up, c) == Some(e.name)
  {
    DedupWithParent(v, v.names, Some(e.name));
    WithParentMembers(v, v.names, Some(e.name));
    forall c | c in cs
      ensures v.RootedAt(c, e.depth + 1) && c != e.name
    {
      assert Rooted(v.present, v.up, c, e.depth + 1);
      if c == e.name {
        RootedUnique(v.present, v.up, c, e.depth + 1, e.depth);
      }
    }
  }

  /** One pop of an unlisted session and the pushes of its children. */
  lemma {:induction false} PopStep(v: Listing, stack: seq<Entry>, e: Entry, cs: seq<string>, visited: set<string>)
    requires v.Valid() && StackOk(v, stack) && v.RootedAt(e.name, e.depth) && e.name !in visited
    requires AtDepth(v, cs, e.depth + 1) && Dedup(cs) == Kids(v, Some(e.name))
    requires forall c :: c in cs ==> c !in visited + {e.name}
    ensures StackOk(v, stack + Push(cs, e.depth + 1)) && StackOk(v, stack + [e])
    ensures Rest(v, stack + [e], visited) == [e] + Rest(v, stack + Push(cs, e.depth + 1), visited + {e.name})
  {
    var seen, below := visited + {e.name}, Below(v, Dedup(cs), e.depth + 1);
    AllPopped(v, e.depth + 1, cs, stack, seen);
    RestTop(v, stack, e, visited);
    SubtreeNames(v, e, below, visited);
    ConcatAssoc([e], below, Rest(v, stack, seen + NamesOf(below)));
  }

  lemma {:induction false} SubtreeNames(v: Listing, e: Entry, below: seq<Entry>, visited: set<string>)
    requires v.Valid() && v.RootedAt(e.name, e.depth)
    requires AtDepth(v, Kids(v, Some(e.name)), e.depth + 1) && below == Below(v, Kids(v, Some(e.name)), e.depth + 1)
    ensures Subtree(v, e.name, e.depth) == [e] + below
    ensures visited + NamesOf(Subtree(v, e.name, e.depth)) == visited + {e.name} + NamesOf(below)
  {
    HeadNames(e, below);
  }

  /** The pushed roots list the whole forest. */
  lemma {:induction false} RootsPushed(v: Listing, roots: seq<string>)
    requires v.Valid() && roots == WithParent(v, v.names, None)
    ensures StackOk(v, Push(roots, 0)) && Rest(v, Push(roots, 0), {}) == Forest(v)
  {
    WithParentMembers(v, v.names, None);
    DedupWithParent(v, v.names, None);
    AllPopped(v, 0, roots, [], {});
    assert [] + Push(roots, 0) == Push(roots, 0);
    assert Forest(v) + [] == Forest(v);
  }

  /** The loop's invariant: what was listed and what is still stacked make up
      the forest. */
  ghost predicate Underway(v: Listing, out: seq<Entry>, stack: seq<Entry>, visited: set<string>) {
    && v.Valid() && StackOk(v, stack) && visited <= v.present
    && ParentsFirst(v, visited) && ParentsListed(v, stack, visited)
    && out + Rest(v, stack, visited) == Forest(v)
  }

  lemma {:induction false} SkipKeeps(v: Listing, out: seq<Entry>, stack: seq<Entry>, e: Entry, visited: set<string>)
    requires Underway(v, out, stack + [e], visited) && e.name in visited
    ensures Underway(v, out, stack, visited)
  {
    StackedBelow(v, stack, e);
    RestTop(v, stack, e, visited);
    assert forall x :: x in stack ==> x in stack + [e];
  }

  lemma {:induction false} StackedBelow(v: Listing, stack: seq<Entry>, e: Entry)
    requires StackOk(v, stack + [e])
    ensures StackOk(v, stack) && v.RootedAt(e.name, e.depth)
  {
    assert e in stack + [e] && forall x :: x in stack ==> x in stack + [e];
  }

  lemma {:induction false} PopKeeps(v: Listing, out: seq<Entry>, stack: seq<Entry>, e: Entry, visited: set<string>,
        cs: seq<string>)
    requires Underway(v, out, stack + [e], visited) && e.name !in visited
    requires cs == WithParent(v, v.names, Some(e.name))
    ensures Underway(v, out + [e], stack + Push(cs, e.depth + 1), visited + {e.name}) && e.name in v.present
  {
    StackedBelow(v, stack, e);
    RawKids(v, e, cs);
    PopStep(v, stack, e, cs, visited);
    ConcatAssoc(out, [e], Rest(v, stack + Push(cs, e.depth + 1), visited + {e.name}));
    assert e in stack + [e] && forall x :: x in stack ==> x in stack + [e];
  }

  /** The children of each present parent, by parent, in input order. */
  method ChildrenByParent(v: Listing) returns (children: map<string, seq<string>>)
    requires v.Valid()
    ensures forall p :: (if p in children then children[p] else []) == WithParent(v, v.names, Some(p))
  {
    children := map[];
    for i := 0 to |v.names|
      invariant forall p :: (if p in children then children[p] else []) == WithParent(v, v.names[..i], Some(p))
    {
      var s := v.names[i];
      assert v.names[..i + 1][..i] == v.names[..i];
      if s in v.up && v.up[s] in v.present {
        var p := v.up[s];
        children := children[p := (if p in children then children[p] else []) + [s]];
      }
    }
    assert v.names[..|v.names|] == v.names;
  }

  method Roots(v: Listing) returns (roots: seq<string>)
    requires v.Valid()
    ensures roots == WithParent(v, v.names, None)
  {
    roots := [];
    for i := 0 to |v.names|
      invariant roots == WithParent(v, v.names[..i], None)
    {
      var s := v.names[i];
      assert v.names[..i + 1][..i] == v.names[..i];
      if !(s in v.up && v.up[s] in v.present) {
        roots := roots + [s];
      }
    }
    assert v.names[..|v.names|] == v.names;
  }

  /** Push `cs` in reverse, so the first of them is popped first. */
  method PushAll(stack: seq<Entry>, cs: seq<string>, d: nat) returns (pushed: seq<Entry>)
    ensures pushed == stack + Push(cs, d)
  {
    pushed := stack;
    assert cs[|cs|..] == [];
    for i := |cs| downto 0
      invariant pushed == stack + Push(cs[i..], d)
    {
      pushed := pushed + [Entry(cs[i], d)];
      assert cs[i..][1..] == cs[i + 1..];
    }
  }

  /** Nest session names under their parents, with depths. */
  method NestSessions(sessions: seq<string>, parentOf: map<string, string>) returns (out: seq<Entry>)
    ensures var v := Listing(sessions, (set s | s in sessions), parentOf);
            v.Valid() && out == Forest(v)
  {
    var v := Listing(sessions, (set s | s in sessions), parentOf);
    hide Underway, Forest;
    var children := ChildrenByParent(v);
    var roots := Roots(v);
    var stack := PushAll([], roots, 0);
    var visited: set<string> := {};
    out := [];
    Starts(v, roots, stack);
    while stack != []
      invariant Underway(v, out, stack, visited)
      decreases v.present - visited, |stack|
    {
      var e, init := stack[|stack| - 1], stack[..|stack| - 1];
      assert stack == init + [e];
      stack := init;
      if e.name in visited {
        SkipKeeps(v, out, init, e, visited);
        continue;
      }
      out := out + [e];
      var kids := if e.name in children then children[e.name] else [];
      PopKeeps(v, out[..|out| - 1], init, e, visited, kids);
      visited := visited + {e.name};
      stack := PushAll(stack, kids, e.depth + 1);
    }
    Finishes(v, out, visited);
  }

  lemma {:induction false} Starts(v: Listing, roots: seq<string>, stack: seq<Entry>)
    requires v.Valid() && roots == WithParent(v, v.names, None) && stack == [] + Push(roots, 0)
    ensures Underway(v, [], stack, {})
  {
    assert stack == Push(roots, 0);
    RootsPushed(v, roots);
    RootsUnparented(v, roots);
    assert [] + Forest(v) == Forest(v);
  }

  lemma {:induction false} Finishes(v: Listing, out: seq<Entry>, visited: set<string>)
    requires v.Valid() && Underway(v, out, [], visited)
    ensures out == Forest(v)
  {
    assert out + [] == out;
  }

  lemma {:induction false} RootsUnparented(v: Listing, roots: seq<string>)
    requires v.Valid() && roots == WithParent(v, v.names, None)
    ensures StackOk(v, Push(roots, 0)) && ParentsListed(v, Push(roots, 0), {})
  {
    WithParentMembers(v, v.names, None);
  }
}
