/** The suffix trie: nodes live in a store and refer to each other by index, as the source's nodes do by
    pointer. Insertion updates nodes in place, stops at an included node and purges what lies below the
    node it includes. */
module DomainTrie {
  import opened Words
  import opened DomainLabels

  /** `children` is None while the child map is nil. */
  datatype Node = Node(included: bool, children: Option<map<string, nat>>)

  type Store = seq<Node>

  const Leaf := Node(false, None)

  function Child(st: Store, i: nat, l: string): Option<nat>
    requires i < |st|
  {
    if st[i].children.Some? && l in st[i].children.value then Some(st[i].children.value[l]) else None
  }

  /** `path[i]` are the labels that lead to node i; a child is younger than its parent; an included node
      has no children. */
  ghost predicate Wf(st: Store, path: seq<Path>) {
    && |st| == |path| > 0 && path[0] == [] && !st[0].included
    && (forall i, l :: 0 <= i < |st| && Child(st, i, l).Some? ==>
          i < Child(st, i, l).value < |st| && path[Child(st, i, l).value] == path[i] + [l] && DotFree(l))
    && (forall i :: 0 <= i < |st| && st[i].included ==> st[i].children.None?)
  }

  /** The node reached from node i along the labels q. */
  ghost function Walk(st: Store, path: seq<Path>, i: nat, q: Path): (r: Option<nat>)
    requires Wf(st, path) && i < |st|
    ensures r.Some? ==> r.value < |st| && path[r.value] == path[i] + q
    ensures r.Some? ==> forall k :: 0 <= k < |q| ==> DotFree(q[k])
    decreases |q|
  {
    if q == [] then Some(i)
    else if Child(st, i, q[0]).None? then None
    else
      assert path[i] + q == (path[i] + [q[0]]) + q[1..];
      assert q == [q[0]] + q[1..];
      Walk(st, path, Child(st, i, q[0]).value, q[1..])
  }

  ghost predicate Has(st: Store, path: seq<Path>, q: Path)
    requires Wf(st, path)
  {
    q != [] && Walk(st, path, 0, q).Some? && st[Walk(st, path, 0, q).value].included
  }

  /** Some non-empty prefix of q is included. */
  ghost predicate Covered(st: Store, path: seq<Path>, q: Path)
    requires Wf(st, path)
  {
    exists r :: r != [] && r <= q && Has(st, path, r)
  }

  // ----- walking -----

  lemma {:induction false} WalkAppend(st: Store, path: seq<Path>, i: nat, q: Path, l: string)
    requires Wf(st, path) && i < |st|
    ensures var w := Walk(st, path, i, q);
            Walk(st, path, i, q + [l]) == if w.Some? then Child(st, w.value, l) else None
    decreases |q|
  {
    if q == [] {
      assert q + [l] == [l] && [l][1..] == [];
    } else if Child(st, i, q[0]).Some? {
      assert (q + [l])[1..] == q[1..] + [l];
      WalkAppend(st, path, Child(st, i, q[0]).value, q[1..], l);
    }
  }

  /** Below an included node there is nothing. */
  lemma {:induction false} WalkStopsAtIncluded(st: Store, path: seq<Path>, i: nat, q: Path, k: nat)
    requires Wf(st, path) && i < |st| && k < |q|
    requires Walk(st, path, i, q[..k]).Some? && st[Walk(st, path, i, q[..k]).value].included
    ensures Walk(st, path, i, q).None?
    decreases |q|
  {
    if k > 0 && Child(st, i, q[0]).Some? {
      assert q[..k][0] == q[0] && q[..k][1..] == q[1..][..k - 1];
      WalkStopsAtIncluded(st, path, Child(st, i, q[0]).value, q[1..], k - 1);
    } else if k == 0 {
      assert q[..0] == [];
    }
  }

  /** How far below node i the node c lies on the path q, if it lies there. */
  ghost predicate Passes(st: Store, path: seq<Path>, i: nat, q: Path, c: nat)
    requires Wf(st, path) && i < |st| && c < |st|
  {
    var k := |path[c]| - |path[i]|;
    0 <= k < |q| && Walk(st, path, i, q[..k]) == Some(c)
  }

  lemma PassesBelow(st: Store, path: seq<Path>, i: nat, q: Path, c: nat)
    requires Wf(st, path) && i < |st| && c < |st| && q != [] && i != c && Child(st, i, q[0]).Some?
    ensures Passes(st, path, i, q, c) <==> Passes(st, path, Child(st, i, q[0]).value, q[1..], c)
    ensures Passes(st, path, i, q, c) ==>
              |path[c]| - |path[i]| >= 1 && q[|path[c]| - |path[i]|] == q[1..][|path[c]| - |path[i]| - 1]
  {
    var k := |path[c]| - |path[i]|;
    var j := Child(st, i, q[0]).value;
    assert |path[j]| == |path[i]| + 1;
    if 1 <= k < |q| {
      assert q[..k][0] == q[0] && q[..k][1..] == q[1..][..k - 1];
    }
    if k == 0 {
      assert q[..0] == [];
    }
  }

  // ----- adding a child -----

  ghost function AddChild(st: Store, c: nat, l: string, included: bool): Store
    requires c < |st|
  {
    var cs := if st[c].children.Some? then st[c].children.value else map[];
    st[c := st[c].(children := Some(cs[l := |st|]))] + [Node(included, None)]
  }

  lemma AddChildWf(st: Store, path: seq<Path>, c: nat, l: string, included: bool)
    requires Wf(st, path) && c < |st| && !st[c].included && Child(st, c, l).None? && DotFree(l)
    ensures Wf(AddChild(st, c, l, included), path + [path[c] + [l]])
    ensures forall i, m :: 0 <= i < |st| ==>
              Child(AddChild(st, c, l, included), i, m) ==
              if i == c && m == l then Some(|st|) else Child(st, i, m)
    ensures forall m :: Child(AddChild(st, c, l, included), |st|, m).None?
  {
    var st', path' := AddChild(st, c, l, included), path + [path[c] + [l]];
    AddChildNodes(st, c, l, included);
    forall i, m | 0 <= i < |st'| && Child(st', i, m).Some?
      ensures i < Child(st', i, m).value < |st'| && path'[Child(st', i, m).value] == path'[i] + [m] && DotFree(m)
    {
      hide AddChild, Child;
      assert i < |st|;
      if i == c && m == l {
      } else {
        assert Child(st, i, m).Some?;
      }
    }
  }

  lemma AddChildNodes(st: Store, c: nat, l: string, included: bool)
    requires c < |st| && Child(st, c, l).None?
    ensures var st' := AddChild(st, c, l, included);
            && |st'| == |st| + 1 && st'[|st|] == Node(included, None)
            && (forall i :: 0 <= i < |st| && i != c ==> st'[i] == st[i])
            && st'[c].included == st[c].included
            && (forall i, m :: 0 <= i < |st| ==>
                  Child(st', i, m) == if i == c && m == l then Some(|st|) else Child(st, i, m))
            && (forall m :: Child(st', |st|, m).None?)
  {}

  lemma {:induction false} AddChildWalk(st: Store, path: seq<Path>, c: nat, l: string, included: bool, i: nat, q: Path)
    requires Wf(st, path) && c < |st| && !st[c].included && Child(st, c, l).None? && DotFree(l) && i < |st|
    requires Wf(AddChild(st, c, l, included), path + [path[c] + [l]])
    ensures var k := |path[c]| - |path[i]|;
            Walk(AddChild(st, c, l, included), path + [path[c] + [l]], i, q) ==
            if Passes(st, path, i, q, c) && q[k] == l then (if k == |q| - 1 then Some(|st|) else None)
            else Walk(st, path, i, q)
    decreases |q|
  {
    AddChildWf(st, path, c, l, included);
    if q != [] {
      assert q[..0] == [];
      if i != c && Child(st, i, q[0]).Some? {
        PassesBelow(st, path, i, q, c);
        AddChildWalk(st, path, c, l, included, Child(st, i, q[0]).value, q[1..]);
      } else if i != c {
        NoPassWithoutChild(st, path, i, q, c);
      } else if q[0] != l && Child(st, i, q[0]).Some? {
        NoPassBelow(st, path, Child(st, i, q[0]).value, q[1..], c);
        AddChildWalk(st, path, c, l, included, Child(st, i, q[0]).value, q[1..]);
      }
    }
  }

  lemma NoPassWithoutChild(st: Store, path: seq<Path>, i: nat, q: Path, c: nat)
    requires Wf(st, path) && i < |st| && c < |st| && q != [] && i != c && Child(st, i, q[0]).None?
    ensures !Passes(st, path, i, q, c)
  {
    var k := |path[c]| - |path[i]|;
    if 1 <= k < |q| {
      assert q[..k][0] == q[0];
    } else if k == 0 {
      assert q[..0] == [];
    }
  }

  lemma NoPassBelow(st: Store, path: seq<Path>, j: nat, q: Path, c: nat)
    requires Wf(st, path) && j < |st| && c < |st| && |path[c]| < |path[j]|
    ensures !Passes(st, path, j, q, c)
  {}

  // ----- including a node -----

  lemma MarkWf(st: Store, path: seq<Path>, c: nat)
    requires Wf(st, path) && 0 < c < |st|
    ensures Wf(st[c := Node(true, None)], path)
    ensures forall i, m :: 0 <= i < |st| ==> Child(st[c := Node(true, None)], i, m) == if i == c then None else Child(st, i, m)
  {
    var st' := st[c := Node(true, None)];
    forall i, m | 0 <= i < |st|
      ensures Child(st', i, m) == if i == c then None else Child(st, i, m)
    {
      assert i != c ==> st'[i] == st[i];
    }
    forall i, m | 0 <= i < |st'| && Child(st', i, m).Some?
      ensures i < Child(st', i, m).value < |st'| && path[Child(st', i, m).value] == path[i] + [m] && DotFree(m)
    {
      assert Child(st, i, m).Some?;
    }
  }

  lemma {:induction false} MarkWalk(st: Store, path: seq<Path>, c: nat, i: nat, q: Path)
    requires Wf(st, path) && 0 < c < |st| && i < |st| && Wf(st[c := Node(true, None)], path)
    ensures Walk(st[c := Node(true, None)], path, i, q) ==
            if Passes(st, path, i, q, c) then None else Walk(st, path, i, q)
    decreases |q|
  {
    MarkWf(st, path, c);
    if q != [] {
      assert q[..0] == [];
      if i != c && Child(st, i, q[0]).Some? {
        PassesBelow(st, path, i, q, c);
        MarkWalk(st, path, c, Child(st, i, q[0]).value, q[1..]);
      } else if i != c {
        NoPassWithoutChild(st, path, i, q, c);
      }
    }
  }

  // ----- what a step does to the included paths -----

  lemma {:induction false} WalkOffTheTrie(st: Store, path: seq<Path>, i: nat, q: Path, k: nat)
    requires Wf(st, path) && i < |st| && k <= |q| && Walk(st, path, i, q[..k]).None?
    ensures Walk(st, path, i, q).None?
    decreases |q|
  {
    if k > 0 && Child(st, i, q[0]).Some? {
      assert q[..k][0] == q[0] && q[..k][1..] == q[1..][..k - 1];
      WalkOffTheTrie(st, path, Child(st, i, q[0]).value, q[1..], k - 1);
    }
  }

  lemma PassesRoot(st: Store, path: seq<Path>, q: Path, c: nat)
    requires Wf(st, path) && c < |st| && Walk(st, path, 0, path[c]) == Some(c)
    ensures Passes(st, path, 0, q, c) <==> path[c] < q
  {
    var k := |path[c]|;
    if k < |q| && Walk(st, path, 0, q[..k]) == Some(c) {
      assert path[c] == [] + q[..k];
    }
    if path[c] < q {
      assert q[..k] == path[c];
    }
  }

  lemma RootPath(st: Store, path: seq<Path>)
    requires Wf(st, path)
    ensures |st| == |path| > 0 && path[0] == []
  {}

  lemma NotThereYet(st: Store, path: seq<Path>, c: nat, l: string, q: Path)
    requires Wf(st, path) && c < |st| && Walk(st, path, 0, path[c]) == Some(c) && Child(st, c, l).None?
    requires path[c] < q && q[|path[c]|] == l
    ensures Walk(st, path, 0, q).None?
  {
    WalkAppend(st, path, 0, path[c], l);
    assert q[..|path[c]| + 1] == path[c] + [l];
    WalkOffTheTrie(st, path, 0, q, |path[c]| + 1);
  }

  lemma AddChildHas(st: Store, path: seq<Path>, c: nat, l: string, b: bool, q: Path)
    requires Wf(st, path) && c < |st| && !st[c].included && Child(st, c, l).None? && DotFree(l)
    requires Walk(st, path, 0, path[c]) == Some(c)
    requires Wf(AddChild(st, c, l, b), path + [path[c] + [l]])
    ensures Has(AddChild(st, c, l, b), path + [path[c] + [l]], q) <==>
            Has(st, path, q) || (b && q == path[c] + [l])
  {
    hide Wf, Walk, Passes, AddChild, Child;
    RootPath(st, path);
    var k := |path[c]|;
    AddChildNodes(st, c, l, b);
    AddChildWalk(st, path, c, l, b, 0, q);
    PassesRoot(st, path, q, c);
    if path[c] < q && q[k] == l {
      NotThereYet(st, path, c, l, q);
      assert k == |q| - 1 ==> q == path[c] + [l];
    }
  }

  lemma MarkHas(st: Store, path: seq<Path>, c: nat, q: Path)
    requires Wf(st, path) && 0 < c < |st| && path[c] != [] && Walk(st, path, 0, path[c]) == Some(c)
    requires Wf(st[c := Node(true, None)], path)
    ensures Has(st[c := Node(true, None)], path, q) <==> q == path[c] || (Has(st, path, q) && !(path[c] < q))
  {
    MarkWalk(st, path, c, 0, q);
    PassesRoot(st, path, q, c);
    if Walk(st, path, 0, q).Some? {
      assert path[Walk(st, path, 0, q).value] == [] + q;
    }
  }

  lemma HasIsDotFree(st: Store, path: seq<Path>, q: Path)
    requires Wf(st, path) && Has(st, path, q)
    ensures Labels(Join(q)) == q
  {
    LabelsJoin(q);
  }

  // ----- rules -----

  ghost predicate Matched(rules: set<string>, domain: string) {
    exists s :: s in rules && MatchSuffix(domain, s)
  }

  /** A rule that no other rule already covers. */
  ghost predicate Core(rules: set<string>, s: string) {
    s in rules && forall t :: t in rules && MatchSuffix(s, t) ==> t == s
  }

  lemma MatchSuffixTransitive(a: string, b: string, c: string)
    requires MatchSuffix(a, b) && MatchSuffix(b, c)
    ensures MatchSuffix(a, c)
  {
    MatchSuffixIsPrefix(a, b);
    MatchSuffixIsPrefix(b, c);
    MatchSuffixIsPrefix(a, c);
  }

  lemma {:induction false} CoreBelow(rules: set<string>, s: string) returns (t: string)
    requires s in rules
    ensures Core(rules, t) && MatchSuffix(s, t)
    decreases |s|
  {
    if u :| u in rules && MatchSuffix(s, u) && u != s {
      t := CoreBelow(rules, u);
      MatchSuffixTransitive(s, u, t);
    } else {
      t := s;
    }
  }

  /** Dropping the covered rules changes no answer. */
  lemma CoreMatchesTheSame(rules: set<string>, keys: set<string>, domain: string)
    requires forall s :: s in keys <==> Core(rules, s)
    ensures Matched(keys, domain) <==> Matched(rules, domain)
  {
    if s :| s in rules && MatchSuffix(domain, s) {
      var t := CoreBelow(rules, s);
      MatchSuffixTransitive(domain, s, t);
    }
  }

  lemma LabelsInjective(a: string, b: string)
    requires Labels(a) == Labels(b)
    ensures a == b
  {
    JoinLabels(a);
    JoinLabels(b);
  }

  lemma ProperPrefix(s: string, d: string)
    ensures Labels(d) < Labels(s) <==> MatchSuffix(s, d) && s != d
  {
    MatchSuffixIsPrefix(s, d);
    if Labels(d) == Labels(s) {
      LabelsInjective(d, s);
    }
  }

  /** The included paths are the rules that no other rule covers. */
  ghost predicate Represents(st: Store, path: seq<Path>, rules: set<string>)
    requires Wf(st, path)
  {
    forall s :: Has(st, path, Labels(s)) <==> Core(rules, s)
  }

  lemma CoveredIsMatched(st: Store, path: seq<Path>, rules: set<string>, domain: string)
    requires Wf(st, path) && Represents(st, path, rules)
    ensures Covered(st, path, Labels(domain)) <==> Matched(rules, domain)
  {
    if r :| r != [] && r <= Labels(domain) && Has(st, path, r) {
      HasIsDotFree(st, path, r);
      MatchSuffixIsPrefix(domain, Join(r));
      assert Core(rules, Join(r));
    }
    if s :| s in rules && MatchSuffix(domain, s) {
      var t := CoreBelow(rules, s);
      MatchSuffixTransitive(domain, s, t);
      MatchSuffixIsPrefix(domain, t);
      assert Has(st, path, Labels(t));
    }
  }

  /** A rule below an included node adds nothing. */
  lemma CoveredRuleIsRedundant(rules: set<string>, d: string, t: string, s: string)
    requires t in rules && MatchSuffix(d, t) && t != d
    ensures Core(rules + {d}, s) <==> Core(rules, s)
  {
    if s != d && Core(rules, s) && MatchSuffix(s, d) {
      MatchSuffixTransitive(s, d, t);
      ProperPrefix(d, s);
      ProperPrefix(s, d);
    }
  }

  /** A rule that nothing covers joins, and takes the rules below it out. */
  lemma UncoveredRuleReplaces(rules: set<string>, d: string, s: string)
    requires forall t :: t in rules && MatchSuffix(d, t) ==> t == d
    ensures Core(rules + {d}, s) <==> s == d || (Core(rules, s) && !MatchSuffix(s, d))
  {
    if s != d && Core(rules + {d}, s) {
      assert MatchSuffix(s, d) ==> d == s;
    }
  }

  lemma NothingCovers(st: Store, path: seq<Path>, rules: set<string>, d: string)
    requires Wf(st, path) && Represents(st, path, rules)
    requires forall r :: r < Labels(d) ==> !Has(st, path, r)
    ensures forall t :: t in rules && MatchSuffix(d, t) ==> t == d
  {
    forall t | t in rules && MatchSuffix(d, t)
      ensures t == d
    {
      var u := CoreBelow(rules, t);
      MatchSuffixTransitive(d, t, u);
      assert Has(st, path, Labels(u));
      ProperPrefix(d, u);
      assert u == d;
      ProperPrefix(d, t);
      ProperPrefix(t, d);
    }
  }
}
