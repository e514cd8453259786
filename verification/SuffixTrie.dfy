/** DomainSuffixTrie: insertion, matching and listing of keys, each a walk over the label nodes. */
module SuffixTrie {
  import opened Words
  import opened DomainLabels
  import opened DomainTrie

  // ----- one step of the scan from the right -----

  /** What a scan that has consumed `k` labels of `whole` and looks at `rest[i]` next knows. */
  ghost predicate Scanning(whole: string, rest: string, k: nat, i: int) {
    && -1 <= i < |rest| && k < |Labels(whole)|
    && Labels(whole)[k..] == Labels(rest)
    && DotFree(rest[i + 1..])
  }

  lemma ScanStart(s: string)
    ensures Scanning(s, s, 0, |s| - 1)
  {
    assert Labels(s)[0..] == Labels(s);
  }

  lemma ScanSkip(whole: string, rest: string, k: nat, i: int)
    requires Scanning(whole, rest, k, i) && i >= 0 && rest[i] != '.'
    ensures Scanning(whole, rest, k, i - 1)
  {
    assert rest[i..] == [rest[i]] + rest[i + 1..];
  }

  lemma ScanLabel(whole: string, rest: string, k: nat, i: int)
    requires Scanning(whole, rest, k, i) && i >= 0 && rest[i] == '.'
    ensures k + 1 < |Labels(whole)| && Labels(whole)[k] == rest[i + 1..] && DotFree(rest[i + 1..])
    ensures Scanning(whole, rest[..i], k + 1, i - 1)
    ensures Labels(whole)[..k + 1] == Labels(whole)[..k] + [rest[i + 1..]]
  {
    var a, b := rest[..i], rest[i + 1..];
    assert rest == a + "." + b;
    LabelsOfDotted(a, b);
    assert Labels(rest)[1..] == Labels(a);
    assert Labels(whole)[k..][1..] == Labels(whole)[k + 1..];
    assert Labels(whole)[k] == Labels(whole)[k..][0];
    assert a[i..] == [];
  }

  lemma ScanEnd(whole: string, rest: string, k: nat)
    requires Scanning(whole, rest, k, -1)
    ensures k == |Labels(whole)| - 1 && DotFree(rest)
    ensures Labels(whole) == Labels(whole)[..k] + [rest]
  {
    assert rest[0..] == rest;
    LabelsOfDotFree(rest);
    assert |Labels(whole)[k..]| == 1;
    assert Labels(whole)[k] == Labels(whole)[k..][0] == rest;
  }

  // ----- the walk that goes with the scan -----

  /** Node c is where the first k labels of the domain lead, and nothing on the way is included. */
  ghost predicate At(st: Store, path: seq<Path>, domain: string, k: nat, c: nat)
    requires Wf(st, path)
  {
    && k < |Labels(domain)| && c < |st| && !st[c].included
    && path[c] == Labels(domain)[..k]
    && Walk(st, path, 0, path[c]) == Some(c)
  }

  lemma AtRoot(st: Store, path: seq<Path>, domain: string)
    requires Wf(st, path)
    ensures At(st, path, domain, 0, 0)
  {
    assert Labels(domain)[..0] == [];
  }

  lemma StepDown(st: Store, path: seq<Path>, domain: string, k: nat, c: nat, l: string)
    requires Wf(st, path) && At(st, path, domain, k, c)
    requires Labels(domain)[..k + 1] == Labels(domain)[..k] + [l]
    ensures Walk(st, path, 0, Labels(domain)[..k + 1]) == Child(st, c, l)
    ensures Child(st, c, l).Some? ==> path[Child(st, c, l).value] == Labels(domain)[..k + 1]
  {
    WalkAppend(st, path, 0, path[c], l);
  }

  /** No proper prefix consumed so far is included. */
  lemma NoneIncludedAbove(st: Store, path: seq<Path>, domain: string, k: nat, c: nat)
    requires Wf(st, path) && At(st, path, domain, k, c)
    ensures forall r :: r <= Labels(domain)[..k] ==> !Has(st, path, r)
  {
    var p := Labels(domain)[..k];
    forall r | r <= p
      ensures !Has(st, path, r)
    {
      if Has(st, path, r) && |r| < |p| {
        assert p[..|r|] == r;
        WalkStopsAtIncluded(st, path, 0, p, |r|);
      } else if |r| == |p| {
        assert r == p;
      }
    }
  }

  lemma CoveredByChild(st: Store, path: seq<Path>, domain: string, k: nat, c: nat, l: string)
    requires Wf(st, path) && At(st, path, domain, k, c) && k + 1 <= |Labels(domain)|
    requires Labels(domain)[..k + 1] == Labels(domain)[..k] + [l]
    ensures Child(st, c, l).None? ==> !Covered(st, path, Labels(domain))
    ensures Child(st, c, l).Some? && st[Child(st, c, l).value].included ==> Covered(st, path, Labels(domain))
    ensures k + 1 == |Labels(domain)| && Child(st, c, l).Some? && !st[Child(st, c, l).value].included ==>
              !Covered(st, path, Labels(domain))
  {
    var p := Labels(domain);
    StepDown(st, path, domain, k, c, l);
    if Child(st, c, l).Some? && st[Child(st, c, l).value].included {
      assert p[..k + 1] <= p && Has(st, path, p[..k + 1]);
    } else if Child(st, c, l).None? || k + 1 == |p| {
      NoneIncludedAbove(st, path, domain, k, c);
      forall r | r != [] && r <= p
        ensures !Has(st, path, r)
      {
        PrefixSplit(r, p, k);
        if |r| > k {
          assert r[..k + 1] == p[..k + 1];
          if Child(st, c, l).None? {
            WalkOffTheTrie(st, path, 0, r, k + 1);
          } else {
            assert r == p[..k + 1];
          }
        }
      }
    }
  }

  lemma PrefixSplit(r: Path, p: Path, k: nat)
    requires r <= p && k < |p|
    ensures |r| <= k ==> r <= p[..k]
    ensures |r| > k ==> r[..k + 1] == p[..k + 1]
  {
    assert r == p[..|r|];
  }

  // ----- insertion, seen on the included paths -----

  lemma AddInner(st: Store, path: seq<Path>, rules: set<string>, domain: string, k: nat, c: nat, l: string)
    requires Wf(st, path) && Represents(st, path, rules) && At(st, path, domain, k, c)
    requires k + 1 < |Labels(domain)| && Labels(domain)[..k + 1] == Labels(domain)[..k] + [l]
    requires Child(st, c, l).None? && DotFree(l)
    ensures var st', path' := AddChild(st, c, l, false), path + [path[c] + [l]];
            Wf(st', path') && Represents(st', path', rules) && At(st', path', domain, k + 1, |st|)
  {
    var st', path' := AddChild(st, c, l, false), path + [path[c] + [l]];
    AddChildWf(st, path, c, l, false);
    AddChildNodes(st, c, l, false);
    forall s
      ensures Has(st', path', Labels(s)) <==> Core(rules, s)
    {
      AddChildHas(st, path, c, l, false, Labels(s));
    }
    var q := path'[|st|];
    assert q == path[c] + [l];
    AddChildWalk(st, path, c, l, false, 0, q);
    PassesRoot(st, path, q, c);
  }

  lemma AddLeaf(st: Store, path: seq<Path>, rules: set<string>, domain: string, k: nat, c: nat, l: string)
    requires Wf(st, path) && Represents(st, path, rules) && At(st, path, domain, k, c)
    requires k + 1 == |Labels(domain)| && Labels(domain) == Labels(domain)[..k] + [l]
    requires Child(st, c, l).None? && DotFree(l)
    ensures var st', path' := AddChild(st, c, l, true), path + [path[c] + [l]];
            Wf(st', path') && Represents(st', path', rules + {domain})
  {
    var st', path' := AddChild(st, c, l, true), path + [path[c] + [l]];
    AddChildWf(st, path, c, l, true);
    UncoveredSoFar(st, path, rules, domain, k, c);
    StepDownLast(st, path, domain, k, c, l);
    forall s
      ensures Has(st', path', Labels(s)) <==> Core(rules + {domain}, s)
    {
      AddChildHas(st, path, c, l, true, Labels(s));
      UncoveredRuleReplaces(rules, domain, s);
      ProperPrefix(s, domain);
      if Labels(s) == Labels(domain) {
        LabelsInjective(s, domain);
      }
      if Labels(domain) < Labels(s) {
        assert Labels(s)[..k + 1] == Labels(domain);
        WalkOffTheTrie(st, path, 0, Labels(s), k + 1);
      }
    }
  }

  lemma StepDownLast(st: Store, path: seq<Path>, domain: string, k: nat, c: nat, l: string)
    requires Wf(st, path) && At(st, path, domain, k, c)
    requires k + 1 == |Labels(domain)| && Labels(domain) == Labels(domain)[..k] + [l]
    ensures Walk(st, path, 0, Labels(domain)) == Child(st, c, l)
  {
    assert Labels(domain)[..k + 1] == Labels(domain);
    StepDown(st, path, domain, k, c, l);
  }

  lemma UncoveredSoFar(st: Store, path: seq<Path>, rules: set<string>, domain: string, k: nat, c: nat)
    requires Wf(st, path) && Represents(st, path, rules) && At(st, path, domain, k, c)
    requires k + 1 == |Labels(domain)|
    ensures forall t :: t in rules && MatchSuffix(domain, t) ==> t == domain
  {
    NoneIncludedAbove(st, path, domain, k, c);
    forall r | r < Labels(domain)
      ensures !Has(st, path, r)
    {
      PrefixSplit(r, Labels(domain), k);
    }
    NothingCovers(st, path, rules, domain);
  }

  lemma MarkLeaf(st: Store, path: seq<Path>, rules: set<string>, domain: string, k: nat, c: nat, l: string)
    requires Wf(st, path) && Represents(st, path, rules) && At(st, path, domain, k, c)
    requires k + 1 == |Labels(domain)| && Labels(domain) == Labels(domain)[..k] + [l]
    requires Child(st, c, l).Some?
    ensures var st' := st[Child(st, c, l).value := Node(true, None)];
            Wf(st', path) && Represents(st', path, rules + {domain})
  {
    var n := Child(st, c, l).value;
    var st' := st[n := Node(true, None)];
    MarkWf(st, path, n);
    UncoveredSoFar(st, path, rules, domain, k, c);
    StepDownLast(st, path, domain, k, c, l);
    forall s
      ensures Has(st', path, Labels(s)) <==> Core(rules + {domain}, s)
    {
      MarkHas(st, path, n, Labels(s));
      UncoveredRuleReplaces(rules, domain, s);
      ProperPrefix(s, domain);
      if Labels(s) == Labels(domain) {
        LabelsInjective(s, domain);
      }
    }
  }

  lemma StopAtIncluded(st: Store, path: seq<Path>, rules: set<string>, domain: string, k: nat, c: nat, l: string)
    requires Wf(st, path) && Represents(st, path, rules) && At(st, path, domain, k, c)
    requires k + 1 < |Labels(domain)| && Labels(domain)[..k + 1] == Labels(domain)[..k] + [l]
    requires Child(st, c, l).Some? && st[Child(st, c, l).value].included
    ensures Represents(st, path, rules + {domain})
  {
    var r := Labels(domain)[..k + 1];
    StepDown(st, path, domain, k, c, l);
    assert Has(st, path, r);
    HasIsDotFree(st, path, r);
    var t := Join(r);
    assert Core(rules, t);
    ProperPrefix(domain, t);
    forall s
      ensures Core(rules + {domain}, s) <==> Core(rules, s)
    {
      CoveredRuleIsRedundant(rules, domain, t, s);
    }
  }

  lemma Descend(st: Store, path: seq<Path>, domain: string, k: nat, c: nat, l: string)
    requires Wf(st, path) && At(st, path, domain, k, c)
    requires k + 1 < |Labels(domain)| && Labels(domain)[..k + 1] == Labels(domain)[..k] + [l]
    requires Child(st, c, l).Some? && !st[Child(st, c, l).value].included
    ensures At(st, path, domain, k + 1, Child(st, c, l).value)
  {
    StepDown(st, path, domain, k, c, l);
  }

  lemma InStore(st: Store, path: seq<Path>)
    requires Wf(st, path)
    ensures |st| == |path| > 0
    ensures forall i, l :: 0 <= i < |st| && Child(st, i, l).Some? ==> i < Child(st, i, l).value < |st|
  {}

  // ----- listing -----

  ghost predicate NoDup(a: seq<string>) {
    forall i, j :: 0 <= i < j < |a| ==> a[i] != a[j]
  }

  lemma NoDupAppend(a: seq<string>, b: seq<string>)
    requires NoDup(a) && NoDup(b) && forall s :: s in a ==> s !in b
    ensures NoDup(a + b)
  {
    var c := a + b;
    forall i, j | 0 <= i < j < |c|
      ensures c[i] != c[j]
    {
      if i < |a| <= j {
        assert c[i] in a && c[j] == b[j - |a|];
      }
    }
  }

  /** The string s is an included path at or below node i. */
  ghost predicate KeyBelow(st: Store, path: seq<Path>, i: nat, s: string)
    requires Wf(st, path) && i < |st|
  {
    && path[i] <= Labels(s)
    && var w := Walk(st, path, i, Labels(s)[|path[i]|..]);
       w.Some? && st[w.value].included
  }

  ghost predicate ViaChild(st: Store, path: seq<Path>, i: nat, l: string, s: string)
    requires Wf(st, path) && i < |st|
  {
    Child(st, i, l).Some? && KeyBelow(st, path, Child(st, i, l).value, s)
  }

  lemma KeyBelowSplit(st: Store, path: seq<Path>, i: nat, s: string)
    requires Wf(st, path) && i < |st|
    ensures KeyBelow(st, path, i, s) <==>
            (st[i].included && Labels(s) == path[i]) || exists l :: ViaChild(st, path, i, l, s)
  {
    var p, q := path[i], Labels(s);
    if p <= q && |p| < |q| {
      var l := q[|p|];
      assert q[|p|..][0] == l && q[|p|..][1..] == q[|p| + 1..];
      if KeyBelow(st, path, i, s) {
        assert p + [l] <= q;
        assert ViaChild(st, path, i, l, s);
      }
    }
    if l :| ViaChild(st, path, i, l, s) {
      ViaLabel(st, path, i, l, s);
      assert q[|p|..][0] == l && q[|p|..][1..] == q[|p| + 1..];
    }
    if q == p {
      assert q[|p|..] == [];
    }
  }

  lemma ViaLabel(st: Store, path: seq<Path>, i: nat, l: string, s: string)
    requires Wf(st, path) && i < |st| && ViaChild(st, path, i, l, s)
    ensures path[i] < Labels(s) && Labels(s)[|path[i]|] == l
  {
    assert path[i] + [l] <= Labels(s);
    assert (path[i] + [l])[|path[i]|] == l;
    assert path[i] == (path[i] + [l])[..|path[i]|];
  }

  lemma KeyBelowRoot(st: Store, path: seq<Path>, s: string)
    requires Wf(st, path)
    ensures KeyBelow(st, path, 0, s) <==> Has(st, path, Labels(s))
  {
    assert Labels(s)[0..] == Labels(s);
  }

  /** What the loop over a node's children has listed when the labels in `done` have been visited. */
  ghost predicate Listed(st: Store, path: seq<Path>, i: nat, done: set<string>, out: seq<string>)
    requires Wf(st, path) && i < |st|
  {
    && NoDup(out)
    && forall s :: s in out <==>
         (st[i].included && Labels(s) == path[i]) || exists l :: l in done && ViaChild(st, path, i, l, s)
  }

  lemma ListedOwn(st: Store, path: seq<Path>, i: nat, suffix: string)
    requires Wf(st, path) && i < |st| && Labels(suffix) == path[i]
    ensures Listed(st, path, i, {}, if st[i].included then [suffix] else [])
  {
    forall s | Labels(s) == path[i]
      ensures s == suffix
    {
      LabelsInjective(s, suffix);
    }
  }

  lemma ListedStep(st: Store, path: seq<Path>, i: nat, done: set<string>, out: seq<string>, l: string, more: seq<string>)
    requires Wf(st, path) && i < |st| && Listed(st, path, i, done, out) && l !in done && Child(st, i, l).Some?
    requires NoDup(more) && forall s :: s in more <==> KeyBelow(st, path, Child(st, i, l).value, s)
    ensures Listed(st, path, i, done + {l}, out + more)
  {
    forall s | s in more
      ensures s !in out
    {
      assert ViaChild(st, path, i, l, s);
      ViaLabel(st, path, i, l, s);
      if m :| m in done && ViaChild(st, path, i, m, s) {
        ViaLabel(st, path, i, m, s);
      }
    }
    NoDupAppend(out, more);
    forall s
      ensures s in out + more <==>
              (st[i].included && Labels(s) == path[i]) || exists m :: m in done + {l} && ViaChild(st, path, i, m, s)
    {
      assert s in more <==> ViaChild(st, path, i, l, s);
    }
  }

  lemma ListedAll(st: Store, path: seq<Path>, i: nat, done: set<string>, out: seq<string>)
    requires Wf(st, path) && i < |st| && Listed(st, path, i, done, out)
    requires forall l :: Child(st, i, l).Some? ==> l in done
    ensures NoDup(out) && forall s :: s in out <==> KeyBelow(st, path, i, s)
  {
    forall s
      ensures s in out <==> KeyBelow(st, path, i, s)
    {
      KeyBelowSplit(st, path, i, s);
    }
  }

  lemma Extended(keys: seq<string>, out: seq<string>, r: seq<string>, n: nat)
    requires n == |keys| + |out| <= |r| && r[..n] == keys + out
    ensures r == keys + (out + r[n..])
  {
    assert r == r[..n] + r[n..];
  }

  /** The string handed to a child is its own path. */
  lemma ChildSuffix(st: Store, path: seq<Path>, i: nat, suffix: string, l: string)
    requires Wf(st, path) && i < |st| && Child(st, i, l).Some?
    ensures Labels(suffix) == path[i] ==> Labels(l + "." + suffix) == path[Child(st, i, l).value]
    ensures i == 0 ==> Labels(l) == path[Child(st, i, l).value]
  {
    LabelsOfDotFree(l);
    if Labels(suffix) == path[i] {
      JoinLabels(suffix);
      JoinFront(path[i], l);
      LabelsJoin(path[i] + [l]);
    }
  }

  lemma {:induction false} JoinFront(p: Path, l: string)
    requires p != []
    ensures Join(p + [l]) == l + "." + Join(p)
    decreases |p|
  {
    assert (p + [l])[1..] == p[1..] + [l];
    if |p| > 1 {
      JoinFront(p[1..], l);
      assert (p + [l])[0] == p[0];
      assert l + "." + Join(p[1..]) + "." + p[0] == l + "." + (Join(p[1..]) + "." + p[0]);
    }
  }

  lemma ListedRoot(st: Store, path: seq<Path>)
    requires Wf(st, path)
    ensures Listed(st, path, 0, {}, [])
  {}

  lemma RootKeys(st: Store, path: seq<Path>, rules: set<string>)
    requires Wf(st, path) && Represents(st, path, rules)
    ensures forall s :: KeyBelow(st, path, 0, s) <==> Core(rules, s)
  {
    forall s
      ensures KeyBelow(st, path, 0, s) <==> Core(rules, s)
    {
      KeyBelowRoot(st, path, s);
    }
  }

  lemma ChildrenOnceInserted(st: Store, path: seq<Path>, rules: set<string>)
    requires Wf(st, path) && Represents(st, path, rules) && rules != {}
    ensures st[0].children.Some?
  {
    var s :| s in rules;
    var t := CoreBelow(rules, s);
    assert Has(st, path, Labels(t));
    assert Child(st, 0, Labels(t)[0]).Some?;
  }

  class DomainSuffixTrie {
    var nodes: Store
    ghost var path: seq<Path>
    ghost var rules: set<string>

    ghost predicate Valid()
      reads this
    {
      && Wf(nodes, path) && Represents(nodes, path, rules)
      && (rules == {} ==> nodes[0].children.None?)
    }

    constructor ()
      ensures Valid() && rules == {}
    {
      nodes := [Leaf];
      path := [[]];
      rules := {};
      new;
      assert forall l :: Child(nodes, 0, l).None?;
    }

    /** A new child of node c; a nil child map is allocated first. */
    method Create(c: nat, part: string, included: bool) returns (n: nat)
      requires c < |nodes| == |path|
      modifies this
      ensures n == old(|nodes|) && nodes == AddChild(old(nodes), c, part, included)
      ensures path == old(path) + [old(path)[c] + [part]] && rules == old(rules)
    {
      n := |nodes|;
      if nodes[c].children.None? {
        nodes := nodes[c := nodes[c].(children := Some(map[part := n]))];
      } else {
        nodes := nodes[c := nodes[c].(children := Some(nodes[c].children.value[part := n]))];
      }
      nodes := nodes + [Node(included, None)];
      path := path + [path[c] + [part]];
    }

    method Insert(rule: string)
      requires Valid()
      modifies this
      ensures Valid() && rules == old(rules) + {rule}
    {
      hide Wf, Represents, At, Walk, Labels, Scanning;
      var domain, i := rule, |rule| - 1;
      var c: nat := 0;
      ghost var k := 0;
      ScanStart(rule);
      AtRoot(nodes, path, rule);
      while i >= 0
        invariant Wf(nodes, path) && Represents(nodes, path, rules) && rules == old(rules)
        invariant -1 <= i < |domain| && c < |nodes|
        invariant Scanning(rule, domain, k, i) && At(nodes, path, rule, k, c)
        decreases i
      {
        if domain[i] != '.' {
          ScanSkip(rule, domain, k, i);
          i := i - 1;
          continue;
        }
        ScanLabel(rule, domain, k, i);
        var part := domain[i + 1..];
        InStore(nodes, path);
        ghost var next := Child(nodes, c, part);
        domain := domain[..i];
        if nodes[c].children.None? || part !in nodes[c].children.value {
          AddInner(nodes, path, rules, rule, k, c, part);
          c := Create(c, part, false);
        } else {
          var n := nodes[c].children.value[part];
          if nodes[n].included {
            StopAtIncluded(nodes, path, rules, rule, k, c, part);
            rules := rules + {rule};
            return;
          }
          Descend(nodes, path, rule, k, c, part);
          c := n;
        }
        k := k + 1;
        i := i - 1;
      }
      ScanEnd(rule, domain, k);
      InStore(nodes, path);
      if nodes[c].children.None? || domain !in nodes[c].children.value {
        AddLeaf(nodes, path, rules, rule, k, c, domain);
        c := Create(c, domain, true);
      } else {
        MarkLeaf(nodes, path, rules, rule, k, c, domain);
        var n := nodes[c].children.value[domain];
        nodes := nodes[n := Node(true, None)];
      }
      rules := rules + {rule};
    }

    method Match(name: string) returns (r: bool)
      requires Valid()
      ensures r <==> Matched(rules, name)
    {
      hide Wf, Represents, At, Walk, Labels, Scanning, Covered, Matched;
      var domain, i := name, |name| - 1;
      var c: nat := 0;
      ghost var k := 0;
      ScanStart(name);
      AtRoot(nodes, path, name);
      InStore(nodes, path);
      CoveredIsMatched(nodes, path, rules, name);
      while i >= 0
        invariant -1 <= i < |domain| && c < |nodes|
        invariant Scanning(name, domain, k, i) && At(nodes, path, name, k, c)
        decreases i
      {
        if domain[i] != '.' {
          ScanSkip(name, domain, k, i);
          i := i - 1;
          continue;
        }
        ScanLabel(name, domain, k, i);
        var part := domain[i + 1..];
        ghost var next := Child(nodes, c, part);
        CoveredByChild(nodes, path, name, k, c, part);
        if nodes[c].children.None? || part !in nodes[c].children.value {
          return false;
        }
        var n := nodes[c].children.value[part];
        if nodes[n].included {
          return true;
        }
        Descend(nodes, path, name, k, c, part);
        c := n;
        domain := domain[..i];
        k := k + 1;
        i := i - 1;
      }
      ScanEnd(name, domain, k);
      assert Labels(name)[..k + 1] == Labels(name)[..k] + [domain];
      CoveredByChild(nodes, path, name, k, c, domain);
      ghost var next := Child(nodes, c, domain);
      if nodes[c].children.None? || domain !in nodes[c].children.value {
        return false;
      }
      return nodes[nodes[c].children.value[domain]].included;
    }

    /** keys: this node's own path if it is included, then its children's, in whatever order the child
        map yields them. */
    method KeysFrom(i: nat, suffix: string, keys: seq<string>) returns (r: seq<string>)
      requires Wf(nodes, path) && i < |nodes| && Labels(suffix) == path[i]
      ensures |keys| <= |r| && r[..|keys|] == keys && NoDup(r[|keys|..])
      ensures forall s :: s in r[|keys|..] <==> KeyBelow(nodes, path, i, s)
      decreases |nodes| - i
    {
      hide Wf, KeyBelow, ViaChild, Listed, NoDup, Labels;
      InStore(nodes, path);
      ListedOwn(nodes, path, i, suffix);
      r := keys;
      if nodes[i].included {
        r := r + [suffix];
      }
      ghost var out := if nodes[i].included then [suffix] else [];
      var todo := if nodes[i].children.Some? then nodes[i].children.value.Keys else {};
      ghost var done := {};
      while todo != {}
        invariant forall l :: Child(nodes, i, l).Some? <==> l in todo || l in done
        invariant todo !! done
        invariant r == keys + out && Listed(nodes, path, i, done, out)
        decreases |todo|
      {
        var l :| l in todo;
        assert Child(nodes, i, l).Some?;
        ChildSuffix(nodes, path, i, suffix, l);
        ghost var before := r;
        r := KeysFrom(nodes[i].children.value[l], l + "." + suffix, r);
        ghost var more := r[|before|..];
        Extended(keys, out, r, |before|);
        ListedStep(nodes, path, i, done, out, l, more);
        out := out + more;
        done := done + {l};
        todo := todo - {l};
      }
      ListedAll(nodes, path, i, done, out);
      assert r[|keys|..] == out && r[..|keys|] == keys;
    }

    /** The rules that no shorter rule covers, each once. */
    method Keys() returns (keys: seq<string>)
      requires Valid()
      ensures NoDup(keys)
      ensures forall s :: s in keys <==> Core(rules, s)
    {
      hide Wf, KeyBelow, ViaChild, Listed, NoDup, Labels, Core;
      InStore(nodes, path);
      keys := [];
      ListedRoot(nodes, path);
      var todo := if nodes[0].children.Some? then nodes[0].children.value.Keys else {};
      ghost var done := {};
      while todo != {}
        invariant forall l :: Child(nodes, 0, l).Some? <==> l in todo || l in done
        invariant todo !! done
        invariant Listed(nodes, path, 0, done, keys)
        decreases |todo|
      {
        var l :| l in todo;
        assert Child(nodes, 0, l).Some?;
        ChildSuffix(nodes, path, 0, "", l);
        ghost var before := keys;
        keys := KeysFrom(nodes[0].children.value[l], l, keys);
        assert keys == before + keys[|before|..];
        ListedStep(nodes, path, 0, done, before, l, keys[|before|..]);
        done := done + {l};
        todo := todo - {l};
      }
      ListedAll(nodes, path, 0, done, keys);
      RootKeys(nodes, path, rules);
    }

    /** MatcherCount: zero exactly when nothing was inserted. */
    function MatcherCount(): (n: nat)
      requires Valid()
      reads this
      ensures n == if rules == {} then 0 else 1
    {
      assert rules != {} ==> nodes[0].children.Some? by {
        if rules != {} {
          ChildrenOnceInserted(nodes, path, rules);
        }
      }
      if nodes[0].children.None? then 0 else 1
    }
  }

  method DomainSuffixTrieFromSlice(suffixes: seq<string>) returns (t: DomainSuffixTrie)
    ensures fresh(t) && t.Valid() && t.rules == set s | s in suffixes
  {
    t := new DomainSuffixTrie();
    for i := 0 to |suffixes|
      invariant fresh(t) && t.Valid() && t.rules == set s | s in suffixes[..i]
    {
      t.Insert(suffixes[i]);
    }
    assert suffixes[..|suffixes|] == suffixes;
  }

  /** A trie rebuilt from another trie's keys answers every query alike. */
  method Rebuild(t: DomainSuffixTrie) returns (u: DomainSuffixTrie)
    requires t.Valid()
    ensures fresh(u) && u.Valid() && t.Valid()
    ensures forall name :: Matched(u.rules, name) <==> Matched(t.rules, name)
  {
    var keys := t.Keys();
    u := DomainSuffixTrieFromSlice(keys);
    forall name
      ensures Matched(u.rules, name) <==> Matched(t.rules, name)
    {
      CoreMatchesTheSame(t.rules, u.rules, name);
    }
  }
}
