/** Builders of the four rule kinds, and the domain sets made from them. */
module DomainSets {
  import opened Words
  import opened DomainTrie
  import opened SuffixTrie
  import opened DomainMatchers

  ghost function Tries(ms: seq<Matcher>): set<object> {
    set m | m in ms && m.SuffixTree? :: m.trie
  }

  ghost predicate ValidSet(ms: seq<Matcher>)
    reads Tries(ms)
  {
    forall m :: m in ms ==> ValidMatcher(m) && !m.RegexpRules?
  }

  ghost predicate AnyMeans(re: Regexps, ms: seq<Matcher>, domain: string)
    reads Tries(ms)
  {
    exists m :: m in ms && Means(re, m, domain)
  }

  lemma AnyMeansAppend(re: Regexps, a: seq<Matcher>, b: seq<Matcher>, domain: string)
    ensures AnyMeans(re, a + b, domain) <==> AnyMeans(re, a, domain) || AnyMeans(re, b, domain)
  {
    if m :| m in a && Means(re, m, domain) {
      assert m in a + b;
    }
    if m :| m in b && Means(re, m, domain) {
      assert m in a + b;
    }
  }

  /** The number of matchers a builder announces. */
  ghost function Count(m: Matcher): nat
    reads if m.SuffixTree? then {m.trie} else {}
  {
    if m.RegexpRules? then |m.list| else if RulesOf(m) == {} then 0 else 1
  }

  lemma NoRulesMeanNothing(re: Regexps, m: Matcher, domain: string)
    requires RulesOf(m) == {}
    ensures !Means(re, m, domain)
  {}

  lemma SameRulesMeanTheSame(re: Regexps, a: Matcher, b: Matcher, domain: string)
    requires RulesOf(a) == RulesOf(b) && Family(a) == Family(b)
    ensures Means(re, a, domain) <==> Means(re, b, domain)
  {}

  /** AppendTo of any builder: what is appended means what the rules mean, in as many matchers as announced;
      it fails exactly on a regular expression that does not compile. */
  method AppendTo(re: Regexps, m: Matcher, matchers: seq<Matcher>) returns (r: Option<seq<Matcher>>)
    requires ValidMatcher(m) && !m.RegexpMatcher?
    ensures r.None? <==> m.RegexpRules? && exists e :: e in m.list && !re.compiles(e)
    ensures r.Some? ==>
              && |r.value| == |matchers| + Count(m) && r.value[..|matchers|] == matchers
              && ValidSet(r.value[|matchers|..])
              && forall d :: AnyMeans(re, r.value[|matchers|..], d) <==> Means(re, m, d)
  {
    hide Core, MatchersOfRegexps;
    var out := matchers;
    match m {
      case DomainLinear(list) => out := DomainLinearAppendTo(list, matchers);
      case DomainMap(keys) => out := DomainMapAppendTo(keys, matchers);
      case SuffixLinear(list) => out := SuffixLinearAppendTo(list, matchers);
      case SuffixMap(keys) => out := SuffixMapAppendTo(keys, matchers);
      case SuffixTree(trie) =>
        var n := trie.MatcherCount();
        if n > 0 { out := matchers + [m]; }
      case KeywordLinear(list) =>
        if |list| > 0 {
          assert list[0] in RulesOf(m);
          out := matchers + [m];
        }
      case RegexpRules(list) =>
        for i := 0 to |list|
          invariant forall j :: 0 <= j < i ==> re.compiles(list[j])
          invariant out == matchers + MatchersOfRegexps(list[..i])
        {
          if !re.compiles(list[i]) {
            return None;
          }
          RegexpsStep(list, i);
          out := out + [RegexpMatcher(list[i])];
        }
        assert list[..|list|] == list;
        RegexpsMean(re, list);
        assert out[|matchers|..] == MatchersOfRegexps(list);
        return Some(out);
    }
    OneMeans(re, m, matchers, out);
    return Some(out);
  }

  lemma OneMeans(re: Regexps, m: Matcher, matchers: seq<Matcher>, out: seq<Matcher>)
    requires ValidMatcher(m) && !m.RegexpRules? && !m.RegexpMatcher?
    requires AppendsOne(matchers, out, RulesOf(m), Family(m))
    requires |out| > |matchers| ==> !out[|matchers|].RegexpRules?
    ensures |out| == |matchers| + Count(m) && out[..|matchers|] == matchers && ValidSet(out[|matchers|..])
    ensures forall d :: AnyMeans(re, out[|matchers|..], d) <==> Means(re, m, d)
  {
    if RulesOf(m) == {} {
      assert out[|matchers|..] == [];
      forall d
        ensures !Means(re, m, d)
      {
        NoRulesMeanNothing(re, m, d);
      }
    } else {
      var n := out[|matchers|];
      assert out[|matchers|..] == [n];
      forall d
        ensures AnyMeans(re, [n], d) <==> Means(re, m, d)
      {
        assert n in [n];
        SameRulesMeanTheSame(re, n, m, d);
      }
    }
  }

  ghost function MatchersOfRegexps(list: seq<string>): (r: seq<Matcher>)
    ensures |r| == |list| && forall i :: 0 <= i < |r| ==> r[i] == RegexpMatcher(list[i])
  {
    seq(|list|, i requires 0 <= i < |list| => RegexpMatcher(list[i]))
  }

  lemma RegexpsStep(list: seq<string>, i: nat)
    requires i < |list|
    ensures MatchersOfRegexps(list[..i + 1]) == MatchersOfRegexps(list[..i]) + [RegexpMatcher(list[i])]
  {}

  lemma RegexpsMean(re: Regexps, list: seq<string>)
    ensures ValidSet(MatchersOfRegexps(list))
    ensures forall d :: AnyMeans(re, MatchersOfRegexps(list), d) <==> Means(re, RegexpRules(list), d)
  {
    var ms := MatchersOfRegexps(list);
    forall d
      ensures AnyMeans(re, ms, d) <==> Means(re, RegexpRules(list), d)
    {
      if e :| e in list && re.matches(e, d) {
        var i :| 0 <= i < |list| && list[i] == e;
        assert ms[i] in ms && e in RulesOf(ms[i]);
      }
      if m :| m in ms && Means(re, m, d) {
        var i :| 0 <= i < |ms| && ms[i] == m;
        assert list[i] in RulesOf(RegexpRules(list));
      }
    }
  }

  datatype Builder = Builder(domains: Matcher, suffixes: Matcher, keywords: Matcher, regexps: Matcher)

  function Parts(b: Builder): seq<Matcher> {
    [b.domains, b.suffixes, b.keywords, b.regexps]
  }

  ghost predicate ValidBuilder(b: Builder)
    reads Tries(Parts(b))
  {
    && Family(b.domains) == 0 && Family(b.suffixes) == 1 && Family(b.keywords) == 2
    && b.regexps.RegexpRules? && ValidMatcher(b.suffixes)
  }

  ghost predicate BuilderMeans(re: Regexps, b: Builder, domain: string)
    reads Tries(Parts(b))
  {
    || Means(re, b.domains, domain) || Means(re, b.suffixes, domain)
    || Means(re, b.keywords, domain) || Means(re, b.regexps, domain)
  }

  /** What the first n builders mean together. */
  ghost predicate SomePart(re: Regexps, b: Builder, n: nat, domain: string)
    reads Tries(Parts(b))
  {
    exists j :: 0 <= j < n && j < 4 && Means(re, Parts(b)[j], domain)
  }

  ghost function CountUpTo(b: Builder, n: nat): nat
    requires n <= 4
    reads Tries(Parts(b))
  {
    if n == 0 then 0 else CountUpTo(b, n - 1) + Count(Parts(b)[n - 1])
  }

  ghost predicate BuiltUpTo(re: Regexps, b: Builder, n: nat, ds: seq<Matcher>)
    requires n <= 4
    reads Tries(Parts(b)), Tries(ds)
  {
    && ValidBuilder(b) && ValidSet(ds) && |ds| == CountUpTo(b, n)
    && (forall d :: AnyMeans(re, ds, d) <==> SomePart(re, b, n, d))
  }

  /** Builder.DomainSet: fails exactly on a bad regular expression, otherwise yields as many matchers as the
      builders announced, which together mean what the rules mean. */
  method DomainSet(re: Regexps, b: Builder) returns (r: Option<seq<Matcher>>)
    requires ValidBuilder(b)
    ensures r.None? <==> exists e :: e in b.regexps.list && !re.compiles(e)
    ensures r.Some? ==>
              && ValidSet(r.value) && |r.value| == CountUpTo(b, 4)
              && forall d :: AnyMeans(re, r.value, d) <==> BuilderMeans(re, b, d)
  {
    hide Means, Count, AnyMeans, ValidSet, SomePart, RulesOf;
    var ds := [];
    Nothing(re, b);
    for i := 0 to 4
      invariant BuiltUpTo(re, b, i, ds)
      invariant i == 4 ==> forall e :: e in b.regexps.list ==> re.compiles(e)
    {
      var part := Parts(b)[i];
      ghost var held := Tries(Parts(b)) + Tries(ds);
      assert forall o :: o in held ==> allocated(o);
      var next := AppendTo(re, part, ds);
      if next.None? {
        return None;
      }
      assert BuiltUpTo(re, b, i, ds);
      assert next.value == ds + next.value[|ds|..];
      OneMore(re, b, i, ds, next.value[|ds|..]);
      ds := next.value;
    }
    AllParts(re, b);
    return Some(ds);
  }

  lemma Nothing(re: Regexps, b: Builder)
    ensures ValidSet([]) && forall d :: !AnyMeans(re, [], d) && !SomePart(re, b, 0, d)
  {}

  lemma OneMore(re: Regexps, b: Builder, i: nat, ds: seq<Matcher>, more: seq<Matcher>)
    requires i < 4 && ValidSet(ds) && ValidSet(more)
    requires forall d :: AnyMeans(re, ds, d) <==> SomePart(re, b, i, d)
    requires forall d :: AnyMeans(re, more, d) <==> Means(re, Parts(b)[i], d)
    ensures ValidSet(ds + more)
    ensures forall d :: AnyMeans(re, ds + more, d) <==> SomePart(re, b, i + 1, d)
  {
    hide Means;
    forall d
      ensures AnyMeans(re, ds + more, d) <==> SomePart(re, b, i + 1, d)
    {
      hide AnyMeans;
      AnyMeansAppend(re, ds, more, d);
    }
  }

  lemma AllParts(re: Regexps, b: Builder)
    ensures forall d :: SomePart(re, b, 4, d) <==> BuilderMeans(re, b, d)
  {
    hide Means;
    forall d
      ensures SomePart(re, b, 4, d) <==> BuilderMeans(re, b, d)
    {
      var p := Parts(b);
      assert p[0] == b.domains && p[1] == b.suffixes && p[2] == b.keywords && p[3] == b.regexps;
    }
  }

  /** DomainSet.Match: some matcher answers yes. */
  method SetMatch(re: Regexps, ds: seq<Matcher>, domain: string) returns (r: bool)
    requires ValidSet(ds)
    ensures r <==> AnyMeans(re, ds, domain)
  {
    hide Means;
    for i := 0 to |ds|
      invariant forall j :: 0 <= j < i ==> !Means(re, ds[j], domain)
    {
      assert ds[i] in ds;
      var hit := Match(re, ds[i], domain);
      if hit {
        return true;
      }
    }
    return false;
  }
}
