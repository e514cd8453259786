/** Rule matchers of every kind, and the conversions between them that depend on how many rules there are. */
module DomainMatchers {
  import opened Words
  import opened DomainLabels
  import opened DomainTrie
  import opened SuffixTrie

  const MaxLinearSuffixes := 4
  const MaxLinearDomains := 8

  /** The regular expression library. */
  datatype Regexps = Regexps(compiles: string -> bool, matches: (string, string) -> bool)

  /** A matcher; every kind but the last is also a builder that rules can be inserted into. A map keyed by
      rules is the set of its keys. */
  datatype Matcher =
    | DomainLinear(list: seq<string>)
    | DomainMap(keys: set<string>)
    | SuffixLinear(list: seq<string>)
    | SuffixMap(keys: set<string>)
    | SuffixTree(trie: DomainSuffixTrie)
    | KeywordLinear(list: seq<string>)
    | RegexpRules(list: seq<string>)
    | RegexpMatcher(expression: string)

  function Elements<T>(s: seq<T>): set<T> {
    set x | x in s
  }

  lemma ElementsAppend<T>(s: seq<T>, x: T)
    ensures Elements(s + [x]) == Elements(s) + {x}
  {}

  // ----- what the rules mean -----

  predicate OccursAt(domain: string, keyword: string, i: nat) {
    i + |keyword| <= |domain| && domain[i..i + |keyword|] == keyword
  }

  predicate Contains(domain: string, keyword: string) {
    exists i :: 0 <= i <= |domain| - |keyword| && OccursAt(domain, keyword, i)
  }

  ghost predicate HasKeyword(rules: set<string>, domain: string) {
    exists k :: k in rules && Contains(domain, k)
  }

  ghost predicate HasRegexp(re: Regexps, rules: set<string>, domain: string) {
    exists r :: r in rules && re.matches(r, domain)
  }

  ghost predicate ValidMatcher(m: Matcher)
    reads if m.SuffixTree? then {m.trie} else {}
  {
    m.SuffixTree? ==> m.trie.Valid()
  }

  /** The rules a matcher or builder was given. */
  ghost function RulesOf(m: Matcher): set<string>
    reads if m.SuffixTree? then {m.trie} else {}
  {
    match m
    case DomainLinear(list) => Elements(list)
    case DomainMap(keys) => keys
    case SuffixLinear(list) => Elements(list)
    case SuffixMap(keys) => keys
    case SuffixTree(trie) => trie.rules
    case KeywordLinear(list) => Elements(list)
    case RegexpRules(list) => Elements(list)
    case RegexpMatcher(e) => {e}
  }

  /** Which domains a matcher's rules stand for, whatever form they are stored in. */
  ghost predicate Means(re: Regexps, m: Matcher, domain: string)
    reads if m.SuffixTree? then {m.trie} else {}
  {
    match m
    case DomainLinear(_) => domain in RulesOf(m)
    case DomainMap(_) => domain in RulesOf(m)
    case SuffixLinear(_) => Matched(RulesOf(m), domain)
    case SuffixMap(_) => Matched(RulesOf(m), domain)
    case SuffixTree(_) => Matched(RulesOf(m), domain)
    case KeywordLinear(_) => HasKeyword(RulesOf(m), domain)
    case RegexpRules(_) => HasRegexp(re, RulesOf(m), domain)
    case RegexpMatcher(_) => HasRegexp(re, RulesOf(m), domain)
  }

  /** The same in terms of the names alone: equal; equal or below a suffix; around a keyword; matched by an expression. */
  lemma MeansExactly(re: Regexps, m: Matcher, domain: string)
    ensures m.DomainLinear? || m.DomainMap? ==> (Means(re, m, domain) <==> domain in RulesOf(m))
    ensures m.SuffixLinear? || m.SuffixMap? || m.SuffixTree? ==>
              (Means(re, m, domain) <==> exists s :: s in RulesOf(m) && (domain == s || exists sub: string :: domain == sub + "." + s))
    ensures m.KeywordLinear? ==> (Means(re, m, domain) <==> exists k :: k in RulesOf(m) && exists a, b: string :: domain == a + k + b)
    ensures m.RegexpRules? || m.RegexpMatcher? ==> (Means(re, m, domain) <==> exists r :: r in RulesOf(m) && re.matches(r, domain))
  {
    if m.SuffixLinear? || m.SuffixMap? || m.SuffixTree? {
      forall s
        ensures MatchSuffix(domain, s) <==> domain == s || exists sub: string :: domain == sub + "." + s
      {
        MatchSuffixSplit(domain, s);
      }
    }
    if m.KeywordLinear? {
      forall k
        ensures Contains(domain, k) <==> exists a, b: string :: domain == a + k + b
      {
        ContainsExactly(domain, k);
      }
    }
  }

  lemma ContainsExactly(domain: string, keyword: string)
    ensures Contains(domain, keyword) <==> exists a, b: string :: domain == a + keyword + b
  {
    if i :| 0 <= i <= |domain| - |keyword| && OccursAt(domain, keyword, i) {
      assert domain == domain[..i] + keyword + domain[i + |keyword|..];
    }
    if a, b: string :| domain == a + keyword + b {
      assert OccursAt(domain, keyword, |a|);
    }
  }

  // ----- matching -----

  method SuffixLinearMatch(list: seq<string>, domain: string) returns (r: bool)
    ensures r <==> Matched(Elements(list), domain)
  {
    for i := 0 to |list|
      invariant forall j :: 0 <= j < i ==> !MatchSuffix(domain, list[j])
    {
      if MatchSuffix(domain, list[i]) {
        return true;
      }
    }
    return false;
  }

  /** Looks up what follows each dot, from the right, and then the whole name. */
  method SuffixMapMatch(keys: set<string>, domain: string) returns (r: bool)
    ensures r <==> Matched(keys, domain)
  {
    var i := |domain| - 1;
    while i >= 0
      invariant -1 <= i < |domain|
      invariant forall s :: s in keys && MatchSuffix(domain, s) ==> |s| >= |domain| - 1 - i
    {
      if domain[i] != '.' {
        i := i - 1;
        continue;
      }
      if domain[i + 1..] in keys {
        AfterDot(domain, i);
        return true;
      }
      i := i - 1;
    }
    return domain in keys;
  }

  lemma AfterDot(domain: string, i: nat)
    requires i < |domain| && domain[i] == '.'
    ensures MatchSuffix(domain, domain[i + 1..])
  {}

  method KeywordLinearMatch(list: seq<string>, domain: string) returns (r: bool)
    ensures r <==> HasKeyword(Elements(list), domain)
  {
    for i := 0 to |list|
      invariant forall j :: 0 <= j < i ==> !Contains(domain, list[j])
    {
      if Contains(domain, list[i]) {
        return true;
      }
    }
    return false;
  }

  /** Every kind of matcher answers what its rules mean, so two matchers of one family with the same rules
      agree on every domain. */
  method Match(re: Regexps, m: Matcher, domain: string) returns (r: bool)
    requires ValidMatcher(m) && !m.RegexpRules?
    ensures r <==> Means(re, m, domain)
  {
    match m
    case DomainLinear(list) => r := SliceContains(list, domain);
    case DomainMap(keys) => r := domain in keys;
    case SuffixLinear(list) => r := SuffixLinearMatch(list, domain);
    case SuffixMap(keys) => r := SuffixMapMatch(keys, domain);
    case SuffixTree(trie) => r := trie.Match(domain);
    case KeywordLinear(list) => r := KeywordLinearMatch(list, domain);
    case RegexpMatcher(e) => r := re.matches(e, domain);
  }

  // ----- building -----

  method Insert(m: Matcher, rule: string) returns (r: Matcher)
    requires ValidMatcher(m) && !m.RegexpMatcher?
    modifies if m.SuffixTree? then {m.trie} else {}
    ensures ValidMatcher(r) && RulesOf(r) == old(RulesOf(m)) + {rule} && Family(r) == Family(m)
    ensures (r.SuffixTree? <==> m.SuffixTree?) && (r.RegexpRules? <==> m.RegexpRules?)
    ensures r.SuffixTree? ==> r.trie == m.trie
  {
    match m
    case DomainLinear(list) => r := DomainLinear(list + [rule]);
    case DomainMap(keys) => r := DomainMap(keys + {rule});
    case SuffixLinear(list) => r := SuffixLinear(list + [rule]);
    case SuffixMap(keys) => r := SuffixMap(keys + {rule});
    case SuffixTree(trie) => trie.Insert(rule); r := m;
    case KeywordLinear(list) => r := KeywordLinear(list + [rule]);
    case RegexpRules(list) => r := RegexpRules(list + [rule]);
  }

  /** The kind of rule a matcher holds, in the order of the four builders. */
  function Family(m: Matcher): nat {
    match m
    case DomainLinear(_) => 0
    case DomainMap(_) => 0
    case SuffixLinear(_) => 1
    case SuffixMap(_) => 1
    case SuffixTree(_) => 1
    case KeywordLinear(_) => 2
    case RegexpRules(_) => 3
    case RegexpMatcher(_) => 3
  }

  /** maps.Keys: every key once, in an order that is not fixed. */
  method MapKeys(keys: set<string>) returns (r: seq<string>)
    ensures NoDup(r) && Elements(r) == keys && |r| == |keys|
  {
    r := [];
    var todo := keys;
    while todo != {}
      invariant todo <= keys && NoDup(r) && Elements(r) == keys - todo && |r| + |todo| == |keys|
      decreases |todo|
    {
      var k :| k in todo;
      ElementsAppend(r, k);
      r := r + [k];
      todo := todo - {k};
    }
  }

  ghost function Size(m: Matcher): nat
    reads if m.SuffixTree? then {m.trie} else {}
  {
    match m
    case DomainLinear(list) => |list|
    case DomainMap(keys) => |keys|
    case SuffixLinear(list) => |list|
    case SuffixMap(keys) => |keys|
    case SuffixTree(trie) => |trie.rules|
    case KeywordLinear(list) => |list|
    case RegexpRules(list) => |list|
    case RegexpMatcher(_) => 1
  }

  lemma {:induction false} NoDupSize(s: seq<string>, rules: set<string>)
    requires NoDup(s) && forall x :: x in s ==> x in rules
    ensures |s| <= |rules|
  {
    if s != [] {
      assert forall x :: x in s[1..] ==> x != s[0];
      NoDupSize(s[1..], rules - {s[0]});
    }
  }

  /** Rules as the builder lists them: a trie lists only those that no other rule covers. */
  method Rules(m: Matcher) returns (r: seq<string>)
    requires ValidMatcher(m) && !m.RegexpMatcher?
    ensures if m.SuffixTree? then forall s :: s in r <==> Core(RulesOf(m), s) else Elements(r) == RulesOf(m)
    ensures |r| <= Size(m)
  {
    match m
    case DomainLinear(list) => r := list;
    case DomainMap(keys) => r := MapKeys(keys);
    case SuffixLinear(list) => r := list;
    case SuffixMap(keys) => r := MapKeys(keys);
    case SuffixTree(trie) => r := trie.Keys(); NoDupSize(r, trie.rules);
    case KeywordLinear(list) => r := list;
    case RegexpRules(list) => r := list;
  }

  method MatcherCount(m: Matcher) returns (n: nat)
    requires ValidMatcher(m) && !m.RegexpMatcher?
    ensures m.RegexpRules? ==> n == |m.list|
    ensures !m.RegexpRules? ==> n == if RulesOf(m) == {} then 0 else 1
  {
    match m
    case DomainLinear(list) => assert list != [] ==> list[0] in Elements(list); n := if |list| == 0 then 0 else 1;
    case DomainMap(keys) => n := if |keys| == 0 then 0 else 1;
    case SuffixLinear(list) => assert list != [] ==> list[0] in Elements(list); n := if |list| == 0 then 0 else 1;
    case SuffixMap(keys) => n := if |keys| == 0 then 0 else 1;
    case SuffixTree(trie) => n := trie.MatcherCount();
    case KeywordLinear(list) => assert list != [] ==> list[0] in Elements(list); n := if |list| == 0 then 0 else 1;
    case RegexpRules(list) => n := |list|;
  }

  // ----- conversion by size -----

  /** `r` is `matchers`, followed by one matcher of the given rules unless there are none. */
  ghost predicate AppendsOne(matchers: seq<Matcher>, r: seq<Matcher>, rules: set<string>, family: nat)
    reads set m | m in r && m.SuffixTree? :: m.trie
  {
    if rules == {} then r == matchers
    else
      && |r| == |matchers| + 1 && r[..|matchers|] == matchers
      && var m := r[|matchers|];
         && ValidMatcher(m) && RulesOf(m) == rules
         && Family(m) == family
  }

  /** With repeated rules a long list can shrink to a short map, which becomes a list again: the third call
      is then the last. */
  method DomainLinearAppendTo(list: seq<string>, matchers: seq<Matcher>) returns (r: seq<Matcher>)
    ensures AppendsOne(matchers, r, Elements(list), 0)
    ensures Elements(list) != {} ==> (r[|r| - 1].DomainLinear? <==> |Elements(list)| <= 8)
    decreases if |list| > MaxLinearDomains then 2 else 0
  {
    ElementsSize(list);
    if |list| == 0 {
      return matchers;
    }
    assert list[0] in Elements(list);
    if |list| > MaxLinearDomains {
      var keys := {};
      for i := 0 to |list|
        invariant keys == Elements(list[..i])
      {
        keys := keys + {list[i]};
      }
      assert list[..|list|] == list;
      r := DomainMapAppendTo(keys, matchers);
    } else {
      r := matchers + [DomainLinear(list)];
    }
  }

  method DomainMapAppendTo(keys: set<string>, matchers: seq<Matcher>) returns (r: seq<Matcher>)
    ensures AppendsOne(matchers, r, keys, 0)
    ensures keys != {} ==> (r[|r| - 1].DomainLinear? <==> |keys| <= 8)
    decreases 1
  {
    if |keys| == 0 {
      return matchers;
    }
    if |keys| <= MaxLinearDomains {
      var list := MapKeys(keys);
      r := DomainLinearAppendTo(list, matchers);
    } else {
      r := matchers + [DomainMap(keys)];
    }
  }

  lemma {:induction false} ElementsSize(s: seq<string>)
    ensures |Elements(s)| <= |s|
  {
    if s != [] {
      ElementsSize(s[1..]);
      assert Elements(s) == {s[0]} + Elements(s[1..]);
    }
  }

  method SuffixLinearAppendTo(list: seq<string>, matchers: seq<Matcher>) returns (r: seq<Matcher>)
    ensures AppendsOne(matchers, r, Elements(list), 1)
    ensures Elements(list) != {} ==> (r[|r| - 1].SuffixLinear? <==> |list| <= 4)
    ensures Elements(list) != {} && r[|r| - 1].SuffixTree? ==> fresh(r[|r| - 1].trie)
  {
    if |list| == 0 {
      return matchers;
    }
    assert list[0] in Elements(list);
    if |list| > MaxLinearSuffixes {
      var trie := DomainSuffixTrieFromSlice(list);
      r := matchers + [SuffixTree(trie)];
    } else {
      r := matchers + [SuffixLinear(list)];
    }
  }

  method SuffixMapAppendTo(keys: set<string>, matchers: seq<Matcher>) returns (r: seq<Matcher>)
    ensures AppendsOne(matchers, r, keys, 1)
    ensures keys != {} ==> (r[|r| - 1].SuffixLinear? <==> |keys| <= 4)
    ensures keys != {} ==> !r[|r| - 1].SuffixTree?
  {
    if |keys| == 0 {
      return matchers;
    }
    if |keys| <= MaxLinearSuffixes {
      var list := MapKeys(keys);
      r := SuffixLinearAppendTo(list, matchers);
    } else {
      r := matchers + [SuffixMap(keys)];
    }
  }
}
