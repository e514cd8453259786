/** Reading a builder from text, and writing one out and reading it back. */
module DomainFiles {
  import opened Words
  import opened DomainTrie
  import opened SuffixTrie
  import opened DomainMatchers
  import opened DomainSets
  import opened DomainText

  /** Which builders the text is read into. */
  datatype Forms = Forms(domainMap: bool, suffixes: SuffixForm)
  datatype SuffixForm = LinearForm | MapForm | TrieForm

  method NewBuilder(forms: Forms) returns (b: Builder)
    ensures ValidBuilder(b) && fresh(Tries(Parts(b))) && Holds(b, NoRules)
  {
    var domains := if forms.domainMap then DomainMap({}) else DomainLinear([]);
    var suffixes := if forms.suffixes.MapForm? then SuffixMap({}) else SuffixLinear([]);
    if forms.suffixes.TrieForm? {
      var trie := new DomainSuffixTrie();
      suffixes := SuffixTree(trie);
    }
    b := Builder(domains, suffixes, KeywordLinear([]), RegexpRules([]));
  }

  /** The builder was given exactly the rules of t. */
  ghost predicate Holds(b: Builder, t: RuleText)
    reads Tries(Parts(b))
  {
    && RulesOf(b.domains) == Elements(t.domains) && RulesOf(b.suffixes) == Elements(t.suffixes)
    && RulesOf(b.keywords) == Elements(t.keywords) && RulesOf(b.regexps) == Elements(t.regexps)
  }

  method InsertEntry(b: Builder, e: Entry, ghost acc: RuleText) returns (r: Builder)
    requires ValidBuilder(b) && Holds(b, acc)
    modifies Tries(Parts(b))
    ensures ValidBuilder(r) && Holds(r, Add(acc, e)) && Tries(Parts(r)) == Tries(Parts(b))
  {
    hide Core;
    r := b;
    match e {
      case Comment =>
      case Rule(Domain, rule) =>
        ElementsAppend(acc.domains, rule);
        var m := Insert(b.domains, rule);
        r := b.(domains := m);
      case Rule(Suffix, rule) =>
        ElementsAppend(acc.suffixes, rule);
        var m := Insert(b.suffixes, rule);
        r := b.(suffixes := m);
      case Rule(Keyword, rule) =>
        ElementsAppend(acc.keywords, rule);
        var m := Insert(b.keywords, rule);
        r := b.(keywords := m);
      case Rule(Regexp, rule) =>
        ElementsAppend(acc.regexps, rule);
        var m := Insert(b.regexps, rule);
        r := b.(regexps := m);
    }
  }

  /** The next line, read while the builder is being filled. */
  method ReadLine(b: Builder, ghost acc: RuleText, text: string) returns (line: string, rest: string)
    requires ValidBuilder(b) && Holds(b, acc)
    ensures ValidBuilder(b) && Holds(b, acc) && (line, rest) == NextLine(text)
  {
    hide NextLine;
    ghost var held := Tries(Parts(b));
    assert forall o :: o in held ==> allocated(o);
    line, rest := NextNonEmptyLine(text);
  }

  /** Reads line by line into the builders; what they hold is what the text says, whatever their form. At an invalid
      line the builders hold what came before it. */
  method BuilderFromTextFunc(text: string, forms: Forms) returns (r: Option<Builder>, err: Option<TextError>)
    ensures err == if Parse(text).Ok? then None else Some(Parse(text).error)
    ensures r.Some? <==> Parse(text).Ok? || Parse(text).error.InvalidLine?
    ensures r.Some? ==>
              && ValidBuilder(r.value) && fresh(Tries(Parts(r.value)))
              && Holds(r.value, CollectUntil(RuleLines(text), NoRules))
    ensures Parse(text).Ok? ==> Parse(text).value == CollectUntil(RuleLines(text), NoRules)
  {
    hide Core, Holds, ValidBuilder, HintOf, IsHint, Classify, Lines, Collect, CollectUntil, Tries, Parts, NextLine, Add;
    var line, rest := NextNonEmptyLine(text);
    LinesUnfold(text);
    if |line| == 0 {
      return None, Some(EmptySet);
    }
    var found, dskr := ParseCapacityHint(line);
    if dskr.None? {
      return None, Some(BadHint);
    }
    ghost var left := text;
    if found {
      left := rest;
      line, rest := NextNonEmptyLine(rest);
      LinesUnfold(left);
      if |line| == 0 {
        return None, Some(EmptySet);
      }
    }
    var b := NewBuilder(forms);
    ghost var acc := NoRules;
    CollectUntilFirst(RuleLines(text), NoRules);
    while true
      invariant line != "" && (line, rest) == NextLine(left)
      invariant ValidBuilder(b) && Holds(b, acc) && fresh(Tries(Parts(b)))
      invariant Parse(text) == Collect(Lines(left), acc)
      invariant CollectUntil(RuleLines(text), NoRules) == CollectUntil(Lines(left), acc)
      decreases |left|
    {
      LinesUnfold(left);
      CollectUnfold(Lines(left), acc);
      var entry := Classify(line);
      if entry.None? {
        return Some(b), Some(InvalidLine);
      }
      b := InsertEntry(b, entry.value, acc);
      acc := Add(acc, entry.value);
      left := rest;
      LinesUnfold(left);
      line, rest := ReadLine(b, acc, rest);
      if |line| == 0 {
        CollectUnfold(Lines(left), acc);
        break;
      }
    }
    return Some(b), None;
  }

  lemma LinesUnfold(text: string)
    ensures var (line, rest) := NextLine(text);
            if line == "" then Lines(text) == []
            else Lines(text) != [] && Lines(text)[0] == line && Lines(text)[1..] == Lines(rest)
  {}

  lemma CollectUnfold(lines: seq<string>, acc: RuleText)
    ensures lines == [] ==> Collect(lines, acc) == Ok(acc)
    ensures lines != [] && lines[0] != "" ==>
              Collect(lines, acc) ==
              if Classify(lines[0]).None? then Err(InvalidLine)
              else Collect(lines[1..], Add(acc, Classify(lines[0]).value))
    ensures lines == [] ==> CollectUntil(lines, acc) == acc
    ensures lines != [] && lines[0] != "" ==>
              CollectUntil(lines, acc) ==
              if Classify(lines[0]).None? then acc
              else CollectUntil(lines[1..], Add(acc, Classify(lines[0]).value))
  {
    hide Classify;
  }

  /** t lists the builder's rules: a trie lists those that no other rule covers, the others list all. */
  ghost predicate Lists(b: Builder, t: RuleText)
    reads Tries(Parts(b))
  {
    && Elements(t.domains) == RulesOf(b.domains) && Elements(t.keywords) == RulesOf(b.keywords)
    && Elements(t.regexps) == RulesOf(b.regexps)
    && if b.suffixes.SuffixTree? then forall s :: s in t.suffixes <==> Core(RulesOf(b.suffixes), s)
       else Elements(t.suffixes) == RulesOf(b.suffixes)
  }

  lemma ListedMeansTheSame(re: Regexps, b: Builder, t: RuleText, c: Builder, domain: string)
    requires ValidBuilder(b) && ValidBuilder(c) && Lists(b, t) && Holds(c, t)
    ensures BuilderMeans(re, c, domain) <==> BuilderMeans(re, b, domain)
  {
    hide HasKeyword, HasRegexp, Matched, Core;
    SuffixesMeanTheSame(re, b, t, c, domain);
    SameRulesMeanTheSame(re, b.domains, c.domains, domain);
    SameRulesMeanTheSame(re, b.keywords, c.keywords, domain);
    SameRulesMeanTheSame(re, b.regexps, c.regexps, domain);
  }

  lemma SuffixesMeanTheSame(re: Regexps, b: Builder, t: RuleText, c: Builder, domain: string)
    requires ValidBuilder(b) && ValidBuilder(c) && Lists(b, t) && Holds(c, t)
    ensures Means(re, c.suffixes, domain) <==> Means(re, b.suffixes, domain)
  {
    hide Matched, Core;
    if b.suffixes.SuffixTree? {
      CoreMatchesTheSame(RulesOf(b.suffixes), RulesOf(c.suffixes), domain);
    }
  }

  /** A builder whose rules can be written: some rule, none empty, none with an LF or a CR at its end. */
  ghost predicate Writable(b: Builder)
    reads Tries(Parts(b))
  {
    && (RulesOf(b.domains) != {} || RulesOf(b.suffixes) != {} || RulesOf(b.keywords) != {} || RulesOf(b.regexps) != {})
    && CleanSet(RulesOf(b.domains)) && CleanSet(RulesOf(b.suffixes))
    && CleanSet(RulesOf(b.keywords)) && CleanSet(RulesOf(b.regexps))
  }

  ghost predicate CleanSet(rules: set<string>) {
    forall s :: s in rules ==> s != "" && OneLine(s) && StripCR(s) == s
  }

  lemma WritableIsClean(b: Builder, t: RuleText)
    requires ValidBuilder(b) && Lists(b, t) && Writable(b)
    ensures t != NoRules && All(Clean, t)
  {
    if b.suffixes.SuffixTree? && RulesOf(b.suffixes) != {} {
      var s :| s in RulesOf(b.suffixes);
      var u := CoreBelow(RulesOf(b.suffixes), s);
      assert u in t.suffixes;
    }
    ElementsClean(t.domains, RulesOf(b.domains));
    ElementsClean(t.suffixes, RulesOf(b.suffixes));
    ElementsClean(t.keywords, RulesOf(b.keywords));
    ElementsClean(t.regexps, RulesOf(b.regexps));
  }

  lemma ElementsClean(list: seq<string>, rules: set<string>)
    requires CleanSet(rules) && forall s :: s in list ==> s in rules
    ensures Clean(list)
  {
    hide OneLine, StripCR;
    forall i | 0 <= i < |list|
      ensures list[i] != "" && OneLine(list[i]) && StripCR(list[i]) == list[i]
    {
      assert list[i] in list;
    }
  }

  method ListRules(b: Builder) returns (t: RuleText)
    requires ValidBuilder(b) && forall m :: m in Parts(b) ==> Size(m) <= MaxInt
    ensures ValidBuilder(b) && Lists(b, t) && Countable(t)
    ensures old(Writable(b)) ==> t != NoRules && All(Clean, t)
  {
    hide Core, Clean, Writable;
    ghost var held := Tries(Parts(b));
    assert forall o :: o in held ==> allocated(o);
    assert b.domains in Parts(b) && b.suffixes in Parts(b) && b.keywords in Parts(b) && b.regexps in Parts(b);
    var domains := Rules(b.domains);
    var suffixes := Rules(b.suffixes);
    var keywords := Rules(b.keywords);
    var regexps := Rules(b.regexps);
    t := RuleText(domains, suffixes, keywords, regexps);
    if Writable(b) {
      WritableIsClean(b, t);
    }
  }

  /** Writing a builder out and reading it back, into builders of any form, matches the same domains. */
  method WriteAndRead(b: Builder, forms: Forms) returns (text: string, c: Option<Builder>, err: Option<TextError>)
    requires ValidBuilder(b) && Writable(b)
    requires forall m :: m in Parts(b) ==> Size(m) <= MaxInt
    ensures err.None? && c.Some? && ValidBuilder(c.value) && ValidBuilder(b)
    ensures forall re, d :: BuilderMeans(re, c.value, d) <==> BuilderMeans(re, b, d)
  {
    hide Core, Means, RulesOf, Size, Parse, Print, Clean, Holds, All, BuilderMeans, Lists, Writable;
    var t := ListRules(b);
    ParsePrintExactly(t);
    ghost var held := Tries(Parts(b));
    assert forall o :: o in held ==> allocated(o);
    text := WriteText(t);
    c, err := BuilderFromTextFunc(text, forms);
    forall re, d
      ensures BuilderMeans(re, c.value, d) <==> BuilderMeans(re, b, d)
    {
      ListedMeansTheSame(re, b, t, c.value, d);
    }
  }
}
