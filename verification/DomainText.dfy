/** The text form of a domain set: a capacity hint line and one prefixed line per rule. */
module DomainText {
  import opened Words

  const HintPrefix := "# shadowsocks-go domain set capacity hint "
  const HintSuffix := "DSKR"
  const DomainPrefix := "domain:"
  const SuffixPrefix := "suffix:"
  const KeywordPrefix := "keyword:"
  const RegexpPrefix := "regexp:"
  const MaxInt := 0x7FFF_FFFF_FFFF_FFFF

  datatype RuleKind = Domain | Suffix | Keyword | Regexp

  datatype RuleText = RuleText(domains: seq<string>, suffixes: seq<string>, keywords: seq<string>, regexps: seq<string>)

  datatype TextError = EmptySet | BadHint | InvalidLine

  // ----- lines -----

  /** strings.IndexByte: the first index of c, or -1. */
  function Index(s: string, c: char): (r: int)
    ensures -1 <= r < |s|
    ensures r >= 0 ==> s[r] == c
    ensures c in s ==> r >= 0
    ensures forall i :: 0 <= i < |s| && (r < 0 || i < r) ==> s[i] != c
  {
    if s == [] then -1 else if s[0] == c then 0
    else var r := Index(s[1..], c); if r < 0 then -1 else r + 1
  }

  function StripCR(s: string): string {
    if s != "" && s[|s| - 1] == '\r' then s[..|s| - 1] else s
  }

  /** The next non-empty line and what follows it. The last line, which no LF ends, keeps its CR. */
  function NextLine(text: string): (r: (string, string))
    ensures '\n' !in r.0
    ensures |r.0| + |r.1| <= |text|
    ensures r.0 == "" ==> r.1 == ""
    decreases |text|
  {
    var i := Index(text, '\n');
    if i < 0 then (text, "")
    else
      var line := StripCR(text[..i]);
      if line == "" then NextLine(text[i + 1..]) else (line, text[i + 1..])
  }

  function Lines(text: string): seq<string>
    decreases |text|
  {
    var (line, rest) := NextLine(text);
    if line == "" then [] else [line] + Lines(rest)
  }

  method NextNonEmptyLine(text: string) returns (line: string, rest: string)
    ensures (line, rest) == NextLine(text)
  {
    rest := text;
    while true
      invariant NextLine(rest) == NextLine(text)
      decreases |rest|
    {
      var i := Index(rest, '\n');
      if i == -1 {
        assert rest[|rest|..] == "";
        line, rest := rest, rest[|rest|..];
        return;
      }
      line, rest := rest[..i], rest[i + 1..];
      if i == 0 {
        continue;
      }
      if line[|line| - 1] == '\r' {
        line := line[..|line| - 1];
      }
      if |line| == 0 {
        continue;
      }
      return;
    }
  }

  // ----- decimal numbers -----

  predicate IsDigit(c: char) {
    '0' <= c <= '9'
  }

  predicate AllDigits(s: string) {
    forall i :: 0 <= i < |s| ==> IsDigit(s[i])
  }

  function Digit(d: nat): (r: char)
    requires d < 10
    ensures IsDigit(r)
  {
    '0' + d as char
  }

  function Decimal(n: nat): (r: string)
    ensures r != "" && AllDigits(r)
  {
    if n < 10 then [Digit(n)] else Decimal(n / 10) + [Digit(n % 10)]
  }

  function Number(s: string): nat
    requires AllDigits(s)
  {
    if s == "" then 0 else 10 * Number(s[..|s| - 1]) + (s[|s| - 1] - '0') as int
  }

  /** strconv.Atoi: an optional sign and digits, within the range of a 64-bit integer. */
  function Atoi(s: string): Option<int> {
    var signed := s != "" && (s[0] == '-' || s[0] == '+');
    var digits := if signed then s[1..] else s;
    if digits == "" || !AllDigits(digits) then None
    else
      var n: int := Number(digits);
      if signed && s[0] == '-' then (if n <= MaxInt + 1 then Some(-n) else None)
      else if n <= MaxInt then Some(n) else None
  }

  lemma {:induction false} NumberOfDecimal(n: nat)
    ensures Number(Decimal(n)) == n
  {
    if n >= 10 {
      NumberOfDecimal(n / 10);
      assert Decimal(n)[..|Decimal(n)| - 1] == Decimal(n / 10);
    } else {
      assert Decimal(n)[..0] == "";
    }
  }

  lemma AtoiOfDecimal(n: nat)
    requires n <= MaxInt
    ensures Atoi(Decimal(n)) == Some(n)
  {
    hide Decimal, Number;
    NumberOfDecimal(n);
    assert IsDigit(Decimal(n)[0]);
  }

  // ----- the capacity hint -----

  /** The next n space-terminated counts of h, and what follows them. */
  function Fields(h: string, n: nat): Option<(seq<nat>, string)>
    decreases n
  {
    if n == 0 then Some(([], h))
    else
      var i := Index(h, ' ');
      if i < 0 then None
      else
        var c := Atoi(h[..i]);
        if c.None? || c.value < 0 then None
        else
          var more := Fields(h[i + 1..], n - 1);
          if more.None? then None else Some(([c.value] + more.value.0, more.value.1))
  }

  predicate IsHint(line: string) {
    |line| > |HintPrefix| && line[..|HintPrefix|] == HintPrefix
  }

  /** None for a line that starts like a hint and is not one. */
  function HintOf(line: string): Option<seq<nat>>
    requires IsHint(line)
  {
    var f := Fields(line[|HintPrefix|..], 4);
    if f.None? || f.value.1 != HintSuffix then None else Some(f.value.0)
  }

  method ParseCapacityHint(line: string) returns (found: bool, dskr: Option<seq<nat>>)
    ensures found <==> IsHint(line)
    ensures found ==> dskr == HintOf(line)
    ensures !found ==> dskr == Some([0, 0, 0, 0])
  {
    hide Index, Atoi, Fields;
    found := IsHint(line);
    var counts: seq<nat> := [0, 0, 0, 0];
    if found {
      var h := line[|HintPrefix|..];
      ghost var whole := h;
      ghost var done: seq<nat> := [];
      PrependNothing(Fields(h, 4));
      for i := 0 to 4
        invariant |counts| == 4 && |done| == i && counts[..i] == done
        invariant Fields(whole, 4) == Prepend(done, Fields(h, 4 - i))
      {
        FieldsUnfold(h, 4 - i);
        var d := Index(h, ' ');
        if d == -1 {
          return found, None;
        }
        var c := Atoi(h[..d]);
        if c.None? || c.value < 0 {
          return found, None;
        }
        PrependTwice(done, [c.value], Fields(h[d + 1..], 3 - i));
        counts := counts[i := c.value];
        done := done + [c.value];
        h := h[d + 1..];
      }
      assert counts[..4] == counts;
      FieldsDone(h);
      assert done + [] == done;
      if h != HintSuffix {
        return found, None;
      }
    }
    dskr := Some(counts);
  }

  lemma AtoiSigned(n: nat)
    ensures Atoi("+" + Decimal(n)) == if n <= 0x7FFF_FFFF_FFFF_FFFF then Some(n as int) else None
    ensures Atoi("-" + Decimal(n)) == if n <= 0x8000_0000_0000_0000 then Some(-(n as int)) else None
  {
    hide Decimal, Number, IsDigit;
    NumberOfDecimal(n);
    var plus, minus := "+" + Decimal(n), "-" + Decimal(n);
    assert plus[1..] == Decimal(n) && plus[0] == '+';
    assert minus[1..] == Decimal(n) && minus[0] == '-';
  }

  /** What is no number: nothing but a sign, or anything but digits after it. */
  lemma AtoiRefuses(s: string)
    ensures Atoi("") == Atoi("+") == Atoi("-") == None
    ensures (exists i :: 0 < i < |s| && !IsDigit(s[i])) ==> Atoi(s).None?
    ensures s != "" && !IsDigit(s[0]) && s[0] != '+' && s[0] != '-' ==> Atoi(s).None?
  {
    hide Number, IsDigit;
    if i :| 0 < i < |s| && !IsDigit(s[i]) {
      assert s[1..][i - 1] == s[i];
    }
  }

  lemma FieldsUnfold(h: string, n: nat)
    requires n > 0
    ensures var i := Index(h, ' ');
            Fields(h, n) ==
            if i < 0 || Atoi(h[..i]).None? || Atoi(h[..i]).value < 0 then None
            else Prepend([Atoi(h[..i]).value], Fields(h[i + 1..], n - 1))
  {
    hide Index, Atoi;
  }

  lemma FieldsDone(h: string)
    ensures Fields(h, 0) == Some(([], h))
  {}

  function Prepend(done: seq<nat>, f: Option<(seq<nat>, string)>): Option<(seq<nat>, string)> {
    if f.None? then None else Some((done + f.value.0, f.value.1))
  }

  lemma PrependNothing(f: Option<(seq<nat>, string)>)
    ensures Prepend([], f) == f
  {
    if f.Some? {
      assert [] + f.value.0 == f.value.0;
    }
  }

  lemma PrependTwice(a: seq<nat>, b: seq<nat>, f: Option<(seq<nat>, string)>)
    ensures Prepend(a, Prepend(b, f)) == Prepend(a + b, f)
  {
    if f.Some? {
      assert a + (b + f.value.0) == a + b + f.value.0;
    }
  }

  function HintLine(d: nat, s: nat, k: nat, r: nat): string {
    HintPrefix + HintFields([d, s, k, r]) + HintSuffix
  }

  function HintFields(counts: seq<nat>): string {
    if counts == [] then "" else Decimal(counts[0]) + " " + HintFields(counts[1..])
  }

  lemma {:induction false} FieldsOfHintFields(counts: seq<nat>, rest: string)
    requires forall i :: 0 <= i < |counts| ==> counts[i] <= MaxInt
    ensures Fields(HintFields(counts) + rest, |counts|) == Some((counts, rest))
    decreases |counts|
  {
    hide Index, Atoi, Fields, Decimal;
    var h := HintFields(counts) + rest;
    if counts == [] {
      assert h == rest;
      FieldsDone(h);
    } else {
      var d, tail := Decimal(counts[0]), HintFields(counts[1..]) + rest;
      assert h == d + " " + tail;
      assert !IsDigit(' ');
      IndexAfter(d, ' ', tail);
      assert h[..|d|] == d && h[|d| + 1..] == tail;
      AtoiOfDecimal(counts[0]);
      FieldsUnfold(h, |counts|);
      FieldsOfHintFields(counts[1..], rest);
      assert counts == [counts[0]] + counts[1..];
    }
  }

  lemma IndexAfter(a: string, c: char, b: string)
    requires c !in a
    ensures Index(a + [c] + b, c) == |a|
  {
    var s := a + [c] + b;
    assert s[|a|] == c;
    assert forall i :: 0 <= i < |a| ==> s[i] == a[i];
  }

  lemma HintOfHintLine(d: nat, s: nat, k: nat, r: nat)
    requires d <= MaxInt && s <= MaxInt && k <= MaxInt && r <= MaxInt
    ensures IsHint(HintLine(d, s, k, r)) && HintOf(HintLine(d, s, k, r)) == Some([d, s, k, r])
  {
    var counts := [d, s, k, r];
    var line := HintLine(d, s, k, r);
    assert line[..|HintPrefix|] == HintPrefix;
    assert line[|HintPrefix|..] == HintFields(counts) + HintSuffix;
    FieldsOfHintFields(counts, HintSuffix);
  }

  function Spaced(words: seq<string>): string {
    if words == [] then "" else words[0] + " " + Spaced(words[1..])
  }

  /** A number that is not negative, without spaces. */
  predicate IsCount(w: string) {
    ' ' !in w && Atoi(w).Some? && Atoi(w).value >= 0
  }

  lemma SpacedCons(word: string, more: seq<string>, rest: string)
    ensures Spaced([word] + more) + rest == word + " " + (Spaced(more) + rest)
  {
    assert ([word] + more)[1..] == more;
  }

  lemma {:induction false} FieldsToWords(h: string, n: nat) returns (words: seq<string>)
    requires Fields(h, n).Some?
    ensures |words| == n && h == Spaced(words) + Fields(h, n).value.1
    ensures forall i :: 0 <= i < n ==> IsCount(words[i])
    decreases n
  {
    hide Atoi, Fields, Spaced, IsCount;
    if n == 0 {
      FieldsDone(h);
      words := [];
      assert Spaced(words) == "" by {
        SpacedNothing();
      }
    } else {
      FieldsUnfold(h, n);
      var i := Index(h, ' ');
      var word, left := h[..i], h[i + 1..];
      FirstWord(word);
      var more := FieldsToWords(left, n - 1);
      SpacedCons(word, more, Fields(h, n).value.1);
      assert h == word + " " + left;
      words := [word] + more;
    }
  }

  lemma SpacedNothing()
    ensures Spaced([]) == ""
  {}

  lemma FirstWord(word: string)
    ensures ' ' !in word && Atoi(word).Some? && Atoi(word).value >= 0 ==> IsCount(word)
  {}

  lemma {:induction false} WordsToFields(words: seq<string>, rest: string)
    requires forall i :: 0 <= i < |words| ==> IsCount(words[i])
    ensures var f := Fields(Spaced(words) + rest, |words|);
            f.Some? && f.value.1 == rest && |f.value.0| == |words|
            && forall i :: 0 <= i < |words| ==> Some(f.value.0[i] as int) == Atoi(words[i])
    decreases |words|
  {
    hide Atoi, Fields, Spaced;
    if words == [] {
      SpacedNothing();
      assert "" + rest == rest;
      FieldsDone(rest);
    } else {
      var word, left := words[0], words[1..];
      assert words == [word] + left && IsCount(word);
      SpacedCons(word, left, rest);
      var more := Spaced(left) + rest;
      var h := word + " " + more;
      IndexAfter(word, ' ', more);
      assert word + [' '] + more == h && h[..|word|] == word && h[|word| + 1..] == more;
      FieldsUnfold(h, |words|);
      WordsToFields(left, rest);
    }
  }

  /** A capacity hint is four counts, each with a space after it, between prefix and suffix; anything else is a bad hint. */
  lemma HintExactly(line: string)
    requires IsHint(line)
    ensures HintOf(line).Some? <==>
            exists words: seq<string> ::
              && |words| == 4 && (forall i :: 0 <= i < 4 ==> IsCount(words[i]))
              && line == "# shadowsocks-go domain set capacity hint " + Spaced(words) + "DSKR"
  {
    hide Fields, IsCount, Spaced;
    var h := line[|HintPrefix|..];
    assert line == HintPrefix + h;
    if HintOf(line).Some? {
      var words := FieldsToWords(h, 4);
      assert line == HintPrefix + Spaced(words) + "DSKR";
    }
    if words: seq<string> :| |words| == 4 && (forall i :: 0 <= i < 4 ==> IsCount(words[i])) && line == HintPrefix + Spaced(words) + "DSKR" {
      assert HintPrefix + Spaced(words) + "DSKR" == HintPrefix + (Spaced(words) + "DSKR");
      assert h == Spaced(words) + "DSKR";
      WordsToFields(words, "DSKR");
    }
  }

  // ----- rule lines -----

  datatype Entry = Comment | Rule(kind: RuleKind, rule: string)

  function Prefix(kind: RuleKind): string {
    match kind
    case Domain => DomainPrefix
    case Suffix => SuffixPrefix
    case Keyword => KeywordPrefix
    case Regexp => RegexpPrefix
  }

  function Classify(line: string): Option<Entry>
    requires line != ""
  {
    if |line| <= 7 then (if line[0] != '#' then None else Some(Comment))
    else if line[..7] == SuffixPrefix then Some(Rule(Suffix, line[7..]))
    else if line[..7] == DomainPrefix then Some(Rule(Domain, line[7..]))
    else if line[..7] == RegexpPrefix then Some(Rule(Regexp, line[7..]))
    else if |line| > 8 && line[..8] == KeywordPrefix then Some(Rule(Keyword, line[8..]))
    else if line[0] != '#' then None else Some(Comment)
  }

  function AddAll(t: RuleText, kind: RuleKind, rules: seq<string>): RuleText {
    match kind
    case Domain => t.(domains := t.domains + rules)
    case Suffix => t.(suffixes := t.suffixes + rules)
    case Keyword => t.(keywords := t.keywords + rules)
    case Regexp => t.(regexps := t.regexps + rules)
  }

  function Add(t: RuleText, e: Entry): RuleText {
    if e.Comment? then t else AddAll(t, e.kind, [e.rule])
  }

  /** The rules of the given lines after those in `acc`; the first line that is none fails. */
  function Collect(lines: seq<string>, acc: RuleText): Result<RuleText, TextError> {
    if lines == [] then Ok(acc)
    else if lines[0] == "" || Classify(lines[0]).None? then Err(InvalidLine)
    else Collect(lines[1..], Add(acc, Classify(lines[0]).value))
  }

  /** The rules before the first line that is none. */
  function CollectUntil(lines: seq<string>, acc: RuleText): RuleText {
    if lines == [] || lines[0] == "" || Classify(lines[0]).None? then acc
    else CollectUntil(lines[1..], Add(acc, Classify(lines[0]).value))
  }

  /** Without such a line they are all rules; with one they are those of the lines before it. */
  lemma {:induction false} CollectUntilFirst(lines: seq<string>, acc: RuleText)
    ensures Collect(lines, acc).Ok? ==> Collect(lines, acc).value == CollectUntil(lines, acc)
    ensures Collect(lines, acc).Err? ==>
              exists i :: 0 <= i < |lines| && (lines[i] == "" || Classify(lines[i]).None?)
                          && Collect(lines[..i], acc) == Ok(CollectUntil(lines, acc))
    decreases |lines|
  {
    hide Classify, Add;
    if lines != [] && lines[0] != "" && Classify(lines[0]).Some? {
      var acc' := Add(acc, Classify(lines[0]).value);
      CollectUntilFirst(lines[1..], acc');
      if Collect(lines[1..], acc').Err? {
        var i :| 0 <= i < |lines[1..]| && (lines[1..][i] == "" || Classify(lines[1..][i]).None?)
                 && Collect(lines[1..][..i], acc') == Ok(CollectUntil(lines[1..], acc'));
        assert lines[..i + 1][0] == lines[0] && lines[..i + 1][1..] == lines[1..][..i];
        assert lines[i + 1] == lines[1..][i];
        assert Collect(lines[..i + 1], acc) == Ok(CollectUntil(lines, acc));
      }
    } else if lines != [] {
      assert lines[..0] == [];
      assert Collect(lines[..0], acc) == Ok(CollectUntil(lines, acc));
    }
  }

  const NoRules := RuleText([], [], [], [])

  /** The lines that hold rules: all but a capacity hint. */
  function RuleLines(text: string): seq<string> {
    var lines := Lines(text);
    if lines != [] && IsHint(lines[0]) then lines[1..] else lines
  }

  function Parse(text: string): Result<RuleText, TextError> {
    var lines := Lines(text);
    if lines == [] then Err(EmptySet)
    else if IsHint(lines[0]) then
      if HintOf(lines[0]).None? then Err(BadHint)
      else if |lines| == 1 then Err(EmptySet)
      else Collect(lines[1..], NoRules)
    else Collect(lines, NoRules)
  }

  // ----- printing -----

  function Printed(kind: RuleKind, rules: seq<string>): string {
    if rules == [] then "" else Prefix(kind) + rules[0] + "\n" + Printed(kind, rules[1..])
  }

  function Body(t: RuleText): string {
    Printed(Domain, t.domains) + (Printed(Suffix, t.suffixes) + (Printed(Keyword, t.keywords) + Printed(Regexp, t.regexps)))
  }

  function Print(t: RuleText): string {
    HintLine(|t.domains|, |t.suffixes|, |t.keywords|, |t.regexps|) + "\n" + Body(t)
  }

  lemma {:induction false} PrintedSnoc(kind: RuleKind, rules: seq<string>, r: string)
    ensures Printed(kind, rules + [r]) == Printed(kind, rules) + (Prefix(kind) + r + "\n")
    decreases |rules|
  {
    hide Prefix;
    if rules == [] {
      assert ([] + [r])[1..] == [];
    } else {
      PrintedSnoc(kind, rules[1..], r);
      assert (rules + [r])[1..] == rules[1..] + [r];
      Assoc(Prefix(kind) + rules[0] + "\n", Printed(kind, rules[1..]), Prefix(kind) + r + "\n");
    }
  }

  lemma PrintedNil(kind: RuleKind)
    ensures Printed(kind, []) == ""
  {}

  /** One of the four loops of WriteText. */
  method WriteRules(text: string, kind: RuleKind, rules: seq<string>) returns (r: string)
    ensures r == text + Printed(kind, rules)
  {
    hide Printed, Prefix;
    r := text;
    assert rules[..0] == [];
    PrintedNil(kind);
    for i := 0 to |rules|
      invariant r == text + Printed(kind, rules[..i])
    {
      PrintedSnoc(kind, rules[..i], rules[i]);
      assert rules[..i + 1] == rules[..i] + [rules[i]];
      Assoc(text, Printed(kind, rules[..i]), Prefix(kind) + rules[i] + "\n");
      Assoc(r, Prefix(kind), rules[i]);
      Assoc(r, Prefix(kind) + rules[i], "\n");
      r := r + Prefix(kind);
      r := r + rules[i];
      r := r + "\n";
    }
    assert rules[..|rules|] == rules;
  }

  method WriteText(t: RuleText) returns (text: string)
    ensures text == Print(t)
  {
    hide Printed, HintLine;
    text := HintLine(|t.domains|, |t.suffixes|, |t.keywords|, |t.regexps|) + "\n";
    text := WriteRules(text, Domain, t.domains);
    text := WriteRules(text, Suffix, t.suffixes);
    text := WriteRules(text, Keyword, t.keywords);
    text := WriteRules(text, Regexp, t.regexps);
  }

  // ----- reading back what was printed -----

  predicate OneLine(s: string) {
    '\n' !in s
  }

  /** A rule that survives: not empty, on one line, not ending in CR. */
  predicate Clean(rules: seq<string>) {
    forall i :: 0 <= i < |rules| ==> rules[i] != "" && OneLine(rules[i]) && StripCR(rules[i]) == rules[i]
  }

  predicate OneLiners(rules: seq<string>) {
    forall i :: 0 <= i < |rules| ==> OneLine(rules[i])
  }

  function Stripped(rules: seq<string>): (r: seq<string>)
    ensures |r| == |rules| && forall i :: 0 <= i < |r| ==> r[i] == StripCR(rules[i])
  {
    if rules == [] then [] else [StripCR(rules[0])] + Stripped(rules[1..])
  }

  predicate NoneEmpty(rules: seq<string>) {
    forall i :: 0 <= i < |rules| ==> StripCR(rules[i]) != ""
  }

  lemma LinesCons(line: string, rest: string)
    requires OneLine(line) && StripCR(line) != ""
    ensures Lines(line + "\n" + rest) == [StripCR(line)] + Lines(rest)
  {
    var text := line + "\n" + rest;
    IndexAfter(line, '\n', rest);
    assert text[..|line|] == line && text[|line| + 1..] == rest;
    assert NextLine(text) == (StripCR(line), rest);
  }

  lemma StripPrefixed(kind: RuleKind, r: string)
    requires OneLine(r)
    ensures OneLine(Prefix(kind) + r) && StripCR(Prefix(kind) + r) == Prefix(kind) + StripCR(r)
  {}

  lemma ClassifyPrefixed(kind: RuleKind, r: string)
    ensures Classify(Prefix(kind) + r) == if r == "" then None else Some(Rule(kind, r))
  {
    var line := Prefix(kind) + r;
    assert line[..|Prefix(kind)|] == Prefix(kind) && line[|Prefix(kind)|..] == r;
    if kind.Keyword? {
      assert line[..7] == "keyword";
    }
  }

  lemma {:induction false} CollectPrinted(kind: RuleKind, rules: seq<string>, rest: string, acc: RuleText)
    requires OneLiners(rules)
    ensures Collect(Lines(Printed(kind, rules) + rest), acc) ==
            if NoneEmpty(rules) then Collect(Lines(rest), AddAll(acc, kind, Stripped(rules))) else Err(InvalidLine)
    ensures if rules == [] then Printed(kind, rules) + rest == rest else Lines(Printed(kind, rules) + rest) != []
    decreases |rules|
  {
    hide Lines, Collect, StripCR, Prefix, AddAll, NoneEmpty;
    if rules == [] {
      assert Printed(kind, rules) + rest == rest;
      AddNothing(acc, kind);
      NoneEmptyNil();
    } else {
      CollectLine(kind, rules[0], Printed(kind, rules[1..]) + rest, acc);
      Assoc(Prefix(kind) + rules[0] + "\n", Printed(kind, rules[1..]), rest);
      NoneEmptyCons(rules);
      var r := StripCR(rules[0]);
      if r != "" {
        CollectPrinted(kind, rules[1..], rest, AddAll(acc, kind, [r]));
        AddTwice(acc, kind, [r], Stripped(rules[1..]));
      }
    }
  }

  lemma NoneEmptyNil()
    ensures NoneEmpty([])
  {}

  lemma NoneEmptyCons(rules: seq<string>)
    requires rules != []
    ensures NoneEmpty(rules) <==> StripCR(rules[0]) != "" && NoneEmpty(rules[1..])
  {
    if StripCR(rules[0]) != "" && NoneEmpty(rules[1..]) {
      forall i | 0 <= i < |rules|
        ensures StripCR(rules[i]) != ""
      {
        assert i > 0 ==> rules[i] == rules[1..][i - 1];
      }
    }
  }

  lemma AddNothing(acc: RuleText, kind: RuleKind)
    ensures AddAll(acc, kind, []) == acc
  {}

  lemma AddTwice(acc: RuleText, kind: RuleKind, a: seq<string>, b: seq<string>)
    ensures AddAll(AddAll(acc, kind, a), kind, b) == AddAll(acc, kind, a + b)
  {}

  lemma CollectLine(kind: RuleKind, r: string, rest: string, acc: RuleText)
    requires OneLine(r)
    ensures var lines := Lines(Prefix(kind) + r + "\n" + rest);
            && lines != []
            && Collect(lines, acc) ==
               if StripCR(r) == "" then Err(InvalidLine) else Collect(Lines(rest), AddAll(acc, kind, [StripCR(r)]))
  {
    hide Classify, Lines, StripCR;
    StripPrefixed(kind, r);
    LinesCons(Prefix(kind) + r, rest);
    ClassifyPrefixed(kind, StripCR(r));
    var l := Prefix(kind) + StripCR(r);
    assert ([l] + Lines(rest))[1..] == Lines(rest);
  }

  predicate All(p: seq<string> -> bool, t: RuleText) {
    p(t.domains) && p(t.suffixes) && p(t.keywords) && p(t.regexps)
  }

  lemma CollectBody(t: RuleText)
    requires All(OneLiners, t)
    ensures Collect(Lines(Body(t)), NoRules) ==
            if All(NoneEmpty, t)
            then Ok(RuleText(Stripped(t.domains), Stripped(t.suffixes), Stripped(t.keywords), Stripped(t.regexps)))
            else Err(InvalidLine)
    ensures Lines(Body(t)) == [] <==> t == NoRules
  {
    hide Printed, Stripped, Lines, Collect, NoneEmpty, OneLiners;
    var a1 := AddAll(NoRules, Domain, Stripped(t.domains));
    var a2 := AddAll(a1, Suffix, Stripped(t.suffixes));
    var a3 := AddAll(a2, Keyword, Stripped(t.keywords));
    var pr := Printed(Regexp, t.regexps);
    var pk := Printed(Keyword, t.keywords) + pr;
    var ps := Printed(Suffix, t.suffixes) + pk;
    CollectPrinted(Domain, t.domains, ps, NoRules);
    CollectPrinted(Suffix, t.suffixes, pk, a1);
    CollectPrinted(Keyword, t.keywords, pr, a2);
    CollectPrinted(Regexp, t.regexps, "", a3);
    assert pr + "" == pr;
    var a4 := AddAll(a3, Regexp, Stripped(t.regexps));
    CollectNothing(a4);
    assert a4 == RuleText(Stripped(t.domains), Stripped(t.suffixes), Stripped(t.keywords), Stripped(t.regexps));
  }

  lemma CollectNothing(acc: RuleText)
    ensures Lines("") == [] && Collect([], acc) == Ok(acc)
  {}

  /** Everything read has one line. */
  lemma {:induction false} CollectOneLiners(lines: seq<string>, acc: RuleText)
    requires OneLiners(lines) && All(OneLiners, acc)
    ensures Collect(lines, acc).Ok? ==> All(OneLiners, Collect(lines, acc).value)
    decreases |lines|
  {
    if lines != [] && lines[0] != "" && Classify(lines[0]).Some? {
      CollectOneLiners(lines[1..], Add(acc, Classify(lines[0]).value));
    }
  }

  lemma {:induction false} LinesOneLiners(text: string)
    ensures OneLiners(Lines(text))
    decreases |text|
  {
    var (line, rest) := NextLine(text);
    if line != "" {
      LinesOneLiners(rest);
    }
  }

  lemma ParseOneLiners(text: string)
    requires Parse(text).Ok?
    ensures All(OneLiners, Parse(text).value)
  {
    LinesOneLiners(text);
    var lines := Lines(text);
    CollectOneLiners(lines, NoRules);
    CollectOneLiners(lines[1..], NoRules);
  }

  ghost predicate Countable(t: RuleText) {
    |t.domains| <= MaxInt && |t.suffixes| <= MaxInt && |t.keywords| <= MaxInt && |t.regexps| <= MaxInt
  }

  lemma ParsePrinted(t: RuleText)
    requires Countable(t)
    ensures Parse(Print(t)) == if Lines(Body(t)) == [] then Err(EmptySet) else Collect(Lines(Body(t)), NoRules)
  {
    hide HintLine, HintOf, IsHint, Lines, Collect, Body;
    var hint := HintLine(|t.domains|, |t.suffixes|, |t.keywords|, |t.regexps|);
    HintIsOneLine(|t.domains|, |t.suffixes|, |t.keywords|, |t.regexps|);
    HintOfHintLine(|t.domains|, |t.suffixes|, |t.keywords|, |t.regexps|);
    LinesCons(hint, Body(t));
    assert ([hint] + Lines(Body(t)))[1..] == Lines(Body(t));
  }

  lemma HintIsOneLine(d: nat, s: nat, k: nat, r: nat)
    ensures OneLine(HintLine(d, s, k, r)) && StripCR(HintLine(d, s, k, r)) == HintLine(d, s, k, r) != ""
  {
    FieldsOneLine([d, s, k, r]);
    OneLineConcat(HintPrefix, HintFields([d, s, k, r]));
    OneLineConcat(HintPrefix + HintFields([d, s, k, r]), HintSuffix);
  }

  lemma OneLineConcat(a: string, b: string)
    requires OneLine(a) && OneLine(b)
    ensures OneLine(a + b)
  {}

  lemma {:induction false} FieldsOneLine(counts: seq<nat>)
    ensures OneLine(HintFields(counts))
    decreases |counts|
  {
    if counts != [] {
      FieldsOneLine(counts[1..]);
      assert OneLine(Decimal(counts[0])) by {
        assert !IsDigit('\n');
      }
    }
  }

  lemma StrippedIsSame(rules: seq<string>)
    requires OneLiners(rules)
    ensures Clean(rules) <==> NoneEmpty(rules) && Stripped(rules) == rules
  {
    if Clean(rules) {
      assert Stripped(rules) == rules;
    }
  }

  /** Printing and parsing gives the rules back, in order, exactly when there is a rule and every rule is
      non-empty, holds no LF and does not end in CR. */
  lemma ParsePrintExactly(t: RuleText)
    requires Countable(t)
    ensures Parse(Print(t)) == Ok(t) <==> t != NoRules && All(Clean, t)
  {
    hide Print, Parse, Lines, Body, Collect, Stripped, NoneEmpty;
    if All(OneLiners, t) {
      ParsePrinted(t);
      CollectBody(t);
      StrippedIsSame(t.domains);
      StrippedIsSame(t.suffixes);
      StrippedIsSame(t.keywords);
      StrippedIsSame(t.regexps);
    } else if Parse(Print(t)) == Ok(t) {
      ParseOneLiners(Print(t));
    }
  }

  /** The three ways in which a single rule does not survive: a final CR is lost, an empty rule makes the text
      unreadable, and a rule with an LF comes back as two. */
  lemma RulesThatDoNotSurvive()
    ensures Parse(Print(RuleText(["a\r"], [], [], []))) == Ok(RuleText(["a"], [], [], []))
    ensures Parse(Print(RuleText([""], [], [], []))) == Err(InvalidLine)
    ensures Parse(Print(RuleText(["a\nsuffix:b"], [], [], []))) == Ok(RuleText(["a"], ["b"], [], []))
  {
    hide Print, Parse, Lines, Body, Collect, HintLine;
    var cr, empty := RuleText(["a\r"], [], [], []), RuleText([""], [], [], []);
    ParsePrinted(cr);
    CollectBody(cr);
    assert StripCR("a\r") == "a";
    assert Stripped(["a\r"]) == ["a"];
    ParsePrinted(empty);
    CollectBody(empty);
    assert StripCR(empty.domains[0]) == "";
    OneRuleBecomesTwo();
  }

  /** On the page the rule with an LF is the same as the two. */
  lemma OneRuleBecomesTwo()
    ensures Parse(Print(RuleText(["a\nsuffix:b"], [], [], []))) == Ok(RuleText(["a"], ["b"], [], []))
  {
    hide Parse, Lines, Collect, HintLine, Print;
    var one, two := RuleText(["a\nsuffix:b"], [], [], []), RuleText(["a"], ["b"], [], []);
    assert Body(one) == Body(two) by {
      assert Printed(Domain, ["a\nsuffix:b"]) == DomainPrefix + "a\nsuffix:b" + "\n" + "";
      assert Printed(Domain, ["a"]) == DomainPrefix + "a" + "\n" + "";
      assert Printed(Suffix, ["b"]) == SuffixPrefix + "b" + "\n" + "";
    }
    ParsePrinted(one);
    ParsePrinted(two);
    CollectBody(two);
    assert Stripped(["a"]) == ["a"] && Stripped(["b"]) == ["b"];
  }

  /** A CR before the LF that ends a line is dropped, one at the end of the text is not. */
  lemma LastLineKeepsCR(line: string, rest: string)
    requires OneLine(line) && line != ""
    ensures NextLine(line + "\r\n" + rest) == (line, rest)
    ensures NextLine(line + "\r") == (line + "\r", "")
  {
    IndexAfter(line + "\r", '\n', rest);
    assert line + "\r\n" + rest == line + "\r" + "\n" + rest;
    var text := line + "\r\n" + rest;
    assert text[..|line| + 1] == line + "\r" && text[|line| + 2..] == rest;
  }

  // ----- reading any text -----

  /** What the lines with this prefix list, in order. */
  function RulesWith(prefix: string, lines: seq<string>): seq<string> {
    if lines == [] then []
    else (if StartsWith(lines[0], prefix) then [lines[0][|prefix|..]] else []) + RulesWith(prefix, lines[1..])
  }

  /** The prefix, with something after it. */
  predicate StartsWith(line: string, prefix: string) {
    |line| > |prefix| && line[..|prefix|] == prefix
  }

  predicate Readable(line: string) {
    || (line != "" && line[0] == '#')
    || StartsWith(line, "domain:") || StartsWith(line, "suffix:") || StartsWith(line, "keyword:") || StartsWith(line, "regexp:")
  }

  /** Every line is a comment or a rule, and the rules are those listed under each prefix. */
  function ReadLines(lines: seq<string>): Result<RuleText, TextError> {
    if exists i :: 0 <= i < |lines| && !Readable(lines[i]) then Err(InvalidLine)
    else Ok(RuleText(RulesWith("domain:", lines), RulesWith("suffix:", lines), RulesWith("keyword:", lines), RulesWith("regexp:", lines)))
  }

  function Join(a: RuleText, b: RuleText): RuleText {
    RuleText(a.domains + b.domains, a.suffixes + b.suffixes, a.keywords + b.keywords, a.regexps + b.regexps)
  }

  lemma ClassifyExactly(line: string)
    requires line != ""
    ensures Classify(line).Some? <==> Readable(line)
    ensures Classify(line).Some? ==>
              Add(NoRules, Classify(line).value)
              == RuleText(RulesWith("domain:", [line]), RulesWith("suffix:", [line]), RulesWith("keyword:", [line]), RulesWith("regexp:", [line]))
  {
    if |line| > 7 {
      assert line[..7][0] == line[0];
    }
    if |line| > 8 {
      assert line[..8][0] == line[0] && line[..8][..7] == line[..7];
    }
  }

  lemma JoinAssoc(a: RuleText, b: RuleText, c: RuleText)
    ensures Join(Join(a, b), c) == Join(a, Join(b, c))
  {
    Assoc(a.domains, b.domains, c.domains);
    Assoc(a.suffixes, b.suffixes, c.suffixes);
    Assoc(a.keywords, b.keywords, c.keywords);
    Assoc(a.regexps, b.regexps, c.regexps);
  }

  lemma AddJoins(acc: RuleText, e: Entry)
    ensures Add(acc, e) == Join(acc, Add(NoRules, e))
  {}

  lemma RulesWithCons(prefix: string, lines: seq<string>)
    requires lines != []
    ensures RulesWith(prefix, lines) == RulesWith(prefix, [lines[0]]) + RulesWith(prefix, lines[1..])
  {
    assert [lines[0]][1..] == [];
  }

  lemma {:induction false} CollectReads(lines: seq<string>, acc: RuleText)
    requires "" !in lines
    ensures var r := ReadLines(lines);
            Collect(lines, acc) == if r.Err? then r else Ok(Join(acc, r.value))
    decreases |lines|
  {
    hide Classify, Add, Readable, ReadLines, Join;
    if lines == [] {
      NoLines(acc);
    } else {
      var line := lines[0];
      assert line != "" && "" !in lines[1..];
      ReadsClassified(line);
      ReadLinesCons(lines);
      if Classify(line).Some? {
        var e := Classify(line).value;
        AddJoins(acc, e);
        CollectReads(lines[1..], Add(acc, e));
        if ReadLines(lines[1..]).Ok? {
          JoinAssoc(acc, Add(NoRules, e), ReadLines(lines[1..]).value);
        }
      }
    }
  }

  lemma ReadsClassified(line: string)
    requires line != ""
    ensures ReadLines([line]) == if Classify(line).None? then Err(InvalidLine) else Ok(Add(NoRules, Classify(line).value))
  {
    hide Classify, Add, Readable, RulesWith;
    ClassifyExactly(line);
    assert [line][0] == line;
  }

  lemma NoLines(acc: RuleText)
    ensures ReadLines([]) == Ok(NoRules) && Join(acc, NoRules) == acc
  {}

  lemma ReadLinesCons(lines: seq<string>)
    requires lines != []
    ensures var first, rest := ReadLines([lines[0]]), ReadLines(lines[1..]);
            && (first.Ok? <==> Readable(lines[0]))
            && (first.Err? ==> first == Err(InvalidLine)) && (rest.Err? ==> rest == Err(InvalidLine))
            && ReadLines(lines) == if first.Err? || rest.Err? then Err(InvalidLine) else Ok(Join(first.value, rest.value))
  {
    hide Readable, RulesWith;
    RulesWithCons("domain:", lines);
    RulesWithCons("suffix:", lines);
    RulesWithCons("keyword:", lines);
    RulesWithCons("regexp:", lines);
    assert [lines[0]][0] == lines[0];
    if i :| 0 <= i < |lines| && !Readable(lines[i]) {
      assert i > 0 ==> lines[1..][i - 1] == lines[i];
    }
    if i :| 0 <= i < |lines[1..]| && !Readable(lines[1..][i]) {
      assert lines[i + 1] == lines[1..][i];
    }
  }

  lemma {:induction false} LinesNonEmpty(text: string)
    ensures "" !in Lines(text)
    decreases |text|
  {
    var (line, rest) := NextLine(text);
    if line != "" {
      LinesNonEmpty(rest);
    }
  }

  /** A text means what its lines mean: an optional capacity hint first, then comments and rules. */
  lemma ParseReads(text: string)
    ensures var lines := Lines(text);
            Parse(text) ==
            if lines == [] then Err(EmptySet)
            else if StartsWith(lines[0], "# shadowsocks-go domain set capacity hint ") then
              if HintOf(lines[0]).None? then Err(BadHint) else if |lines| == 1 then Err(EmptySet) else ReadLines(lines[1..])
            else ReadLines(lines)
  {
    hide Lines, Collect, HintOf, ReadLines;
    LinesNonEmpty(text);
    var lines := Lines(text);
    CollectReads(lines, NoRules);
    if lines != [] {
      CollectReads(lines[1..], NoRules);
    }
    assert forall t :: Join(NoRules, t) == t;
  }

  /** The rules before the first line that is neither a comment nor a rule; a leading hint is no rule line. */
  lemma PartReads(text: string) returns (k: nat)
    ensures var lines := Lines(text);
            var hint := lines != [] && StartsWith(lines[0], "# shadowsocks-go domain set capacity hint ");
            var rules := if hint then lines[1..] else lines;
            && k <= |rules| && (k < |rules| ==> !Readable(rules[k]))
            && ReadLines(rules[..k]) == Ok(CollectUntil(RuleLines(text), NoRules))
  {
    hide Lines, Readable, ReadLines;
    LinesNonEmpty(text);
    k := PartOfLines(RuleLines(text), NoRules);
    ReadNothing([]);
  }

  lemma {:induction false} PartOfLines(lines: seq<string>, acc: RuleText) returns (k: nat)
    requires "" !in lines
    ensures k <= |lines| && (k < |lines| ==> !Readable(lines[k])) && ReadLines(lines[..k]).Ok?
    ensures CollectUntil(lines, acc) == Join(acc, ReadLines(lines[..k]).value)
    decreases |lines|
  {
    hide Classify, Add, Readable, ReadLines, Join;
    if lines == [] || Classify(lines[0]).None? {
      k := 0;
      NoLines(acc);
      if lines != [] {
        ClassifyExactly(lines[0]);
      }
      assert lines[..0] == [];
    } else {
      var line, e := lines[0], Classify(lines[0]).value;
      assert line != "" && "" !in lines[1..];
      ClassifyExactly(line);
      ReadsClassified(line);
      k := PartOfLines(lines[1..], Add(acc, e));
      AddJoins(acc, e);
      JoinAssoc(acc, Add(NoRules, e), ReadLines(lines[1..][..k]).value);
      assert lines[..k + 1][1..] == lines[1..][..k] && lines[..k + 1][0] == line;
      ReadLinesCons(lines[..k + 1]);
      k := k + 1;
    }
  }

  predicate WholeLines(text: string) {
    text == "" || text[|text| - 1] == '\n'
  }

  lemma {:induction false} LinesAppend(before: string, after: string)
    requires WholeLines(before)
    ensures Lines(before + after) == Lines(before) + Lines(after)
    decreases |before|
  {
    hide Lines;
    if before == "" {
      assert before + after == after;
      LinesEmpty();
    } else {
      var i := Index(before, '\n');
      var line, rest := before[..i], before[i + 1..];
      assert before == line + "\n" + rest;
      assert before + after == line + "\n" + (rest + after);
      LinesAppend(rest, after);
      LinesStep(line, rest);
      LinesStep(line, rest + after);
    }
  }

  lemma LinesEmpty()
    ensures Lines("") == []
  {}

  lemma LinesStep(line: string, rest: string)
    requires OneLine(line)
    ensures Lines(line + "\n" + rest) == (if StripCR(line) == "" then [] else [StripCR(line)]) + Lines(rest)
  {
    var text := line + "\n" + rest;
    IndexAfter(line, '\n', rest);
    assert text[..|line|] == line && text[|line| + 1..] == rest;
    assert NextLine(text) == if StripCR(line) == "" then NextLine(rest) else (StripCR(line), rest);
  }

  lemma {:induction false} ReadLinesAppend(a: seq<string>, b: seq<string>)
    ensures ReadLines(a + b) ==
            if ReadLines(a).Err? || ReadLines(b).Err? then Err(InvalidLine) else Ok(Join(ReadLines(a).value, ReadLines(b).value))
    decreases |a|
  {
    hide ReadLines, Join;
    if a == [] {
      assert a + b == b;
      ReadNothing(b);
    } else {
      assert (a + b)[1..] == a[1..] + b && (a + b)[0] == a[0];
      ReadLinesAppend(a[1..], b);
      ReadLinesCons(a);
      ReadLinesCons(a + b);
      if ReadLines([a[0]]).Ok? && ReadLines(a[1..]).Ok? && ReadLines(b).Ok? {
        JoinAssoc(ReadLines([a[0]]).value, ReadLines(a[1..]).value, ReadLines(b).value);
      }
    }
  }

  lemma ReadNothing(lines: seq<string>)
    ensures ReadLines([]) == Ok(NoRules) && (ReadLines(lines).Err? ==> ReadLines(lines) == Err(InvalidLine))
    ensures forall t :: Join(NoRules, t) == t
  {}

  /** A line that starts with # and is not a leading capacity hint changes nothing, wherever it stands among the lines;
      only a text that would be empty without it is not. */
  lemma CommentIgnored(before: string, comment: string, after: string)
    requires WholeLines(before) && OneLine(comment) && comment != "" && comment[0] == '#'
    requires Lines(before) == [] ==> !StartsWith(StripCR(comment), "# shadowsocks-go domain set capacity hint ")
    ensures var with, without := Parse(before + comment + "\n" + after), Parse(before + after);
            if Lines(before) == [] then with == ReadLines(Lines(after))
            else with == if without == Err(EmptySet) then Ok(NoRules) else without
  {
    hide Lines, HintOf, ReadLines, Parse;
    var line := StripCR(comment);
    assert line != "" && line[0] == '#';
    assert before + comment + "\n" + after == before + (comment + "\n" + after);
    LinesAppend(before, comment + "\n" + after);
    LinesStep(comment, after);
    LinesAppend(before, after);
    ParseReads(before + comment + "\n" + after);
    ParseReads(before + after);
    CommentReads(line);
    var b, a := Lines(before), Lines(after);
    ReadNothing(b);
    ReadNothing(a);
    ReadLinesAppend([line], a);
    if b != [] {
      ReadLinesAppend(b, [line] + a);
      ReadLinesAppend(b, a);
      ReadLinesAppend(b[1..], [line] + a);
      ReadLinesAppend(b[1..], a);
      assert (b + ([line] + a))[1..] == b[1..] + ([line] + a) && (b + a)[1..] == b[1..] + a;
    } else {
      assert b + ([line] + a) == [line] + a;
    }
  }

  lemma CommentReads(line: string)
    requires line != "" && line[0] == '#'
    ensures ReadLines([line]) == Ok(NoRules)
  {
    assert [line][1..] == [] && [line][0] == line;
    FirstOf(line, "domain:");
    FirstOf(line, "suffix:");
    FirstOf(line, "keyword:");
    FirstOf(line, "regexp:");
    assert RulesWith("domain:", [line]) == RulesWith("suffix:", [line]) == [];
    assert RulesWith("keyword:", [line]) == RulesWith("regexp:", [line]) == [];
  }

  lemma FirstOf(line: string, prefix: string)
    requires prefix != ""
    ensures StartsWith(line, prefix) ==> line[0] == prefix[0]
  {
    if StartsWith(line, prefix) {
      assert line[..|prefix|][0] == line[0];
    }
  }

  lemma JunkIsNoHint(line: string)
    ensures !Readable(line) ==> !StartsWith(line, "# shadowsocks-go domain set capacity hint ")
  {
    FirstOf(line, "# shadowsocks-go domain set capacity hint ");
  }

  /** A line that is neither a comment nor a prefix with a rule makes the text invalid, unless its hint already does. */
  lemma JunkRefused(before: string, junk: string, after: string)
    requires WholeLines(before) && OneLine(junk) && StripCR(junk) != "" && !Readable(StripCR(junk))
    ensures Parse(before + junk + "\n" + after) in [Err(InvalidLine), Err(BadHint)]
    ensures Lines(before) == [] ==> Parse(before + junk + "\n" + after) == Err(InvalidLine)
  {
    hide Lines, HintOf, ReadLines, Parse;
    var line := StripCR(junk);
    assert before + junk + "\n" + after == before + (junk + "\n" + after);
    LinesAppend(before, junk + "\n" + after);
    LinesStep(junk, after);
    ParseReads(before + junk + "\n" + after);
    var b, a := Lines(before), Lines(after);
    ReadLinesCons([line]);
    assert [line][0] == line;
    ReadLinesAppend([line], a);
    ReadLinesAppend(b, [line] + a);
    JunkIsNoHint(line);
    if b != [] {
      ReadLinesAppend(b[1..], [line] + a);
      assert (b + ([line] + a))[1..] == b[1..] + ([line] + a);
    } else {
      assert b + ([line] + a) == [line] + a;
    }
  }
}
