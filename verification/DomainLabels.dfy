/** Domain names as label paths, rightmost label first, and what a suffix rule means. */
module DomainLabels {

  type Path = seq<string>

  predicate DotFree(s: string) {
    forall i :: 0 <= i < |s| ==> s[i] != '.'
  }

  /** The index of the last dot, or -1. */
  function LastDot(s: string): (r: int)
    ensures -1 <= r < |s|
    ensures r >= 0 ==> s[r] == '.'
    ensures forall i :: r < i < |s| ==> s[i] != '.'
  {
    if s == [] then -1 else if s[|s| - 1] == '.' then |s| - 1 else LastDot(s[..|s| - 1])
  }

  /** Labels from right to left; empty labels are kept. */
  function Labels(s: string): (r: Path)
    ensures r != [] && forall i :: 0 <= i < |r| ==> DotFree(r[i])
    decreases |s|
  {
    var i := LastDot(s);
    if i < 0 then [s] else [s[i + 1..]] + Labels(s[..i])
  }

  function Join(p: Path): string
    requires p != []
    decreases |p|
  {
    if |p| == 1 then p[0] else Join(p[1..]) + "." + p[0]
  }

  lemma LastDotUnique(s: string, i: int)
    requires -1 <= i < |s| && (i >= 0 ==> s[i] == '.') && forall j :: i < j < |s| ==> s[j] != '.'
    ensures LastDot(s) == i
  {}

  lemma LabelsOfDotted(a: string, b: string)
    requires DotFree(b)
    ensures Labels(a + "." + b) == [b] + Labels(a)
  {
    var s := a + "." + b;
    LastDotUnique(s, |a|);
    assert s[|a| + 1..] == b && s[..|a|] == a;
  }

  lemma LabelsOfDotFree(s: string)
    requires DotFree(s)
    ensures Labels(s) == [s]
  {
    LastDotUnique(s, -1);
  }

  lemma {:induction false} JoinLabels(s: string)
    ensures Join(Labels(s)) == s
    decreases |s|
  {
    var i := LastDot(s);
    if i >= 0 {
      JoinLabels(s[..i]);
      assert Labels(s)[1..] == Labels(s[..i]);
      assert s == s[..i] + "." + s[i + 1..];
    }
  }

  lemma {:induction false} LabelsJoin(p: Path)
    requires p != [] && forall i :: 0 <= i < |p| ==> DotFree(p[i])
    ensures Labels(Join(p)) == p
    decreases |p|
  {
    if |p| == 1 {
      LabelsOfDotFree(p[0]);
    } else {
      LabelsJoin(p[1..]);
      LabelsOfDotted(Join(p[1..]), p[0]);
      assert p == [p[0]] + p[1..];
    }
  }

  /** matchDomainSuffix: the domain is the suffix, or ends with a dot and the suffix. */
  predicate MatchSuffix(domain: string, suffix: string) {
    || domain == suffix
    || (&& |domain| > |suffix| && domain[|domain| - |suffix| - 1] == '.'
        && domain[|domain| - |suffix|..] == suffix)
  }

  lemma MatchSuffixSplit(domain: string, suffix: string)
    ensures MatchSuffix(domain, suffix) <==> domain == suffix || exists a: string :: domain == a + "." + suffix
  {
    if |domain| > |suffix| && domain[|domain| - |suffix| - 1] == '.' && domain[|domain| - |suffix|..] == suffix {
      var a := domain[..|domain| - |suffix| - 1];
      assert domain == a + "." + suffix;
    }
    if a: string :| domain == a + "." + suffix {
      assert domain[|domain| - |suffix|..] == suffix;
    }
  }

  /** Dropping the same last label on both sides does not change whether the suffix matches. */
  lemma MatchSuffixDropLabel(c: string, a: string, e: string)
    requires DotFree(e)
    ensures MatchSuffix(c + "." + e, a + "." + e) <==> MatchSuffix(c, a)
  {
    var d, s := c + "." + e, a + "." + e;
    if MatchSuffix(c, a) {
      if c != a {
        assert d[|d| - |s|..] == c[|c| - |a|..] + "." + e;
        assert d[|d| - |s| - 1] == c[|c| - |a| - 1];
      }
    }
    if MatchSuffix(d, s) {
      if d == s {
        assert c == d[..|c|] && a == s[..|a|];
      } else {
        assert a == s[..|a|] == d[|d| - |s|..][..|a|] == c[|c| - |a|..];
        assert d[|d| - |s| - 1] == c[|c| - |a| - 1];
      }
    }
  }

  /** A suffix rule matches exactly when its labels are a prefix of the domain's labels. */
  lemma {:induction false} MatchSuffixIsPrefix(domain: string, suffix: string)
    ensures MatchSuffix(domain, suffix) <==> Labels(suffix) <= Labels(domain)
    decreases |suffix|
  {
    var i, j := LastDot(suffix), LastDot(domain);
    var b, e := suffix[i + 1..], domain[j + 1..];
    if i < 0 {
      DotFreeSuffix(domain, suffix);
    } else if j < 0 {
      assert Labels(domain) == [domain];
      assert |Labels(suffix)| >= 2;
      if MatchSuffix(domain, suffix) {
        SuffixChars(domain, suffix);
      }
    } else {
      var a, c := suffix[..i], domain[..j];
      assert suffix == a + "." + b && domain == c + "." + e;
      if b == e {
        MatchSuffixDropLabel(c, a, e);
        MatchSuffixIsPrefix(c, a);
        assert Labels(suffix) == [b] + Labels(a) && Labels(domain) == [b] + Labels(c);
        ConsPrefix(b, Labels(a), Labels(c));
      } else {
        assert Labels(suffix)[0] == b && Labels(domain)[0] == e;
        if MatchSuffix(domain, suffix) {
          SameLastLabel(domain, suffix);
        }
      }
    }
  }

  lemma ConsPrefix(b: string, p: Path, q: Path)
    ensures [b] + p <= [b] + q <==> p <= q
  {
    assert ([b] + p)[1..] == p && ([b] + q)[1..] == q;
    if [b] + p <= [b] + q {
      assert [b] + p == ([b] + q)[..1 + |p|];
      assert p == q[..|p|];
    }
  }

  lemma SuffixChars(domain: string, suffix: string)
    requires MatchSuffix(domain, suffix)
    ensures |domain| >= |suffix|
    ensures forall j :: |domain| - |suffix| <= j < |domain| ==> domain[j] == suffix[j - (|domain| - |suffix|)]
    ensures LastDot(suffix) >= 0 ==> domain[|domain| - |suffix| + LastDot(suffix)] == '.'
  {
    var k := |domain| - |suffix|;
    assert domain[k..] == suffix;
    assert forall j :: k <= j < |domain| ==> domain[j] == domain[k..][j - k];
  }

  /** A rule without dots matches exactly the domains whose last label it is. */
  lemma DotFreeSuffix(domain: string, suffix: string)
    requires DotFree(suffix)
    ensures MatchSuffix(domain, suffix) <==> Labels(suffix) <= Labels(domain)
  {
    LabelsOfDotFree(suffix);
    var j := LastDot(domain);
    assert Labels(domain)[0] == domain[j + 1..];
    assert Labels(suffix) <= Labels(domain) <==> domain[j + 1..] == suffix;
    if domain[j + 1..] == suffix {
      DotBefore(domain, suffix, j);
    }
    if MatchSuffix(domain, suffix) {
      hide Labels, MatchSuffix;
      DotFreeMatch(domain, suffix);
    }
  }

  lemma DotBefore(domain: string, suffix: string, j: int)
    requires j == LastDot(domain) && domain[j + 1..] == suffix
    ensures MatchSuffix(domain, suffix)
  {
    if j < 0 {
      assert domain[0..] == domain;
    }
  }

  lemma DotFreeMatch(domain: string, suffix: string)
    requires DotFree(suffix) && MatchSuffix(domain, suffix)
    ensures domain[LastDot(domain) + 1..] == suffix
  {
    hide LastDot, Labels, MatchSuffix;
    var k := |domain| - |suffix|;
    MatchBoundary(domain, suffix);
    SuffixDotFree(domain, suffix);
    LastDotUnique(domain, k - 1);
  }

  lemma SuffixDotFree(domain: string, suffix: string)
    requires DotFree(suffix) && |suffix| <= |domain| && domain[|domain| - |suffix|..] == suffix
    ensures forall j :: |domain| - |suffix| - 1 < j < |domain| ==> domain[j] != '.'
  {
    var k := |domain| - |suffix|;
    forall j | k - 1 < j < |domain|
      ensures domain[j] != '.'
    {
      assert domain[j] == domain[k..][j - k];
    }
  }

  lemma MatchBoundary(domain: string, suffix: string)
    requires MatchSuffix(domain, suffix)
    ensures |domain| >= |suffix| && domain[|domain| - |suffix|..] == suffix
    ensures |domain| > |suffix| ==> domain[|domain| - |suffix| - 1] == '.'
  {}

  lemma SameLastLabel(domain: string, suffix: string)
    requires MatchSuffix(domain, suffix) && LastDot(suffix) >= 0
    ensures domain[LastDot(domain) + 1..] == suffix[LastDot(suffix) + 1..]
  {
    hide LastDot, Labels;
    var k := |domain| - |suffix|;
    var i := LastDot(suffix);
    SuffixChars(domain, suffix);
    LastDotUnique(domain, k + i);
    assert domain[k..] == suffix;
    assert domain[k + i + 1..] == suffix[i + 1..];
  }
}
