/** The two capture expressions of parseHtml, <title>([^<]+)</title> and <h1[^>]*>([^<]+)</h1>,
    and a scan that finds exactly their leftmost matches.
 */
module TagCapture {
  import opened Options
  import opened Regex

  // An element: its opening, whether [^>]*> follows it, and its closing tag.
  datatype Element = Element(opening: string, attributes: bool, closing: string)

  const TITLE := Element("<title>", false, "</title>")
  const H1 := Element("<h1", true, "</h1>")

  predicate Proper(e: Element) {
    e.opening != "" && e.opening[0] == '<' && e.closing != "" && e.closing[0] == '<'
  }

  function PatternOf(e: Element): Pattern
    requires Proper(e)
  {
    Pattern(if e.attributes then Cat(Literal(e.opening), UpTo('>')) else Literal(e.opening),
            Plus(NotChr('<')),
            Literal(e.closing))
  }

  predicate LiteralAt(s: string, i: nat, w: string) { i + |w| <= |s| && s[i..i + |w|] == w }

  // Where the group must open if the element starts at i; |s| + 1 if it cannot.
  function GroupOpens(e: Element, s: string, i: nat): nat {
    if !LiteralAt(s, i, e.opening) then |s| + 1
    else if !e.attributes then i + |e.opening|
    else Find(s, '>', i + |e.opening|) + 1
  }

  // The one way in which the element can match from i.
  predicate ElementAt(e: Element, s: string, m: Cut) {
    && m.open == GroupOpens(e, s, m.start) <= |s|
    && m.close == Find(s, '<', m.open)
    && m.open < m.close
    && LiteralAt(s, m.close, e.closing)
    && m.end == m.close + |e.closing|
  }

  lemma OpeningMatches(e: Element, s: string, i: nat, j: nat)
    requires Proper(e) && i <= j <= |s|
    ensures Matches(PatternOf(e).before, s[i..j]) <==> j == GroupOpens(e, s, i)
  {
    LiteralMatches(e.opening, s[i..j]);
    if e.attributes {
      if Matches(PatternOf(e).before, s[i..j]) {
        AttributesOpen(e, s, i, j);
      }
      if j == GroupOpens(e, s, i) {
        AttributesMatch(e, s, i, j);
      }
    }
  }

  lemma AttributesOpen(e: Element, s: string, i: nat, j: nat)
    requires Proper(e) && e.attributes && i <= j <= |s| && Matches(PatternOf(e).before, s[i..j])
    ensures j == GroupOpens(e, s, i)
  {
    var w, n := s[i..j], |e.opening|;
    var k :| 0 <= k <= |w| && Matches(Literal(e.opening), w[..k]) && Matches(UpTo('>'), w[k..]);
    LiteralMatches(e.opening, w[..k]);
    SplitSlice(s, i, j, k);
    UpToIsFind(s, i + n, j);
  }

  lemma SplitSlice(s: string, i: nat, j: nat, k: nat)
    requires i <= j <= |s| && k <= j - i
    ensures s[i..j][..k] == s[i..i + k] && s[i..j][k..] == s[i + k..j]
  {}

  lemma AttributesMatch(e: Element, s: string, i: nat, j: nat)
    requires Proper(e) && e.attributes && i <= j <= |s| && j == GroupOpens(e, s, i)
    ensures Matches(PatternOf(e).before, s[i..j])
  {
    var w, n := s[i..j], |e.opening|;
    SplitSlice(s, i, j, n);
    LiteralMatches(e.opening, w[..n]);
    FindIsUpTo(s, i + n, j);
    CatMatches(Literal(e.opening), UpTo('>'), w, n);
  }

  lemma FindIsUpTo(s: string, from: nat, j: nat)
    requires from <= j <= |s| && j == Find(s, '>', from) + 1
    ensures Matches(UpTo('>'), s[from..j])
  {
    FindIsFirst(s, '>', from);
    UpToMatches('>', s[from..j]);
  }

  lemma UpToIsFind(s: string, from: nat, j: nat)
    requires from <= j <= |s| && Matches(UpTo('>'), s[from..j])
    ensures Find(s, '>', from) + 1 == j
  {
    var u := s[from..j];
    UpToMatches('>', u);
    assert forall x | from <= x < j :: s[x] == u[x - from];
    assert s[j - 1] == u[|u| - 1];
    FindIsFirst(s, '>', from);
  }

  lemma GroupMatches(s: string, j: nat, k: nat)
    requires j <= k <= |s|
    ensures Matches(Plus(NotChr('<')), s[j..k]) <==> j < k <= Find(s, '<', j)
  {
    PlusNotMatches('<', s[j..k]);
    FindIsFirst(s, '<', j);
    assert forall x | j <= x < k :: s[x] == s[j..k][x - j];
  }

  lemma ClosingMatches(e: Element, s: string, k: nat, l: nat)
    requires Proper(e) && k <= l <= |s|
    ensures Matches(PatternOf(e).after, s[k..l]) <==> LiteralAt(s, k, e.closing) && l == k + |e.closing|
  {
    LiteralMatches(e.closing, s[k..l]);
  }

  // The group is free of '<' and the closing tag begins with one, so the group ends at the first.
  lemma ElementMatches(e: Element, s: string, m: Cut)
    requires Proper(e)
    ensures MatchesAt(PatternOf(e), s, m) <==> ElementAt(e, s, m)
  {
    if m.start <= m.open <= m.close <= m.end <= |s| {
      OpeningMatches(e, s, m.start, m.open);
      GroupMatches(s, m.open, m.close);
      ClosingMatches(e, s, m.close, m.end);
      FindIsFirst(s, '<', m.open);
      if LiteralAt(s, m.close, e.closing) {
        assert s[m.close] == e.closing[0];
      }
    }
  }

  // At most one match starts at any position, its group is non-empty and free of '<'.
  lemma MatchIsUnique(e: Element, s: string, m: Cut, m': Cut)
    requires Proper(e) && MatchesAt(PatternOf(e), s, m) && MatchesAt(PatternOf(e), s, m') && m.start == m'.start
    ensures m == m'
    ensures s[m.open..m.close] != "" && '<' !in s[m.open..m.close]
  {
    ElementMatches(e, s, m);
    ElementMatches(e, s, m');
    FindIsFirst(s, '<', m.open);
  }

  predicate CutOf(s: string, m: Cut) { m.start <= m.open <= m.close <= m.end <= |s| }

  // The two expressions spelt out: <title>([^<]+)</title> and <h1[^>]*>([^<]+)</h1>.
  lemma TitleMatches(s: string, m: Cut)
    requires CutOf(s, m)
    ensures MatchesAt(PatternOf(TITLE), s, m) <==>
              && s[m.start..m.open] == "<title>"
              && m.open < m.close && '<' !in s[m.open..m.close]
              && s[m.close..m.end] == "</title>"
  {
    LiteralMatches("<title>", s[m.start..m.open]);
    PlusNotMatches('<', s[m.open..m.close]);
    LiteralMatches("</title>", s[m.close..m.end]);
  }

  lemma HeadingMatches(s: string, m: Cut)
    requires CutOf(s, m)
    ensures MatchesAt(PatternOf(H1), s, m) <==>
              && (exists attributes :: s[m.start..m.open] == "<h1" + attributes + ">" && '>' !in attributes)
              && m.open < m.close && '<' !in s[m.open..m.close]
              && s[m.close..m.end] == "</h1>"
  {
    HeadingOpens(s[m.start..m.open]);
    PlusNotMatches('<', s[m.open..m.close]);
    LiteralMatches("</h1>", s[m.close..m.end]);
  }

  lemma HeadingOpens(w: string)
    ensures Matches(PatternOf(H1).before, w) <==> exists attributes :: w == "<h1" + attributes + ">" && '>' !in attributes
  {
    if attributes :| w == "<h1" + attributes + ">" && '>' !in attributes {
      AttributesAreUpTo(attributes);
      LiteralMatches("<h1", "<h1");
      assert w[..3] == "<h1" && w[3..] == attributes + ">";
      CatMatches(Literal("<h1"), UpTo('>'), w, 3);
    }
    if k :| 0 <= k <= |w| && Matches(Literal("<h1"), w[..k]) && Matches(UpTo('>'), w[k..]) {
      LiteralMatches("<h1", w[..k]);
      var attributes := UpToIsAttributes(w[k..]);
      Rejoin(w, k, "<h1", attributes + ">");
      assert "<h1" + (attributes + ">") == "<h1" + attributes + ">";
    }
  }

  lemma Rejoin(w: string, k: nat, a: string, b: string)
    requires k <= |w| && w[..k] == a && w[k..] == b
    ensures w == a + b
  {}

  lemma AttributesAreUpTo(attributes: string)
    requires '>' !in attributes
    ensures Matches(UpTo('>'), attributes + ">")
  {
    UpToMatches('>', attributes + ">");
    assert forall j | 0 <= j < |attributes| :: (attributes + ">")[j] == attributes[j] && attributes[j] in attributes;
  }

  lemma UpToIsAttributes(u: string) returns (attributes: string)
    requires Matches(UpTo('>'), u)
    ensures u == attributes + ">" && '>' !in attributes
  {
    UpToMatches('>', u);
    attributes := u[..|u| - 1];
  }

  lemma ElementsAreUnambiguous(e: Element)
    requires Proper(e)
    ensures Unambiguous(PatternOf(e))
  {
    forall s, m, m' | MatchesAt(PatternOf(e), s, m) && MatchesAt(PatternOf(e), s, m') && m.start == m'.start ensures m == m' {
      MatchIsUnique(e, s, m, m');
    }
  }

  // What match(html).captured(1) is: the group of the leftmost match, or nothing.
  ghost predicate Captured(e: Element, s: string, r: Option<string>)
    requires Proper(e)
  {
    match r
    case Some(c) => exists m :: LeftmostCut(PatternOf(e), s, m) && c == s[m.open..m.close]
    case None => forall m :: !MatchesAt(PatternOf(e), s, m)
  }

  lemma CapturedIsUnique(e: Element, s: string, r: Option<string>, r': Option<string>)
    requires Proper(e) && Captured(e, s, r) && Captured(e, s, r')
    ensures r == r'
  {
    if r.Some? && r'.Some? {
      var m :| LeftmostCut(PatternOf(e), s, m) && r.value == s[m.open..m.close];
      var m' :| LeftmostCut(PatternOf(e), s, m') && r'.value == s[m'.open..m'.close];
      MatchIsUnique(e, s, m, m');
    }
  }

  lemma NothingToCapture(e: Element, s: string)
    requires Proper(e) && '<' !in s
    ensures Captured(e, s, None)
  {
    forall m ensures !MatchesAt(PatternOf(e), s, m) {
      ElementMatches(e, s, m);
      OpensWithBracket(e, s, m.start);
    }
  }

  lemma OpensWithBracket(e: Element, s: string, i: nat)
    requires Proper(e)
    ensures LiteralAt(s, i, e.opening) ==> '<' in s
  {
    if LiteralAt(s, i, e.opening) {
      assert s[i] == s[i..i + |e.opening|][0];
    }
  }

  // A page in which plain text stands in an element.
  function OpeningTag(e: Element, attributes: string): string {
    e.opening + if e.attributes then attributes + ">" else ""
  }

  function Page(e: Element, before: string, attributes: string, text: string, after: string): string {
    before + OpeningTag(e, attributes) + (text + e.closing + after)
  }

  // The text is captured back, whatever the attributes, if no tag comes before the element.
  lemma CaptureRoundTrip(e: Element, before: string, attributes: string, text: string, after: string)
    requires Proper(e) && '<' !in before && '>' !in attributes && text != "" && '<' !in text
    ensures Captured(e, Page(e, before, attributes, text, after), Some(text))
  {
    var s := Page(e, before, attributes, text, after);
    var j := MarkupOpens(e, s, before, attributes, text + e.closing + after);
    TextCloses(e, s, j, text, after);
    NothingBefore(before, OpeningTag(e, attributes), text + e.closing + after);
    FirstElementIsCaptured(e, s, Cut(|before|, j, j + |text|, j + |text| + |e.closing|));
  }

  lemma NothingBefore(before: string, tag: string, rest: string)
    requires '<' !in before
    ensures forall x | 0 <= x < |before| :: (before + tag + rest)[x] != '<'
  {
    assert forall x | 0 <= x < |before| :: (before + tag + rest)[x] == before[x];
  }

  lemma FirstElementIsCaptured(e: Element, s: string, m: Cut)
    requires Proper(e) && ElementAt(e, s, m)
    requires m.start <= |s| && forall x | 0 <= x < m.start :: s[x] != '<'
    ensures Captured(e, s, Some(s[m.open..m.close]))
  {
    ElementMatches(e, s, m);
    forall m' | MatchesAt(PatternOf(e), s, m') ensures m.start <= m'.start {
      ElementMatches(e, s, m');
      assert s[m'.start] == s[m'.start..m'.start + |e.opening|][0];
    }
  }

  lemma TextCloses(e: Element, s: string, j: nat, text: string, after: string)
    requires Proper(e) && text != "" && '<' !in text
    requires j <= |s| && s[j..] == text + e.closing + after
    ensures s[j..j + |text|] == text && Find(s, '<', j) == j + |text| && LiteralAt(s, j + |text|, e.closing)
  {
    var k := j + |text|;
    assert s[j..k] == s[j..][..|text|];
    assert s[k..k + |e.closing|] == s[j..][|text|..|text| + |e.closing|];
    assert s[k] == s[j..][|text|];
    FindFrom(s, '<', j, k);
  }

  lemma FindFrom(s: string, c: char, j: nat, k: nat)
    requires j <= k < |s| && s[k] == c && c !in s[j..k]
    ensures Find(s, c, j) == k
  {
    FindIsFirst(s, c, j);
    assert forall x | j <= x < k :: s[x] == s[j..k][x - j];
  }

  lemma MarkupOpens(e: Element, s: string, before: string, attributes: string, rest: string) returns (j: nat)
    requires Proper(e) && '>' !in attributes
    requires s == before + OpeningTag(e, attributes) + rest
    ensures j == GroupOpens(e, s, |before|) <= |s| && s[j..] == rest
  {
    var i := |before|;
    var n := i + |e.opening|;
    assert s[i..n] == e.opening;
    j := n;
    if e.attributes {
      var k := n + |attributes|;
      assert s[n..k] == attributes && s[k] == '>';
      FindFrom(s, '>', n, k);
      j := k + 1;
    }
  }

  // ---- The scan ------------------------------------------------------------------------------

  method MatchFrom(e: Element, s: string, i: nat) returns (m: Option<Cut>)
    requires Proper(e) && i <= |s|
    ensures m.Some? ==> MatchesAt(PatternOf(e), s, m.value) && m.value.start == i
    ensures m.None? ==> forall m' :: MatchesAt(PatternOf(e), s, m') ==> m'.start != i
  {
    m := None;
    if LiteralAt(s, i, e.opening) {
      var open := i + |e.opening|;
      if e.attributes {
        open := IndexOf(s, '>', open);
        open := open + 1;
      }
      if open <= |s| {
        var close := IndexOf(s, '<', open);
        if open < close && LiteralAt(s, close, e.closing) {
          m := Some(Cut(i, open, close, close + |e.closing|));
        }
      }
    }
    forall m' | (m.Some? && m' == m.value) || (MatchesAt(PatternOf(e), s, m') && m'.start == i)
      ensures MatchesAt(PatternOf(e), s, m') <==> ElementAt(e, s, m')
    {
      ElementMatches(e, s, m');
    }
  }

  method Capture(e: Element, s: string) returns (r: Option<string>)
    requires Proper(e)
    ensures Captured(e, s, r)
  {
    var i := 0;
    while i < |s|
      invariant i <= |s|
      invariant forall m :: MatchesAt(PatternOf(e), s, m) ==> m.start >= i
    {
      var m := MatchFrom(e, s, i);
      if m.Some? {
        assert LeftmostCut(PatternOf(e), s, m.value);
        return Some(s[m.value.open..m.value.close]);
      }
      i := i + 1;
    }
    forall m ensures !MatchesAt(PatternOf(e), s, m) {
      if MatchesAt(PatternOf(e), s, m) {
        ElementMatches(e, s, m);
      }
    }
    r := None;
  }
}
