/** The fragment of regular expressions that the scraper uses, with the meaning of a match given
    declaratively: a match exists where the subject can be cut into pieces the parts accept.
 */
module Regex {

  datatype Regex = Chr(c: char) | NotChr(c: char) | Cat(first: Regex, second: Regex) | Star(body: Regex)

  ghost predicate Matches(r: Regex, w: string)
    decreases r, |w|
  {
    match r
    case Chr(c) => w == [c]
    case NotChr(c) => |w| == 1 && w[0] != c
    case Cat(a, b) => exists k | 0 <= k <= |w| :: Matches(a, w[..k]) && Matches(b, w[k..])
    case Star(a) => w == "" || exists k | 0 < k <= |w| :: Matches(a, w[..k]) && Matches(r, w[k..])
  }

  function Literal(s: string): Regex
    requires s != ""
  {
    if |s| == 1 then Chr(s[0]) else Cat(Chr(s[0]), Literal(s[1..]))
  }

  function Plus(r: Regex): Regex { Cat(r, Star(r)) }

  lemma {:induction false} LiteralMatches(s: string, w: string)
    requires s != ""
    ensures Matches(Literal(s), w) <==> w == s
  {
    if |s| > 1 {
      if w == s {
        LiteralMatches(s[1..], w[1..]);
        assert Matches(Chr(s[0]), w[..1]);
      }
      if k :| 0 <= k <= |w| && Matches(Chr(s[0]), w[..k]) && Matches(Literal(s[1..]), w[k..]) {
        LiteralMatches(s[1..], w[k..]);
        assert w == w[..k] + w[k..];
      }
    }
  }

  lemma {:induction false} StarNotMatches(c: char, w: string)
    ensures Matches(Star(NotChr(c)), w) <==> c !in w
    decreases |w|
  {
    if w != "" {
      if c !in w {
        StarNotMatches(c, w[1..]);
        assert Matches(NotChr(c), w[..1]);
      }
      if k :| 0 < k <= |w| && Matches(NotChr(c), w[..k]) && Matches(Star(NotChr(c)), w[k..]) {
        StarNotMatches(c, w[k..]);
        assert w == w[..k] + w[k..];
      }
    }
  }

  lemma PlusNotMatches(c: char, w: string)
    ensures Matches(Plus(NotChr(c)), w) <==> w != "" && c !in w
  {
    if w != "" && c !in w {
      StarNotMatches(c, w[1..]);
      assert Matches(NotChr(c), w[..1]);
    }
    if k :| 0 <= k <= |w| && Matches(NotChr(c), w[..k]) && Matches(Star(NotChr(c)), w[k..]) {
      StarNotMatches(c, w[k..]);
      assert w == w[..k] + w[k..];
    }
  }

  // [^c]*c : the only match from a position ends after the first c.
  function UpTo(c: char): Regex { Cat(Star(NotChr(c)), Chr(c)) }

  lemma UpToMatches(c: char, w: string)
    ensures Matches(UpTo(c), w) <==> w != "" && w[|w| - 1] == c && forall j | 0 <= j < |w| - 1 :: w[j] != c
  {
    if w != "" && w[|w| - 1] == c && forall j | 0 <= j < |w| - 1 :: w[j] != c {
      var n := |w| - 1;
      StarNotMatches(c, w[..n]);
      assert Matches(Chr(c), w[n..]);
    }
    if k :| 0 <= k <= |w| && Matches(Star(NotChr(c)), w[..k]) && Matches(Chr(c), w[k..]) {
      StarNotMatches(c, w[..k]);
      assert w[k..] == [c] && k == |w| - 1 && w[k] == w[k..][0];
      assert forall j | 0 <= j < k :: w[j] in w[..k];
    }
  }

  lemma CatMatches(a: Regex, b: Regex, w: string, k: nat)
    requires k <= |w| && Matches(a, w[..k]) && Matches(b, w[k..])
    ensures Matches(Cat(a, b), w)
  {}

  // ---- Searching -----------------------------------------------------------------------------

  // The cut i..l of s is the first match of r: none starts further left.
  ghost predicate Leftmost(r: Regex, s: string, i: nat, l: nat) {
    && i <= l <= |s| && Matches(r, s[i..l])
    && forall i', l' | 0 <= i' < i && i' <= l' <= |s| :: !Matches(r, s[i'..l'])
  }

  ghost predicate Absent(r: Regex, s: string) {
    forall i, l | 0 <= i <= l <= |s| :: !Matches(r, s[i..l])
  }

  // A pattern with one capture group.
  datatype Pattern = Pattern(before: Regex, group: Regex, after: Regex)

  datatype Cut = Cut(start: nat, open: nat, close: nat, end: nat)

  ghost predicate MatchesAt(p: Pattern, s: string, m: Cut) {
    && m.start <= m.open <= m.close <= m.end <= |s|
    && Matches(p.before, s[m.start..m.open])
    && Matches(p.group, s[m.open..m.close])
    && Matches(p.after, s[m.close..m.end])
  }

  ghost predicate LeftmostCut(p: Pattern, s: string, m: Cut) {
    MatchesAt(p, s, m) && forall m' | MatchesAt(p, s, m') :: m.start <= m'.start
  }

  // At most one match starts at any position, so greediness and backtracking order play no part.
  ghost predicate Unambiguous(p: Pattern) {
    forall s, m, m' | MatchesAt(p, s, m) && MatchesAt(p, s, m') && m.start == m'.start :: m == m'
  }

  // The first position of c from `from` on, |s| if there is none.
  function Find(s: string, c: char, from: nat): (k: nat)
    requires from <= |s|
    ensures from <= k <= |s|
    decreases |s| - from
  {
    if from == |s| || s[from] == c then from else Find(s, c, from + 1)
  }

  lemma {:induction false} FindIsFirst(s: string, c: char, from: nat)
    requires from <= |s|
    ensures Find(s, c, from) < |s| ==> s[Find(s, c, from)] == c
    ensures forall j | from <= j < Find(s, c, from) :: s[j] != c
    decreases |s| - from
  {
    if from < |s| && s[from] != c {
      FindIsFirst(s, c, from + 1);
    }
  }

  method IndexOf(s: string, c: char, from: nat) returns (k: nat)
    requires from <= |s|
    ensures k == Find(s, c, from)
  {
    k := from;
    while k < |s| && s[k] != c
      invariant from <= k <= |s| && Find(s, c, from) == Find(s, c, k)
    {
      k := k + 1;
    }
  }
}
