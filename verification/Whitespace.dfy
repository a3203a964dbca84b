/** QString::simplified and the 500-character limit, as parseHtml applies them to stripped text.
    A char stands for one QChar.
 */
module Whitespace {
  import opened TagStripping

  // QChar::isSpace.
  predicate IsSpace(c: char) {
    || '\t' <= c <= '\r' || c == ' ' || c == '\U{85}' || c == '\U{A0}' || c == '\U{1680}'
    || '\U{2000}' <= c <= '\U{200A}' || c == '\U{2028}' || c == '\U{2029}' || c == '\U{202F}'
    || c == '\U{205F}' || c == '\U{3000}'
  }

  function WordEnd(s: string, from: nat): (k: nat)
    requires from <= |s|
    ensures from <= k <= |s|
    decreases |s| - from
  {
    if from == |s| || IsSpace(s[from]) then from else WordEnd(s, from + 1)
  }

  // The maximal runs of non-space characters, in order.
  function Words(s: string, from: nat): seq<string>
    requires from <= |s|
    decreases |s| - from
  {
    if from == |s| then []
    else if IsSpace(s[from]) then Words(s, from + 1)
    else [s[from..WordEnd(s, from + 1)]] + Words(s, WordEnd(s, from + 1))
  }

  function Joined(ws: seq<string>): string {
    if ws == [] then ""
    else if |ws| == 1 then ws[0]
    else Joined(ws[..|ws| - 1]) + " " + ws[|ws| - 1]
  }

  function Simplified(s: string): string { Joined(Words(s, 0)) }

  predicate IsWord(w: string) { w != "" && forall c | c in w :: !IsSpace(c) }

  // No space at either end, no two together, and only the ordinary one.
  predicate Normal(t: string) {
    && (t != "" ==> !IsSpace(t[0]) && !IsSpace(t[|t| - 1]))
    && (forall i | 0 <= i < |t| && IsSpace(t[i]) :: t[i] == ' ')
    && (forall i | 0 < i < |t| && IsSpace(t[i]) :: !IsSpace(t[i - 1]))
  }

  lemma {:induction false} WordEndIsEnd(s: string, from: nat)
    requires from <= |s|
    ensures forall i | from <= i < WordEnd(s, from) :: !IsSpace(s[i])
    ensures WordEnd(s, from) < |s| ==> IsSpace(s[WordEnd(s, from)])
    decreases |s| - from
  {
    if from < |s| && !IsSpace(s[from]) {
      WordEndIsEnd(s, from + 1);
    }
  }

  lemma {:induction false} WordsAreWords(s: string, from: nat)
    requires from <= |s|
    ensures forall w | w in Words(s, from) :: IsWord(w)
    decreases |s| - from
  {
    if from < |s| {
      if IsSpace(s[from]) {
        WordsAreWords(s, from + 1);
      } else {
        var k := WordEnd(s, from + 1);
        WordEndIsEnd(s, from + 1);
        WordsAreWords(s, k);
        assert forall c | c in s[from..k] :: !IsSpace(c);
      }
    }
  }

  lemma {:induction false} JoinedIsNormal(ws: seq<string>)
    requires forall w | w in ws :: IsWord(w)
    ensures Normal(Joined(ws)) && (Joined(ws) == "" <==> ws == [])
  {
    if ws != [] {
      var last := ws[|ws| - 1];
      assert IsWord(last);
      assert forall i | 0 <= i < |last| :: last[i] in last;
      if |ws| > 1 {
        JoinedIsNormal(ws[..|ws| - 1]);
      }
    }
  }

  // The words of x, a space and one more word.
  lemma {:induction false} WordsSnoc(x: string, w: string, s: string, from: nat)
    requires from <= |x| && IsWord(w) && s == x + " " + w
    ensures Words(s, from) == Words(x, from) + [w]
    decreases |x| - from
  {
    if from == |x| {
      LastWord(s, w, |x| + 1);
      assert Words(s, from) == Words(s, from + 1);
    } else if IsSpace(x[from]) {
      assert s[from] == x[from];
      WordsSnoc(x, w, s, from + 1);
    } else {
      assert s[from] == x[from];
      WordEndPrefix(x, s, from + 1);
      var k := WordEnd(x, from + 1);
      assert s[from..k] == x[from..k];
      WordsSnoc(x, w, s, k);
    }
  }

  lemma LastWord(s: string, w: string, from: nat)
    requires from <= |s| && s[from..] == w && IsWord(w)
    ensures Words(s, from) == [w]
  {
    forall i | from <= i < |s| ensures !IsSpace(s[i]) {
      assert s[i] == w[i - from];
    }
    WordEndIsEnd(s, from + 1);
    assert WordEnd(s, from + 1) == |s|;
    assert !IsSpace(s[from]) && s[from..|s|] == w;
    assert Words(s, |s|) == [];
  }

  lemma {:induction false} WordEndPrefix(x: string, s: string, from: nat)
    requires from <= |x| < |s| && s[..|x|] == x && IsSpace(s[|x|])
    ensures WordEnd(s, from) == WordEnd(x, from)
    decreases |x| - from
  {
    if from < |x| {
      assert s[from] == x[from];
      if !IsSpace(x[from]) {
        WordEndPrefix(x, s, from + 1);
      }
    }
  }

  lemma {:induction false} WordsOfJoined(ws: seq<string>)
    requires forall w | w in ws :: IsWord(w)
    ensures Words(Joined(ws), 0) == ws
  {
    if ws != [] {
      var init, last := ws[..|ws| - 1], ws[|ws| - 1];
      assert IsWord(last);
      if |ws| == 1 {
        LastWord(last, last, 0);
      } else {
        WordsOfJoined(init);
        WordsSnoc(Joined(init), last, Joined(ws), 0);
        assert ws == init + [last];
      }
    }
  }

  // Two normal strings with the same words are equal.
  lemma NormalIsJoined(t: string)
    requires Normal(t)
    ensures Joined(Words(t, 0)) == t
  {
    if t != "" {
      NormalSuffix(t, 0);
    }
  }

  // From the start of a word on, a normal string is its words joined.
  lemma {:induction false} NormalSuffix(t: string, from: nat)
    requires Normal(t) && from < |t| && !IsSpace(t[from])
    ensures Words(t, from) != [] && Joined(Words(t, from)) == t[from..]
    decreases |t| - from
  {
    var k := WordEnd(t, from + 1);
    WordEndIsEnd(t, from + 1);
    if k < |t| {
      assert k + 1 < |t|;
      assert !IsSpace(t[k + 1]);
      NormalSuffix(t, k + 1);
      JoinedCons(t[from..k], Words(t, k + 1));
      assert Words(t, k) == Words(t, k + 1);
      assert t[from..k] + " " + t[k + 1..] == t[from..];
    }
  }

  lemma {:induction false} JoinedCons(w: string, ws: seq<string>)
    requires ws != []
    ensures Joined([w] + ws) == w + " " + Joined(ws)
  {
    var all := [w] + ws;
    var init := ws[..|ws| - 1];
    assert all[..|all| - 1] == [w] + init;
    if |ws| > 1 {
      JoinedCons(w, init);
    }
  }

  // simplified() yields the one normal string with the words of its input; it changes a string
  // exactly if the string is not normal already, so it is idempotent.
  lemma SimplifiedIsNormal(s: string)
    ensures Normal(Simplified(s)) && Words(Simplified(s), 0) == Words(s, 0)
    ensures forall t | Normal(t) && Words(t, 0) == Words(s, 0) :: t == Simplified(s)
    ensures Simplified(s) == s <==> Normal(s)
  {
    WordsAreWords(s, 0);
    JoinedIsNormal(Words(s, 0));
    WordsOfJoined(Words(s, 0));
    forall t | Normal(t) && Words(t, 0) == Words(s, 0) ensures t == Simplified(s) {
      NormalIsJoined(t);
    }
  }

  // ---- What is collapsed ---------------------------------------------------------------------

  lemma {:induction false} WordEndShift(x: string, s: string, from: nat)
    requires from <= |s|
    ensures WordEnd(x + s, |x| + from) == |x| + WordEnd(s, from)
    decreases |s| - from
  {
    if from < |s| {
      assert (x + s)[|x| + from] == s[from];
      WordEndShift(x, s, from + 1);
    }
  }

  lemma {:induction false} WordsShift(x: string, s: string, from: nat)
    requires from <= |s|
    ensures Words(x + s, |x| + from) == Words(s, from)
    decreases |s| - from
  {
    if from < |s| {
      assert (x + s)[|x| + from] == s[from];
      if IsSpace(s[from]) {
        WordsShift(x, s, from + 1);
      } else {
        var k := WordEnd(s, from + 1);
        WordsShift(x, s, k);
        WordEndShift(x, s, from + 1);
        ShiftedWord(x + s, |x| + from, |x| + k, s, from, k);
        SliceShift(x, s, from, k);
      }
    }
  }

  lemma SliceShift(x: string, s: string, i: nat, j: nat)
    requires i <= j <= |s|
    ensures (x + s)[|x| + i..|x| + j] == s[i..j]
  {}

  lemma ShiftedWord(t: string, i: nat, j: nat, s: string, from: nat, k: nat)
    requires i < |t| && !IsSpace(t[i]) && j == WordEnd(t, i + 1)
    requires from < |s| && !IsSpace(s[from]) && k == WordEnd(s, from + 1)
    ensures Words(t, j) == Words(s, k) && t[i..j] == s[from..k] ==> Words(t, i) == Words(s, from)
  {
    FirstWord(t, i, j);
    FirstWord(s, from, k);
  }

  lemma FirstWord(s: string, from: nat, k: nat)
    requires from < |s| && !IsSpace(s[from]) && k == WordEnd(s, from + 1)
    ensures Words(s, from) == [s[from..k]] + Words(s, k)
  {}

  predicate Visible(s: string) { s != "" && forall c | c in s :: '!' <= c <= '~' }

  predicate Blank(s: string) { forall c | c in s :: c in {' ', '\t', '\n', '\U{0B}', '\U{0C}', '\r'} }

  lemma {:induction false} BlanksAreSkipped(b: string, s: string)
    requires Blank(b)
    ensures Words(b + s, 0) == Words(s, 0)
  {
    if b == "" {
      assert b + s == s;
    } else {
      var t := b[1..] + s;
      assert forall c | c in b[1..] :: c in b;
      BlanksAreSkipped(b[1..], s);
      assert b[0] in b && b + s == [b[0]] + t;
      WordsShift([b[0]], t, 0);
      assert IsSpace((b + s)[0]);
    }
  }

  lemma WordIsTaken(u: string, s: string)
    requires Visible(u) && (s == "" || IsSpace(s[0]))
    ensures Words(u + s, 0) == [u] + Words(s, 0)
  {
    var t := u + s;
    assert |u| > 0;
    forall i | 0 <= i < |u| ensures !IsSpace(t[i]) {
      assert t[i] == u[i] && u[i] in u;
    }
    WordEndIsEnd(t, 1);
    assert s != "" ==> t[|u|] == s[0];
    assert WordEnd(t, 1) == |u| && t[0..|u|] == u;
    WordsShift(u, s, 0);
  }

  lemma JoinedTwo(u: string, v: string)
    ensures Joined([u, v]) == u + " " + v && Joined([u]) == u && Joined([]) == ""
  {
    assert [u, v][..1] == [u];
  }

  // Two words, whatever blanks stand between and around them.
  lemma GapsCollapse(lead: string, u: string, gap: string, v: string, trail: string)
    requires Visible(u) && Visible(v) && Blank(lead) && Blank(gap) && Blank(trail) && gap != ""
    ensures Simplified(lead + u + gap + v + trail) == u + " " + v
  {
    assert lead + u + gap + v + trail == lead + (u + (gap + (v + trail)));
    BlanksAreSkipped(trail, "");
    assert trail + "" == trail && Words("", 0) == [];
    assert trail != "" ==> trail[0] in trail;
    WordIsTaken(v, trail);
    BlanksAreSkipped(gap, v + trail);
    assert gap[0] in gap && (gap + (v + trail))[0] == gap[0];
    WordIsTaken(u, gap + (v + trail));
    BlanksAreSkipped(lead, u + (gap + (v + trail)));
    assert [u] + ([v] + []) == [u, v];
    JoinedTwo(u, v);
  }

  // The characters that separate words, one by one.
  lemma SpacesAre(c: char)
    ensures Simplified(['a', c, 'b']) == "a b" <==>
              c in {' ', '\t', '\n', '\U{0B}', '\U{0C}', '\r', '\U{85}', '\U{A0}', '\U{1680}',
                    '\U{2000}', '\U{2001}', '\U{2002}', '\U{2003}', '\U{2004}', '\U{2005}', '\U{2006}',
                    '\U{2007}', '\U{2008}', '\U{2009}', '\U{200A}', '\U{2028}', '\U{2029}', '\U{202F}',
                    '\U{205F}', '\U{3000}'}
  {
    var s, t := ['a', c, 'b'], [c, 'b'];
    if IsSpace(c) {
      WordIsTaken("b", "");
      assert "b" + "" == "b" && [c] + "b" == t && Words("", 0) == [];
      WordsShift([c], "b", 0);
      WordIsTaken("a", t);
      assert "a" + t == s;
      assert ["a"] + (["b"] + []) == ["a", "b"];
      JoinedTwo("a", "b");
    } else {
      WordEndIsEnd(s, 1);
      assert WordEnd(s, 1) == 3 && s[0..3] == s && Words(s, 3) == [];
      JoinedTwo(s, s);
      assert s[1] == c && "a b"[1] == ' ';
    }
  }

  // ---- Brackets survive ----------------------------------------------------------------------

  lemma TagFreeConcat(a: string, b: string)
    ensures TagFree(a + b) <==> TagFree(a) && TagFree(b) && !('<' in a && '>' in b)
  {
    var s := a + b;
    assert forall i | 0 <= i < |a| :: s[i] == a[i];
    assert forall i | 0 <= i < |b| :: s[|a| + i] == b[i];
  }

  lemma {:induction false} JoinedKeepsBrackets(s: string, from: nat)
    requires from <= |s|
    ensures var t := Joined(Words(s, from));
            (TagFree(t) <==> TagFree(s[from..])) && ('<' in t <==> '<' in s[from..]) && ('>' in t <==> '>' in s[from..])
    decreases |s| - from
  {
    if from < |s| {
      if IsSpace(s[from]) {
        JoinedKeepsBrackets(s, from + 1);
        assert s[from..] == [s[from]] + s[from + 1..];
        TagFreeConcat([s[from]], s[from + 1..]);
      } else {
        var k := WordEnd(s, from + 1);
        JoinedKeepsBrackets(s, k);
        assert s[from..] == s[from..k] + s[k..];
        TagFreeConcat(s[from..k], s[k..]);
        var rest := Words(s, k);
        if rest == [] {
          assert Joined(Words(s, from)) == s[from..k];
        } else {
          JoinedCons(s[from..k], rest);
          TagFreeConcat(s[from..k] + " ", Joined(rest));
          TagFreeConcat(s[from..k], " ");
        }
      }
    }
  }

  function Left(s: string, n: nat): string { if n <= |s| then s[..n] else s }

  const TEXT_LIMIT := 500 // QString::left(500)

  // The content extracted when no selector is given: stripped, simplified and cut, it still has
  // no complete tag.
  ghost function TextContent(html: string): string
  {
    Left(Simplified(Stripped(html)), TEXT_LIMIT)
  }

  lemma TextContentIsClean(html: string)
    ensures TagFree(TextContent(html)) && |TextContent(html)| <= 500
    ensures TextContent(html) <= Simplified(Stripped(html)) && Normal(Simplified(Stripped(html)))
    ensures |TextContent(html)| < 500 ==> TextContent(html) == Simplified(Stripped(html))
  {
    var t := Stripped(html);
    StrippedIsTagFree(html);
    assert t[0..] == t;
    JoinedKeepsBrackets(t, 0);
    SimplifiedIsNormal(t);
  }

  // ---- The scan ------------------------------------------------------------------------------

  ghost predicate Pending(s: string, out: string, from: nat, done: seq<string>) {
    && from <= |s| && out == Joined(done) && done + Words(s, from) == Words(s, 0)
    && (out == "" <==> done == [])
  }

  lemma JoinedSnoc(done: seq<string>, w: string)
    ensures Joined(done + [w]) == if done == [] then w else Joined(done) + " " + w
  {
    assert (done + [w])[..|done|] == done;
  }

  lemma MoveFirst(done: seq<string>, w: string, rest: seq<string>)
    ensures done + ([w] + rest) == (done + [w]) + rest
  {}

  lemma PassWord(s: string, out: string, from: nat, k: nat, done: seq<string>)
    requires Pending(s, out, from, done) && from < |s| && !IsSpace(s[from]) && k == WordEnd(s, from + 1)
    ensures Pending(s, if out == "" then s[from..k] else out + " " + s[from..k], k, done + [s[from..k]])
  {
    var w, rest := s[from..k], Words(s, k);
    assert Words(s, from) == [w] + rest;
    JoinedSnoc(done, w);
    MoveFirst(done, w, rest);
    assert w != "";
  }

  method Simplify(s: string) returns (out: string)
    ensures out == Simplified(s)
  {
    out := "";
    var i := 0;
    ghost var done: seq<string> := [];
    while i < |s|
      invariant Pending(s, out, i, done)
      decreases |s| - i
    {
      if IsSpace(s[i]) {
        i := i + 1;
      } else {
        var k := i + 1;
        while k < |s| && !IsSpace(s[k])
          invariant i < k <= |s| && WordEnd(s, i + 1) == WordEnd(s, k)
        {
          k := k + 1;
        }
        PassWord(s, out, i, k, done);
        done := done + [s[i..k]];
        out := if out == "" then s[i..k] else out + " " + s[i..k];
        i := k;
      }
    }
    assert done + [] == done;
  }
}
