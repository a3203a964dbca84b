/** Removing tags: cleanText.remove(m_htmlTagRegex), with the expression <[^>]*>. */
module TagStripping {
  import opened Regex

  const TAG: Regex := Cat(Chr('<'), UpTo('>'))

  // A tag is an opening bracket, anything but closing brackets, and a closing bracket.
  predicate TagAt(s: string, i: nat, l: nat) {
    i + 2 <= l <= |s| && s[i] == '<' && s[l - 1] == '>' && forall k | i < k < l - 1 :: s[k] != '>'
  }

  lemma TagMatches(s: string, i: nat, l: nat)
    requires i <= l <= |s|
    ensures Matches(TAG, s[i..l]) <==> TagAt(s, i, l)
  {
    if TagAt(s, i, l) {
      TagAtMatches(s, i, l);
    }
    if Matches(TAG, s[i..l]) {
      MatchIsTagAt(s, i, l);
    }
  }

  lemma TagAtMatches(s: string, i: nat, l: nat)
    requires TagAt(s, i, l)
    ensures Matches(TAG, s[i..l])
  {
    var w := s[i..l];
    assert w[1..] == s[i + 1..l];
    UpToMatches('>', w[1..]);
    assert w[..1] == ['<'];
    CatMatches(Chr('<'), UpTo('>'), w, 1);
  }

  lemma MatchIsTagAt(s: string, i: nat, l: nat)
    requires i <= l <= |s| && Matches(TAG, s[i..l])
    ensures TagAt(s, i, l)
  {
    var w := s[i..l];
    OpenThenUpTo(w);
    forall k | i < k < l - 1 ensures s[k] != '>' {
      assert s[k] == w[k - i];
    }
  }

  lemma OpenThenUpTo(w: string)
    requires Matches(TAG, w)
    ensures |w| >= 2 && w[0] == '<' && w[|w| - 1] == '>' && forall j | 1 <= j < |w| - 1 :: w[j] != '>'
  {
    var k :| 0 <= k <= |w| && Matches(Chr('<'), w[..k]) && Matches(UpTo('>'), w[k..]);
    UpToMatches('>', w[k..]);
    assert k == |w[..k]| == 1 && w[0] == w[..k][0];
    assert forall j | 1 <= j < |w| :: w[j] == w[k..][j - 1];
  }

  // Every '>' precedes every '<'.
  ghost predicate TagFree(s: string) {
    forall i, j | 0 <= i < j < |s| :: !(s[i] == '<' && s[j] == '>')
  }

  lemma TagFreeIffAbsent(s: string)
    ensures TagFree(s) <==> Absent(TAG, s)
  {
    if i, l :| 0 <= i <= l <= |s| && Matches(TAG, s[i..l]) {
      TagMatches(s, i, l);
      assert s[i] == '<' && s[l - 1] == '>';
    }
    if i, j :| 0 <= i < j < |s| && s[i] == '<' && s[j] == '>' {
      var l := FirstClose(s, i + 1, j);
      TagMatches(s, i, l);
    }
  }

  // The end of the first '>' of s[from..j + 1].
  lemma {:induction false} FirstClose(s: string, from: nat, j: nat) returns (l: nat)
    requires from <= j < |s| && s[j] == '>'
    ensures from < l <= j + 1 && s[l - 1] == '>' && forall k | from <= k < l - 1 :: s[k] != '>'
    decreases j - from
  {
    if s[from] == '>' {
      l := from + 1;
    } else {
      l := FirstClose(s, from + 1, j);
    }
  }

  // The first tag of s: it starts at the first '<' that any '>' follows.
  ghost predicate FirstTag(s: string, i: nat, l: nat) {
    TagAt(s, i, l) && forall k | 0 <= k < i :: s[k] != '<'
  }

  lemma LeftmostIff(s: string, i: nat, l: nat)
    ensures Leftmost(TAG, s, i, l) <==> FirstTag(s, i, l)
  {
    if i <= l <= |s| {
      TagMatches(s, i, l);
      if TagAt(s, i, l) {
        if k :| 0 <= k < i && s[k] == '<' {
          var end := FirstClose(s, k + 1, l - 1);
          TagMatches(s, k, end);
        } else {
          forall i', l' | 0 <= i' < i && i' <= l' <= |s| ensures !Matches(TAG, s[i'..l']) {
            TagMatches(s, i', l');
          }
        }
      }
    }
  }

  // The subject without its matches, each looked for from the end of the one before.
  ghost function Stripped(s: string): string
    decreases |s|
  {
    if exists i: nat, l: nat :: Leftmost(TAG, s, i, l) then
      var i: nat, l: nat :| Leftmost(TAG, s, i, l);
      LeftmostIff(s, i, l);
      s[..i] + Stripped(s[l..])
    else s
  }

  lemma StrippedAt(s: string, i: nat, l: nat)
    requires FirstTag(s, i, l)
    ensures Stripped(s) == s[..i] + Stripped(s[l..])
  {
    LeftmostIff(s, i, l);
    var i': nat, l': nat :| Leftmost(TAG, s, i', l') && Stripped(s) == s[..i'] + Stripped(s[l'..]);
    LeftmostIff(s, i', l');
    assert i == i' && l == l';
  }

  lemma StrippedTagFree(s: string)
    requires TagFree(s)
    ensures Stripped(s) == s
  {
    TagFreeIffAbsent(s);
  }

  // A string with a tag has a first one.
  lemma FirstTagExists(s: string) returns (i: nat, l: nat)
    requires !TagFree(s)
    ensures FirstTag(s, i, l)
  {
    var a, b :| 0 <= a < b < |s| && s[a] == '<' && s[b] == '>';
    i := 0;
    while s[i] != '<'
      invariant i <= a && forall k | 0 <= k < i :: s[k] != '<'
      decreases a - i
    {
      i := i + 1;
    }
    l := FirstClose(s, i + 1, b);
  }

  // ---- What stripping achieves ---------------------------------------------------------------

  // No complete tag is left, not even one formed by what surrounded the removed ones.
  lemma {:induction false} StrippedIsTagFree(s: string)
    ensures TagFree(Stripped(s))
    ensures '>' in Stripped(s) ==> '>' in s
    decreases |s|
  {
    if TagFree(s) {
      StrippedTagFree(s);
    } else {
      var i, l := FirstTagExists(s);
      StrippedAt(s, i, l);
      StrippedIsTagFree(s[l..]);
      var t := Stripped(s);
      forall a, b | 0 <= a < b < |t| ensures !(t[a] == '<' && t[b] == '>') {
        if a < i {
          assert t[a] == s[a];
        } else {
          assert t[a] == Stripped(s[l..])[a - i] && t[b] == Stripped(s[l..])[b - i];
        }
      }
    }
  }

  lemma StrippingIsIdempotent(s: string)
    ensures Stripped(Stripped(s)) == Stripped(s)
  {
    StrippedIsTagFree(s);
    StrippedTagFree(Stripped(s));
  }

  // A document as its author sees it: text, in which no '<' occurs, and tags.
  datatype Token = Text(text: string) | Tag(inside: string)

  predicate WellFormed(t: Token) {
    match t
    case Text(x) => '<' !in x
    case Tag(x) => '>' !in x
  }

  function Rendered(doc: seq<Token>): string {
    if doc == [] then "" else
      (match doc[0] case Text(x) => x case Tag(x) => "<" + x + ">") + Rendered(doc[1..])
  }

  function TextOf(doc: seq<Token>): string {
    if doc == [] then "" else
      (match doc[0] case Text(x) => x case Tag(_) => "") + TextOf(doc[1..])
  }

  lemma StripAfterText(x: string, s: string)
    requires '<' !in x
    ensures Stripped(x + s) == x + Stripped(s)
  {
    if TagFree(s) {
      TextKeepsTagFree(x, s);
      StrippedTagFree(s);
      StrippedTagFree(x + s);
    } else {
      var i, l := FirstTagExists(s);
      TextKeepsFirstTag(x, s, i, l);
      CutAfter(x, s, i, l);
      StripBoth(x, s, x + s, i, l);
    }
  }

  lemma StripBoth(x: string, s: string, t: string, i: nat, l: nat)
    requires FirstTag(s, i, l) && FirstTag(t, |x| + i, |x| + l)
    requires t[..|x| + i] == x + s[..i] && t[|x| + l..] == s[l..]
    ensures Stripped(t) == x + Stripped(s)
  {
    calc {
      Stripped(t);
    == { StrippedAt(t, |x| + i, |x| + l); }
      (x + s[..i]) + Stripped(s[l..]);
    == { Regroup(x, s[..i], Stripped(s[l..])); }
      x + (s[..i] + Stripped(s[l..]));
    == { StrippedAt(s, i, l); }
      x + Stripped(s);
    }
  }

  lemma Regroup(x: string, y: string, z: string)
    ensures x + (y + z) == (x + y) + z
  {}

  lemma CutAfter(x: string, s: string, i: nat, l: nat)
    requires i <= l <= |s|
    ensures (x + s)[|x| + l..] == s[l..] && (x + s)[..|x| + i] == x + s[..i]
  {}

  lemma TextKeepsTagFree(x: string, s: string)
    requires '<' !in x && TagFree(s)
    ensures TagFree(x + s)
  {
    var t := x + s;
    assert forall k | 0 <= k < |x| :: t[k] == x[k];
    assert forall k | |x| <= k < |t| :: t[k] == s[k - |x|];
  }

  lemma TextKeepsFirstTag(x: string, s: string, i: nat, l: nat)
    requires '<' !in x && FirstTag(s, i, l)
    ensures FirstTag(x + s, |x| + i, |x| + l)
  {
    var t := x + s;
    assert forall k | 0 <= k < |x| :: t[k] == x[k];
    assert forall k | |x| <= k < |t| :: t[k] == s[k - |x|];
  }

  // Stripping a rendered document gives back exactly its text.
  lemma {:induction false} StripRendered(doc: seq<Token>)
    requires forall t | t in doc :: WellFormed(t)
    ensures Stripped(Rendered(doc)) == TextOf(doc)
  {
    if doc == [] {
      StrippedTagFree("");
    } else {
      var rest := Rendered(doc[1..]);
      StripRendered(doc[1..]);
      assert WellFormed(doc[0]);
      match doc[0]
      case Text(x) =>
        StripAfterText(x, rest);
      case Tag(x) =>
        var s := "<" + x + ">" + rest;
        var l := |x| + 2;
        forall k | 0 < k < l - 1 ensures s[k] != '>' {
          assert s[k] == x[k - 1];
        }
        StrippedAt(s, 0, l);
        assert s[l..] == rest;
    }
  }

  predicate Subsequence(t: string, s: string) {
    t == "" || (s != "" && ((t[0] == s[0] && Subsequence(t[1..], s[1..])) || Subsequence(t, s[1..])))
  }

  lemma {:induction false} SubsequenceAppend(x: string, t: string, s: string)
    requires Subsequence(t, s)
    ensures Subsequence(x + t, x + s)
  {
    if x == "" {
      assert x + t == t && x + s == s;
    } else {
      SubsequenceAppend(x[1..], t, s);
      assert (x + t)[1..] == x[1..] + t && (x + s)[1..] == x[1..] + s;
    }
  }

  lemma {:induction false} SubsequenceSkips(t: string, x: string, s: string)
    requires Subsequence(t, s)
    ensures Subsequence(t, x + s)
  {
    if x == "" {
      assert x + s == s;
    } else {
      SubsequenceSkips(t, x[1..], s);
      assert (x + s)[1..] == x[1..] + s;
    }
  }

  lemma CutTwice(s: string, i: nat, l: nat)
    requires i <= l <= |s|
    ensures s == s[..i] + (s[i..l] + s[l..])
  {}

  // Nothing is added and the order is kept.
  lemma {:induction false} StrippedIsSubsequence(s: string)
    ensures Subsequence(Stripped(s), s)
    decreases |s|
  {
    if TagFree(s) {
      StrippedTagFree(s);
      SubsequenceAppend(s, "", "");
      assert s + "" == s;
    } else {
      var i, l := FirstTagExists(s);
      StrippedAt(s, i, l);
      StrippedIsSubsequence(s[l..]);
      SubsequenceSkips(Stripped(s[l..]), s[i..l], s[l..]);
      SubsequenceAppend(s[..i], Stripped(s[l..]), s[i..l] + s[l..]);
      CutTwice(s, i, l);
    }
  }

  // ---- The scan ------------------------------------------------------------------------------

  // What one pass ends with that has produced `text` up to position i.
  function Passed(text: string, s: string, i: nat): string
    requires i <= |s|
    decreases |s| - i
  {
    var open := Find(s, '<', i);
    if open == |s| then text + s[i..] else
    var close := Find(s, '>', open + 1);
    if close == |s| then text + s[i..] else Passed(text + s[i..open], s, close + 1)
  }

  lemma FirstTagShift(s: string, i: nat, open: nat, close: nat)
    requires i <= open < close < |s| && s[open] == '<' && s[close] == '>'
    requires forall k | i <= k < open :: s[k] != '<'
    requires forall k | open < k < close :: s[k] != '>'
    ensures FirstTag(s[i..], open - i, close + 1 - i)
  {}

  lemma TagFreeShift(s: string, i: nat, open: nat)
    requires i <= open <= |s|
    requires forall k | i <= k < open :: s[k] != '<'
    requires forall k | open < k < |s| :: s[k] != '>'
    ensures TagFree(s[i..])
  {}

  lemma RestIsStripped(s: string, i: nat)
    requires i <= |s| && (Find(s, '<', i) == |s| || Find(s, '>', Find(s, '<', i) + 1) == |s|)
    ensures Stripped(s[i..]) == s[i..]
  {
    var open := Find(s, '<', i);
    FindIsFirst(s, '<', i);
    if open < |s| {
      FindIsFirst(s, '>', open + 1);
    }
    TagFreeShift(s, i, open);
    StrippedTagFree(s[i..]);
  }

  lemma NextTagIsStripped(s: string, i: nat, open: nat, close: nat)
    requires i <= |s| && open == Find(s, '<', i) && open < |s| && close == Find(s, '>', open + 1) && close < |s|
    ensures Stripped(s[i..]) == s[i..open] + Stripped(s[close + 1..])
  {
    FindIsFirst(s, '<', i);
    FindIsFirst(s, '>', open + 1);
    FirstTagShift(s, i, open, close);
    StrippedShift(s, i, open, close);
  }

  // The pass is the removal of all leftmost matches.
  lemma {:induction false} PassedIsStripped(text: string, s: string, i: nat)
    requires i <= |s|
    ensures Passed(text, s, i) == text + Stripped(s[i..])
    decreases |s| - i
  {
    var open := Find(s, '<', i);
    if open == |s| || Find(s, '>', open + 1) == |s| {
      RestIsStripped(s, i);
    } else {
      var close := Find(s, '>', open + 1);
      calc {
        Passed(text, s, i);
      == { PassedTag(text, s, i, open, close); }
        Passed(text + s[i..open], s, close + 1);
      == { PassedIsStripped(text + s[i..open], s, close + 1); }
        (text + s[i..open]) + Stripped(s[close + 1..]);
      == { Regroup(text, s[i..open], Stripped(s[close + 1..])); }
        text + (s[i..open] + Stripped(s[close + 1..]));
      == { NextTagIsStripped(s, i, open, close); }
        text + Stripped(s[i..]);
      }
    }
  }

  lemma PassedTag(text: string, s: string, i: nat, open: nat, close: nat)
    requires i <= |s| && open == Find(s, '<', i) && open < |s| && close == Find(s, '>', open + 1) && close < |s|
    ensures Passed(text, s, i) == Passed(text + s[i..open], s, close + 1)
  {}

  lemma StrippedShift(s: string, i: nat, open: nat, close: nat)
    requires i <= open < close < |s| && FirstTag(s[i..], open - i, close + 1 - i)
    ensures Stripped(s[i..]) == s[i..open] + Stripped(s[close + 1..])
  {
    var t := s[i..];
    StrippedAt(t, open - i, close + 1 - i);
    assert t[..open - i] == s[i..open];
    assert t[close + 1 - i..] == s[close + 1..];
  }

  // The brackets of the next tag; |html| for one that is not there.
  method NextTag(html: string, from: nat) returns (open: nat, close: nat)
    requires from <= |html|
    ensures open == Find(html, '<', from)
    ensures close == if open == |html| then |html| else Find(html, '>', open + 1)
  {
    open := IndexOf(html, '<', from);
    close := |html|;
    if open < |html| {
      close := IndexOf(html, '>', open + 1);
    }
  }

  // One pass over the text.
  method Scan(html: string) returns (text: string)
    ensures text == Passed("", html, 0)
  {
    text := "";
    var i := 0;
    var open, close := NextTag(html, 0);
    while close < |html|
      invariant i <= |html| && Passed(text, html, i) == Passed("", html, 0)
      invariant open == Find(html, '<', i) && close == if open == |html| then |html| else Find(html, '>', open + 1)
      decreases |html| - i
    {
      text := text + html[i..open];
      i := close + 1;
      open, close := NextTag(html, i);
    }
    text := text + html[i..];
  }

  method StripTags(html: string) returns (text: string)
    ensures text == Stripped(html)
  {
    text := Scan(html);
    PassedIsStripped("", html, 0);
    assert html[0..] == html && "" + Stripped(html) == Stripped(html);
  }
}
