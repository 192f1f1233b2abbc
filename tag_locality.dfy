/** Lemmas that locate the matches of `<tag>(.*)</tag>` in documents built line
    by line: a search started inside a text sees only what follows, a line
    without the opening tag is skipped, and a line holding one element yields
    exactly that element's content. */
module TagLocality {
  import opened Wrappers
  import opened Text
  import opened TagPattern

  /** Two first matches from the same point coincide. */
  lemma FirstMatchUnique(s: string, tag: string, from: nat, p1: nat, q1: nat, p2: nat, q2: nat)
    requires IsFirstMatch(s, tag, from, p1, q1) && IsFirstMatch(s, tag, from, p2, q2)
    ensures p1 == p2 && q1 == q2
  {
  }

  /** Whatever satisfies the meaning of the first match is what the search returns. */
  lemma FindFromIsFirstMatch(s: string, tag: string, from: nat, p: nat, q: nat)
    requires from <= |s| && IsFirstMatch(s, tag, from, p, q)
    ensures FindFrom(s, tag, from) == Some(Span(p, p + |Open(tag)|, q, q + |Close(tag)|))
  {
    var r := FindFrom(s, tag, from);
    assert r.Some?;
    FirstMatchUnique(s, tag, from, p, q, r.value.start, r.value.capEnd);
  }

  /** Positions where the opening tag does not occur are skipped by the search. */
  lemma {:induction false} SkipWithoutOpen(s: string, tag: string, i: nat, j: nat)
    requires i <= j <= |s|
    requires forall p :: i <= p < j ==> !IsAt(s, Open(tag), p)
    ensures FindFrom(s, tag, i) == FindFrom(s, tag, j)
    decreases j - i
  {
    if i < j {
      SkipWithoutOpen(s, tag, i + 1, j);
    }
  }

  /** The same holds for the list of captures. */
  lemma CapturesSkip(s: string, tag: string, i: nat, j: nat)
    requires i <= j <= |s|
    requires forall p :: i <= p < j ==> !IsAt(s, Open(tag), p)
    ensures CapturesFrom(s, tag, i) == CapturesFrom(s, tag, j)
  {
    SkipWithoutOpen(s, tag, i, j);
  }

  /** A match found from `i` contributes its group 1, and the iteration resumes
      where the match ends. */
  lemma CapturesFromSome(s: string, tag: string, i: nat, p: nat, cs: nat, ce: nat, e: nat)
    requires i <= |s| && FindFrom(s, tag, i) == Some(Span(p, cs, ce, e))
    ensures cs <= ce <= e <= |s|
    ensures CapturesFrom(s, tag, i) == [s[cs..ce]] + CapturesFrom(s, tag, e)
  {
  }

  /** A string without some character of a pattern has no occurrence of it. */
  lemma AbsentChar(x: string, pat: string, c: char)
    requires c in pat && c !in x
    ensures forall p: nat :: !IsAt(x, pat, p)
  {
  }

  /** A match starting at `i` whose closing tag ends the line is the first match
      from `i`: group 1 cannot grow past the newline. */
  lemma LineMatch(s: string, tag: string, i: nat, q: nat)
    requires '\n' !in tag && CaptureAt(s, tag, i, q)
    requires q + |Close(tag)| < |s| ==> s[q + |Close(tag)|] == '\n'
    ensures FindFrom(s, tag, i) == Some(Span(i, i + |Open(tag)|, q, q + |Close(tag)|))
  {
    var e := q + |Close(tag)|;
    forall q': nat | q < q' ensures !CaptureAt(s, tag, i, q') {
      if q' <= e && q' + |Close(tag)| <= |s| {
        LongerCloseCrossesLine(s, tag, q, q', e);
      }
    }
    FindFromIsFirstMatch(s, tag, i, i, q);
  }

  /** A closing tag that starts inside another closing tag ending at `e` covers
      position `e`, which holds a newline when the text goes on. */
  lemma LongerCloseCrossesLine(s: string, tag: string, q: nat, q': nat, e: nat)
    requires '\n' !in tag && e == q + |Close(tag)| && q < q' <= e && q' + |Close(tag)| <= |s|
    requires e < |s| ==> s[e] == '\n'
    ensures !IsAt(s, Close(tag), q')
  {
    if e < |s| {
      assert s[q'..q' + |Close(tag)|][e - q'] == s[e];
    }
  }

  lemma NewlineNotOpen(s: string, tag: string, e: nat)
    requires e < |s| && s[e] == '\n'
    ensures !IsAt(s, Open(tag), e)
  {
    if e + |Open(tag)| <= |s| {
      assert s[e..e + |Open(tag)|][0] == s[e];
    }
  }

  /** The newline that ends a line is skipped. */
  lemma CapturesSkipNewline(s: string, tag: string, e: nat)
    requires e < |s| && s[e] == '\n'
    ensures CapturesFrom(s, tag, e) == CapturesFrom(s, tag, e + 1)
  {
    NewlineNotOpen(s, tag, e);
    CapturesSkip(s, tag, e, e + 1);
  }

  /** Where an element `<tag>c</tag>` sits inside a text. */
  lemma ElementAt(x: string, tag: string, c: string, y: string)
    requires '\n' !in c
    ensures var s := x + Open(tag) + c + Close(tag) + y;
            && CaptureAt(s, tag, |x|, |x| + |Open(tag)| + |c|)
            && s[|x| + |Open(tag)|..|x| + |Open(tag)| + |c|] == c
            && |s| == |x| + |Open(tag)| + |c| + |Close(tag)| + |y|
            && (|y| > 0 ==> s[|x| + |Open(tag)| + |c| + |Close(tag)|] == y[0])
  {
    var s := x + Open(tag) + c + Close(tag) + y;
    var i, o := |x|, |Open(tag)|;
    assert s[i..i + o] == Open(tag);
    assert s[i + o + |c|..i + o + |c| + |Close(tag)|] == Close(tag);
    assert s[i + o..i + o + |c|] == c;
    forall k | i + o <= k < i + o + |c| ensures s[k] != '\n' {
      assert s[k] == c[k - i - o];
    }
  }

  /** The iteration from a match that ends the text yields that match's group 1 only. */
  lemma CapturesOfFinalMatch(s: string, tag: string, i: nat, cs: nat, ce: nat, c: string)
    requires i <= cs <= ce <= |s| && FindFrom(s, tag, i) == Some(Span(i, cs, ce, |s|)) && s[cs..ce] == c
    ensures CapturesFrom(s, tag, i) == [c]
  {
  }

  /** An element `<tag>c</tag>` followed by a line break and more text `y`: the
      search from its start matches exactly that element, the newline stopping
      the greedy group. */
  lemma ElementLine(tag: string, x: string, c: string, y: string)
    requires '\n' !in tag && '\n' !in c && |y| > 0 && y[0] == '\n'
    ensures var s := x + Open(tag) + c + Close(tag) + y;
            var ce := |x| + |Open(tag)| + |c|;
            && FindFrom(s, tag, |x|) == Some(Span(|x|, |x| + |Open(tag)|, ce, ce + |Close(tag)|))
            && s[|x| + |Open(tag)|..ce] == c
  {
    var s := x + Open(tag) + c + Close(tag) + y;
    var q := |x| + |Open(tag)| + |c|;
    ElementAt(x, tag, c, y);
    assert s[q + |Close(tag)|] == '\n';
    LineMatch(s, tag, |x|, q);
  }

  /** An element `<tag>c</tag>` that ends the text: the search from its start
      matches the whole element. */
  lemma LastElementLine(tag: string, x: string, c: string)
    requires '\n' !in tag && '\n' !in c
    ensures var s := x + Open(tag) + c + Close(tag);
            && FindFrom(s, tag, |x|) == Some(Span(|x|, |x| + |Open(tag)|, |x| + |Open(tag)| + |c|, |s|))
            && s[|x| + |Open(tag)|..|x| + |Open(tag)| + |c|] == c
  {
    var s := x + Open(tag) + c + Close(tag);
    assert s == x + Open(tag) + c + Close(tag) + [];
    ElementAt(x, tag, c, []);
    LineMatch(s, tag, |x|, |x| + |Open(tag)| + |c|);
  }

  /** Two elements on one last line: the greedy group runs from the first opening
      tag to the last closing tag, so the search returns ONE match whose group 1
      holds the inner closing and opening tags, and that match ends the text. */
  lemma TwoElementsOneMatch(tag: string, x: string, c1: string, c2: string)
    requires '\n' !in tag && '\n' !in c1 && '\n' !in c2
    ensures var s := x + Open(tag) + c1 + Close(tag) + Open(tag) + c2 + Close(tag);
            var g := c1 + Close(tag) + Open(tag) + c2;
            && FindFrom(s, tag, |x|) == Some(Span(|x|, |x| + |Open(tag)|, |x| + |Open(tag)| + |g|, |s|))
            && s[|x| + |Open(tag)|..|x| + |Open(tag)| + |g|] == g
  {
    var g := c1 + Close(tag) + Open(tag) + c2;
    assert '\n' !in Open(tag) && '\n' !in Close(tag);
    assert x + Open(tag) + c1 + Close(tag) + Open(tag) + c2 + Close(tag) == x + Open(tag) + g + Close(tag);
    LastElementLine(tag, x, g);
  }
}
