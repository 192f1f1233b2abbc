/** The three regexes of the lookup engine all have the shape `<tag>(.*)</tag>`.
    Under the regex crate's leftmost-first semantics, with `.` matching any
    character but a newline and `*` greedy, a match starts at the leftmost
    opening tag that has a closing tag later on the same line, and its group 1
    runs up to the LAST such closing tag on that line. This module defines that
    meaning (CaptureAt, IsFirstMatch) and a search (FindFrom) proved to meet it. */
module TagPattern {
  import opened Wrappers
  import opened Text

  function Open(tag: string): string { "<" + tag + ">" }
  function Close(tag: string): string { "</" + tag + ">" }

  /** `<tag>(.*)</tag>` matches `s` with the opening tag at `p` and the closing
      tag at `q`: group 1 is `s[p + |Open(tag)|..q]` and holds no newline. */
  ghost predicate CaptureAt(s: string, tag: string, p: nat, q: nat) {
    && IsAt(s, Open(tag), p)
    && p + |Open(tag)| <= q
    && IsAt(s, Close(tag), q)
    && forall k :: p + |Open(tag)| <= k < q ==> s[k] != '\n'
  }

  /** The match the regex reports when it searches from `from`: no match starts
      earlier, and for its start the greedy group extends as far as possible. */
  ghost predicate IsFirstMatch(s: string, tag: string, from: nat, p: nat, q: nat) {
    && from <= p
    && CaptureAt(s, tag, p, q)
    && (forall p': nat, q': nat :: from <= p' < p ==> !CaptureAt(s, tag, p', q'))
    && (forall q': nat :: q < q' ==> !CaptureAt(s, tag, p, q'))
  }

  /** A match found in the haystack: the whole match is `s[start..end]`, group 1 is
      `s[capStart..capEnd]`. */
  datatype Span = Span(start: nat, capStart: nat, capEnd: nat, end: nat)

  /** The last position in `lo..q` (both included) where `close` occurs. */
  function LastClose(s: string, close: string, lo: nat, q: nat): (r: Option<nat>)
    requires lo <= q
    ensures r.Some? ==> lo <= r.value <= q && IsAt(s, close, r.value)
    ensures r.Some? ==> forall k :: r.value < k <= q ==> !IsAt(s, close, k)
    ensures r.None? ==> forall k :: lo <= k <= q ==> !IsAt(s, close, k)
    decreases q - lo
  {
    if IsAt(s, close, q) then Some(q)
    else if q == lo then None
    else LastClose(s, close, lo, q - 1)
  }

  /** Closing tags past the end of the line cannot end a match: group 1 would hold the newline. */
  lemma CloseWithinLine(s: string, tag: string, p: nat, q: nat)
    requires CaptureAt(s, tag, p, q)
    ensures q <= LineEnd(s, p + |Open(tag)|)
  {
    var e := LineEnd(s, p + |Open(tag)|);
    assert e < |s| ==> s[e] == '\n';
  }

  /** The first match at or after `from`, found as the regex engine would:
      try each start position in turn and, at a start, take the last closing tag
      on the line. */
  function FindFrom(s: string, tag: string, from: nat): (r: Option<Span>)
    requires from <= |s|
    ensures r.Some? ==> var m := r.value;
      && IsFirstMatch(s, tag, from, m.start, m.capEnd)
      && m.capStart == m.start + |Open(tag)|
      && m.end == m.capEnd + |Close(tag)| <= |s|
    ensures r.None? ==> forall p: nat, q: nat :: from <= p ==> !CaptureAt(s, tag, p, q)
    decreases |s| - from
  {
    if from == |s| then None
    else if IsAt(s, Open(tag), from) then
      var a := from + |Open(tag)|;
      var e := LineEnd(s, a);
      match LastClose(s, Close(tag), a, e)
      case Some(q) =>
        assert forall q': nat :: q < q' && CaptureAt(s, tag, from, q') ==> q' <= e by {
          forall q' | q < q' && CaptureAt(s, tag, from, q') { CloseWithinLine(s, tag, from, q'); }
        }
        Some(Span(from, a, q, q + |Close(tag)|))
      case None =>
        assert forall q': nat :: !CaptureAt(s, tag, from, q') by {
          forall q' | CaptureAt(s, tag, from, q') { CloseWithinLine(s, tag, from, q'); }
        }
        FindFrom(s, tag, from + 1)
    else FindFrom(s, tag, from + 1)
  }

  /** Group 1 of the first match, as `Regex::captures` followed by `get(1)` sees it. */
  datatype Captures = Captures(group1: Option<string>)

  /** `Regex::new("<tag>(.*)</tag>").captures(s)`: absent exactly when the
      pattern matches nowhere; otherwise group 1 always participates and holds
      the text between the first match's tags. */
  function RegexCaptures(s: string, tag: string): (r: Option<Captures>)
    ensures r.None? <==> forall p: nat, q: nat :: !CaptureAt(s, tag, p, q)
    ensures r.Some? ==> r.value.group1.Some?
    ensures r.Some? ==> exists p: nat, q: nat ::
      IsFirstMatch(s, tag, 0, p, q) && r.value.group1.value == s[p + |Open(tag)|..q]
  {
    match FindFrom(s, tag, 0)
    case None => None
    case Some(m) =>
      assert IsFirstMatch(s, tag, 0, m.start, m.capEnd);
      Some(Captures(Some(s[m.capStart..m.capEnd])))
  }

  /** `captures_iter`: group 1 of every successive non-overlapping match, each
      search resuming where the previous match ended. */
  function CapturesFrom(s: string, tag: string, from: nat): seq<string>
    requires from <= |s|
    decreases |s| - from
  {
    match FindFrom(s, tag, from)
    case None => []
    case Some(m) => [s[m.capStart..m.capEnd]] + CapturesFrom(s, tag, m.end)
  }

  /** The characters of an occurrence of a newline-free pattern are not newlines. */
  lemma NoNewlineInside(s: string, pat: string, i: nat, k: int)
    requires IsAt(s, pat, i) && '\n' !in pat
    requires i <= k < i + |pat|
    ensures s[k] != '\n'
  {
    assert s[k] == s[i..i + |pat|][k - i];
  }

  /** Because group 1 is greedy, two successive matches never share a line:
      a newline separates the end of one match from the start of the next. */
  lemma OneMatchPerLine(s: string, tag: string, from: nat)
    requires from <= |s| && '\n' !in tag
    requires FindFrom(s, tag, from).Some?
    requires FindFrom(s, tag, FindFrom(s, tag, from).value.end).Some?
    ensures var m1 := FindFrom(s, tag, from).value;
            var m2 := FindFrom(s, tag, m1.end).value;
            exists k :: m1.end <= k < m2.start && s[k] == '\n'
  {
    var m1 := FindFrom(s, tag, from).value;
    var m2 := FindFrom(s, tag, m1.end).value;
    if forall k :: m1.end <= k < m2.start ==> s[k] != '\n' {
      assert '\n' !in Open(tag) && '\n' !in Close(tag);
      forall k | m1.capStart <= k < m2.capEnd ensures s[k] != '\n' {
        if k < m1.capEnd {
        } else if k < m1.end {
          NoNewlineInside(s, Close(tag), m1.capEnd, k);
        } else if k < m2.start {
        } else if k < m2.capStart {
          NoNewlineInside(s, Open(tag), m2.start, k);
        }
      }
      assert CaptureAt(s, tag, m1.start, m2.capEnd);
      assert false;
    }
  }
}

