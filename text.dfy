/** String primitives the lookup engine relies on: substring search
    (`str::contains`), the end of the current line (what `.` in a regex cannot
    cross), the single entity substitution `replace("&amp;", "&")` and ASCII
    lower-casing. */
module Text {

  /** `pat` occurs in `s` starting at index `i`. */
  predicate IsAt(s: string, pat: string, i: nat) {
    i + |pat| <= |s| && s[i..i + |pat|] == pat
  }

  /** Some occurrence of `pat` in `s` starts at or after `i`. */
  function ContainsFrom(s: string, pat: string, i: nat): (r: bool)
    requires i <= |s|
    ensures r <==> exists k: nat :: i <= k && IsAt(s, pat, k)
    decreases |s| - i
  {
    if IsAt(s, pat, i) then true
    else if i == |s| then false
    else ContainsFrom(s, pat, i + 1)
  }

  /** `s.contains(pat)`: `pat` occurs somewhere in `s`. */
  function Contains(s: string, pat: string): (r: bool)
    ensures r <==> exists k: nat :: IsAt(s, pat, k)
  {
    ContainsFrom(s, pat, 0)
  }

  /** The index of the first newline at or after `i`, or `|s|` when there is none. */
  function LineEnd(s: string, i: nat): (e: nat)
    requires i <= |s|
    ensures i <= e <= |s|
    ensures e < |s| ==> s[e] == '\n'
    ensures forall k :: i <= k < e ==> s[k] != '\n'
    decreases |s| - i
  {
    if i == |s| || s[i] == '\n' then i else LineEnd(s, i + 1)
  }

  const Amp := "&amp;"

  /** `s.replace("&amp;", "&")`: one left-to-right pass that rewrites every
      non-overlapping occurrence of the entity and copies everything else. */
  function UnescapeAmp(s: string): string
    decreases |s|
  {
    if s == [] then []
    else if IsAt(s, Amp, 0) then "&" + UnescapeAmp(s[|Amp|..])
    else [s[0]] + UnescapeAmp(s[1..])
  }

  /** The inverse direction: every `&` written as the entity. */
  function EscapeAmp(s: string): string
    decreases |s|
  {
    if s == [] then []
    else (if s[0] == '&' then Amp else [s[0]]) + EscapeAmp(s[1..])
  }

  /** Unescaping undoes escaping, so every entity the encoder wrote comes back as `&`. */
  lemma {:induction false} UnescapeEscape(s: string)
    ensures UnescapeAmp(EscapeAmp(s)) == s
  {
    if s != [] {
      var e := EscapeAmp(s);
      UnescapeEscape(s[1..]);
      if s[0] == '&' {
        assert e == Amp + EscapeAmp(s[1..]);
        assert IsAt(e, Amp, 0);
        assert e[|Amp|..] == EscapeAmp(s[1..]);
      } else {
        assert e == [s[0]] + EscapeAmp(s[1..]);
        assert e[0] != '&';
        assert !IsAt(e, Amp, 0);
        assert e[1..] == EscapeAmp(s[1..]);
      }
    }
  }

  /** An occurrence in a suffix is an occurrence in the whole string. */
  lemma OccursInSuffix(s: string, pat: string, d: nat, k: nat)
    requires d <= |s|
    requires IsAt(s[d..], pat, k)
    ensures IsAt(s, pat, d + k)
  {
    assert s[d..][k..k + |pat|] == s[d + k..d + k + |pat|];
  }

  /** A string without the entity is left exactly as it is. */
  lemma {:induction false} UnescapeWithoutEntity(s: string)
    requires forall k: nat :: !IsAt(s, Amp, k)
    ensures UnescapeAmp(s) == s
  {
    if s != [] {
      assert !IsAt(s, Amp, 0);
      forall k: nat ensures !IsAt(s[1..], Amp, k) {
        if IsAt(s[1..], Amp, k) { OccursInSuffix(s, Amp, 1, k); }
      }
      UnescapeWithoutEntity(s[1..]);
    }
  }

  /** The only `&` of the entity is its first character, so an occurrence can
      never straddle the start of a following entity. */
  lemma NoStraddle(a: string, b: string, i: nat)
    requires i < |a|
    requires forall k: nat :: !IsAt(a, Amp, k)
    ensures !IsAt(a + Amp + b, Amp, i)
  {
    var s := a + Amp + b;
    if i + |Amp| <= |a| {
      assert s[i..i + |Amp|] == a[i..i + |Amp|];
      assert !IsAt(a, Amp, i);
    } else if i + |Amp| <= |s| {
      var j := |a| - i;
      assert s[i..i + |Amp|][j] == s[|a|] == '&';
      assert Amp[j] != '&';
    }
  }

  /** A text made of an entity-free part, the entity and a rest unescapes to the part,
      one `&` and the unescaped rest: each entity becomes `&` and nothing else moves. */
  lemma {:induction false} UnescapeSplice(a: string, b: string)
    requires forall k: nat :: !IsAt(a, Amp, k)
    ensures UnescapeAmp(a + Amp + b) == a + "&" + UnescapeAmp(b)
  {
    var s := a + Amp + b;
    if a == [] {
      assert s == Amp + b;
      assert IsAt(s, Amp, 0);
      assert s[|Amp|..] == b;
    } else {
      NoStraddle(a, b, 0);
      forall k: nat ensures !IsAt(a[1..], Amp, k) {
        if IsAt(a[1..], Amp, k) { OccursInSuffix(a, Amp, 1, k); }
      }
      UnescapeSplice(a[1..], b);
      assert s[1..] == a[1..] + Amp + b;
      assert s[0] == a[0];
    }
  }

  /** ASCII lower-casing of one character. */
  function LowerAscii(c: char): char {
    if 'A' <= c <= 'Z' then (c as int + 32) as char else c
  }

  /** `to_lowercase`, restricted to ASCII letters. */
  function ToLowerAscii(s: string): (r: string)
    ensures |r| == |s|
    ensures forall i :: 0 <= i < |s| ==> r[i] == LowerAscii(s[i])
    ensures forall i :: 0 <= i < |r| ==> !('A' <= r[i] <= 'Z')
    decreases |s|
  {
    if s == [] then [] else [LowerAscii(s[0])] + ToLowerAscii(s[1..])
  }
}
