/** The three JavaScript string operations the command handler relies on:
    `String.prototype.trim`, `startsWith` and `replace` with a string pattern.
    Strings are sequences of Unicode scalar values; every character these
    operations compare against lies in the Basic Multilingual Plane, so they
    behave here as on JavaScript's UTF-16 strings. */
module JsString {
  import opened Wrappers

  /** The code points `trim` strips: ECMAScript's WhiteSpace (TAB, VT, FF,
      ZWNBSP and every space separator) and LineTerminator (LF, CR, LS, PS). */
  predicate IsWhitespace(c: char) {
    || c == '\t' || c == '\n' || c == '\U{B}' || c == '\U{C}' || c == '\r'
    || c == ' ' || c == '\U{A0}' || c == '\U{1680}'
    || ('\U{2000}' <= c <= '\U{200A}')
    || c == '\U{2028}' || c == '\U{2029}' || c == '\U{202F}' || c == '\U{205F}'
    || c == '\U{3000}' || c == '\U{FEFF}'
  }

  ghost predicate AllWhitespace(s: string) {
    forall i :: 0 <= i < |s| ==> IsWhitespace(s[i])
  }

  /** Neither end is whitespace: the shape of everything `trim` returns. */
  predicate IsTrimmed(s: string) {
    s == [] || (!IsWhitespace(s[0]) && !IsWhitespace(s[|s| - 1]))
  }

  /** The first index at or after `i` that does not hold whitespace. */
  function SkipForward(s: string, i: nat): (k: nat)
    requires i <= |s|
    ensures i <= k <= |s|
    ensures k < |s| ==> !IsWhitespace(s[k])
    decreases |s| - i
  {
    if i < |s| && IsWhitespace(s[i]) then SkipForward(s, i + 1) else i
  }

  /** The least index down to `lo` such that `s[k..j]` is all whitespace. */
  function SkipBackward(s: string, lo: nat, j: nat): (k: nat)
    requires lo <= j <= |s|
    ensures lo <= k <= j
    ensures lo < k ==> !IsWhitespace(s[k - 1])
    decreases j
  {
    if lo < j && IsWhitespace(s[j - 1]) then SkipBackward(s, lo, j - 1) else j
  }

  /** `s.trim()`: cut the whitespace off the front, then off the back. */
  function Trim(s: string): (r: string)
    ensures IsTrimmed(r) && |r| <= |s|
  {
    var i := SkipForward(s, 0);
    s[i..SkipBackward(s, i, |s|)]
  }

  /** SkipForward passes over whitespace only, and stops at the first other
      character. */
  lemma {:induction false} SkipForwardExact(s: string, i: nat, k: nat)
    requires i <= k <= |s|
    ensures SkipForward(s, i) == k <==>
              (forall j :: i <= j < k ==> IsWhitespace(s[j])) && (k < |s| ==> !IsWhitespace(s[k]))
    decreases |s| - i
  {
    if i < |s| && IsWhitespace(s[i]) {
      if i < k {
        SkipForwardExact(s, i + 1, k);
      } else {
        assert SkipForward(s, i) >= i + 1;
      }
    }
  }

  /** SkipBackward passes over whitespace only, and stops after the last other
      character. */
  lemma {:induction false} SkipBackwardExact(s: string, lo: nat, j: nat, k: nat)
    requires lo <= k <= j <= |s|
    ensures SkipBackward(s, lo, j) == k <==>
              (forall m :: k <= m < j ==> IsWhitespace(s[m])) && (lo < k ==> !IsWhitespace(s[k - 1]))
    decreases j
  {
    if lo < j && IsWhitespace(s[j - 1]) {
      if k < j {
        SkipBackwardExact(s, lo, j - 1, k);
      } else {
        assert SkipBackward(s, lo, j) <= j - 1;
      }
    }
  }

  /** `trim` returns the middle of `s` once the whitespace at both ends is cut off. */
  lemma TrimCutsWhitespace(s: string)
    ensures var r := Trim(s);
            exists i :: 0 <= i <= |s| - |r| && s[i..i + |r|] == r
                        && AllWhitespace(s[..i]) && AllWhitespace(s[i + |r|..])
  {
    var i := SkipForward(s, 0);
    var k := SkipBackward(s, i, |s|);
    SkipForwardExact(s, 0, i);
    SkipBackwardExact(s, i, |s|, k);
    assert AllWhitespace(s[..i]);
    assert AllWhitespace(s[k..]);
  }

  /** A text of nothing but whitespace trims to the empty text. */
  lemma TrimOfBlank(w: string)
    requires AllWhitespace(w)
    ensures Trim(w) == []
  {
    SkipForwardExact(w, 0, |w|);
    SkipBackwardExact(w, |w|, |w|, |w|);
  }

  /** Trim is determined by that characterisation: whatever whitespace
      surrounds a trimmed middle, `trim` returns exactly that middle. */
  lemma TrimOfPadded(a: string, m: string, b: string)
    requires AllWhitespace(a) && AllWhitespace(b) && IsTrimmed(m)
    ensures Trim(a + m + b) == m
  {
    var s := a + m + b;
    if m == [] {
      assert AllWhitespace(s);
      TrimOfBlank(s);
    } else {
      var e := |a| + |m|;
      assert forall j :: 0 <= j < |a| ==> IsWhitespace(s[j]) by {
        forall j | 0 <= j < |a| ensures IsWhitespace(s[j]) { assert s[j] == a[j]; }
      }
      assert forall j :: e <= j < |s| ==> IsWhitespace(s[j]) by {
        forall j | e <= j < |s| ensures IsWhitespace(s[j]) { assert s[j] == b[j - e]; }
      }
      assert s[|a|] == m[0] && s[e - 1] == m[|m| - 1];
      SkipForwardExact(s, 0, |a|);
      SkipBackwardExact(s, |a|, |s|, e);
      assert s[|a|..e] == m;
    }
  }

  /** Trimming twice trims nothing more. */
  lemma TrimIdempotent(s: string)
    ensures Trim(Trim(s)) == Trim(s)
  {
    TrimOfPadded([], Trim(s), []);
    assert [] + Trim(s) + [] == Trim(s);
  }

  /** `s.startsWith(p)`. */
  predicate StartsWith(s: string, p: string) {
    |p| <= |s| && s[..|p|] == p
  }

  predicate OccursAt(s: string, p: string, i: nat) {
    i + |p| <= |s| && s[i..i + |p|] == p
  }

  /** `s.indexOf(p, i)`: the first index at or after `i` where `p` occurs. */
  function IndexOf(s: string, p: string, i: nat): (k: Option<nat>)
    requires i <= |s|
    ensures k.Some? ==> i <= k.value <= |s| && OccursAt(s, p, k.value)
    decreases |s| - i
  {
    if OccursAt(s, p, i) then Some(i)
    else if i < |s| then IndexOf(s, p, i + 1)
    else None
  }

  /** IndexOf misses no earlier occurrence, and reports none only when there
      is none. */
  lemma {:induction false} IndexOfFirst(s: string, p: string, i: nat, j: nat)
    requires i <= j <= |s| && OccursAt(s, p, j)
    ensures IndexOf(s, p, i).Some? && IndexOf(s, p, i).value <= j
    decreases j - i
  {
    if !OccursAt(s, p, i) {
      IndexOfFirst(s, p, i + 1, j);
    }
  }

  /** `s.replace(p, r)` with a string pattern: only the FIRST occurrence of `p`
      is replaced, and `s` is returned as it is when `p` does not occur. The
      replacement is inserted literally: JavaScript's `$$`, `$&`, `` $` `` and
      `$'` substitutions are not expanded, which agrees with JavaScript for
      every `r` without a `$`, such as the empty replacement the handler uses. */
  function ReplaceFirst(s: string, p: string, r: string): (t: string)
    ensures StartsWith(s, p) ==> t == r + s[|p|..]
  {
    match IndexOf(s, p, 0)
    case None => s
    case Some(k) => s[..k] + r + s[k + |p|..]
  }

  /** Replacing a pattern that does not occur returns the text unchanged. */
  lemma ReplaceAbsent(s: string, p: string, r: string)
    requires forall i: nat :: i <= |s| ==> !OccursAt(s, p, i)
    ensures ReplaceFirst(s, p, r) == s
  {
  }

  /** Otherwise the first occurrence, and only it, is replaced. */
  lemma ReplaceFirstOccurrence(s: string, p: string, r: string, i: nat)
    requires OccursAt(s, p, i)
    requires forall j: nat :: j < i ==> !OccursAt(s, p, j)
    ensures ReplaceFirst(s, p, r) == s[..i] + r + s[i + |p|..]
  {
    IndexOfFirst(s, p, 0, i);
  }
}
