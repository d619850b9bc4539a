/** The handful of Python string operations the app relies on:
    whitespace, `str.strip()` and the substring test `part in s`. */
module Text {

  /** A character Python's `str.isspace()` and `str.strip()` treat as whitespace:
      U+0009..U+000D, U+001C..U+001F, the space, U+0085, U+00A0, U+1680,
      U+2000..U+200A, U+2028, U+2029, U+202F, U+205F and U+3000. */
  predicate IsSpace(c: char) {
    ('\t' <= c <= '\r') || ('\U{1C}' <= c <= '\U{1F}') || c == ' '
    || c == '\U{85}' || c == '\U{A0}' || c == '\U{1680}'
    || ('\U{2000}' <= c <= '\U{200A}') || c == '\U{2028}' || c == '\U{2029}'
    || c == '\U{202F}' || c == '\U{205F}' || c == '\U{3000}'
  }

  /** A character `int(text, base)` skips around a numeral. ASCII characters reach
      the numeral scanner unchanged, and it skips only tab..carriage return and
      the space, so U+001C..U+001F are not skipped there; every non-ASCII
      whitespace character is first turned into a space, so it is skipped. */
  predicate IsIntSpace(c: char) {
    IsSpace(c) && !('\U{1C}' <= c <= '\U{1F}')
  }

  /** Every character of `s` is in the class `ws`. */
  predicate AllIn(s: string, ws: char -> bool) {
    forall i :: 0 <= i < |s| ==> ws(s[i])
  }

  /** The first index at or after `i` that does not hold a `ws` character
      (`|s|` when there is none). */
  function SkipForward(s: string, i: nat, ws: char -> bool): (n: nat)
    requires i <= |s|
    ensures i <= n <= |s|
    ensures forall k :: i <= k < n ==> ws(s[k])
    ensures n < |s| ==> !ws(s[n])
    decreases |s| - i
  {
    if i < |s| && ws(s[i]) then SkipForward(s, i + 1, ws) else i
  }

  /** The end of `s[lo..j]` once its trailing `ws` characters are dropped. */
  function SkipBackward(s: string, lo: nat, j: nat, ws: char -> bool): (e: nat)
    requires lo <= j <= |s|
    ensures lo <= e <= j
    ensures forall k :: e <= k < j ==> ws(s[k])
    ensures e > lo ==> !ws(s[e - 1])
    decreases j
  {
    if j > lo && ws(s[j - 1]) then SkipBackward(s, lo, j - 1, ws) else j
  }

  /** `s.strip()` for the whitespace class `ws`: the part between the leading
      and the trailing run of whitespace. */
  function Strip(s: string, ws: char -> bool): string {
    var b := SkipForward(s, 0, ws);
    s[b..SkipBackward(s, b, |s|, ws)]
  }

  /** What `Strip` leaves is the middle part of `s`: it neither starts nor ends
      with whitespace, everything around it is whitespace, and it is empty
      exactly when `s` is all whitespace. */
  lemma StripSpec(s: string, ws: char -> bool)
    ensures exists i :: Framed(s, Strip(s, ws), i, ws)
    ensures Strip(s, ws) != [] ==> !ws(Strip(s, ws)[0]) && !ws(Strip(s, ws)[|Strip(s, ws)| - 1])
    ensures Strip(s, ws) == [] <==> AllIn(s, ws)
  {
    var b := SkipForward(s, 0, ws);
    var e := SkipBackward(s, b, |s|, ws);
    var r := s[b..e];
    assert r == Strip(s, ws);
    assert Framed(s, r, b, ws);
    if b < |s| {
      assert e > b;
      assert r[0] == s[b] && r[|r| - 1] == s[e - 1];
      assert !AllIn(s, ws) by { assert !ws(s[b]); }
    } else {
      assert AllIn(s, ws);
    }
  }

  /** `r` sits in `s` at position `i`, and everything before and after it is
      in the class `ws`. */
  predicate Framed(s: string, r: string, i: int, ws: char -> bool) {
    0 <= i && i + |r| <= |s| && s[i..i + |r|] == r
    && (forall k :: 0 <= k < i ==> ws(s[k]))
    && (forall k :: i + |r| <= k < |s| ==> ws(s[k]))
  }

  /** A string that already neither starts nor ends with whitespace is its
      own strip. */
  lemma StripKeeps(s: string, ws: char -> bool)
    requires s != [] && !ws(s[0]) && !ws(s[|s| - 1])
    ensures Strip(s, ws) == s
  {
    assert SkipForward(s, 0, ws) == 0;
    assert SkipBackward(s, 0, |s|, ws) == |s|;
    assert s[0..|s|] == s;
  }

  /** The forward scan stops at the first character that is not whitespace. */
  lemma {:induction false} SkipForwardStops(s: string, i: nat, n: nat, ws: char -> bool)
    requires i <= n < |s| && !ws(s[n])
    requires forall k :: i <= k < n ==> ws(s[k])
    ensures SkipForward(s, i, ws) == n
    decreases n - i
  {
    if i < n {
      SkipForwardStops(s, i + 1, n, ws);
    }
  }

  /** The backward scan stops after the last character that is not whitespace. */
  lemma {:induction false} SkipBackwardStops(s: string, lo: nat, j: nat, e: nat, ws: char -> bool)
    requires lo < e <= j <= |s| && !ws(s[e - 1])
    requires forall k :: e <= k < j ==> ws(s[k])
    ensures SkipBackward(s, lo, j, ws) == e
    decreases j
  {
    if e < j {
      SkipBackwardStops(s, lo, j - 1, e, ws);
    }
  }

  /** `strip` removes exactly the whitespace around a string that neither
      starts nor ends with whitespace. */
  lemma StripPadding(a: string, t: string, z: string, ws: char -> bool)
    requires AllIn(a, ws) && AllIn(z, ws)
    requires t != [] && !ws(t[0]) && !ws(t[|t| - 1])
    ensures Strip(a + t + z, ws) == t
  {
    var s := a + t + z;
    var b := |a|;
    var e := |a| + |t|;
    assert forall k :: 0 <= k < b ==> s[k] == a[k];
    assert forall k :: b <= k < e ==> s[k] == t[k - b];
    assert forall k :: e <= k < |s| ==> s[k] == z[k - e];
    SkipForwardStops(s, 0, b, ws);
    SkipBackwardStops(s, b, |s|, e, ws);
    assert s[b..e] == t;
  }

  /** Python's `part in s`: `part` occurs in `s` as a contiguous block
      (the empty string occurs in every string). */
  function Contains(s: string, part: string): bool
    decreases |s|
  {
    |part| <= |s| && (s[..|part|] == part || Contains(s[1..], part))
  }

  /** `part` occurs in `s` starting at position `i`. */
  predicate OccursAt(s: string, part: string, i: int) {
    0 <= i && i + |part| <= |s| && s[i..i + |part|] == part
  }

  /** `Contains` is the substring test: `part` occurs at some position of `s`. */
  lemma {:induction false} ContainsAt(s: string, part: string)
    ensures Contains(s, part) <==> exists i :: OccursAt(s, part, i)
    decreases |s|
  {
    if |part| <= |s| && s[..|part|] != part {
      ContainsAt(s[1..], part);
      if Contains(s[1..], part) {
        var j :| OccursAt(s[1..], part, j);
        assert s[1..][j..j + |part|] == s[j + 1..j + 1 + |part|];
        assert OccursAt(s, part, j + 1);
      }
      if i :| OccursAt(s, part, i) {
        assert i != 0;
        assert s[1..][i - 1..i - 1 + |part|] == s[i..i + |part|];
        assert OccursAt(s[1..], part, i - 1);
      }
    } else if |part| <= |s| {
      assert OccursAt(s, part, 0);
    }
  }
}
