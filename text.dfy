/**
 * The string operations the prompt store relies on: Python's `str.strip()`,
 * `str.lower()` and the substring test `needle in hay`.
 */
module Text {

  /** Python's `str.isspace()` for one character: every code point Python treats as whitespace. */
  predicate IsSpace(c: char) {
    || ('\t' <= c <= '\r')
    || ('\U{1C}' <= c <= '\U{1F}')
    || c == ' '
    || c == '\U{85}'
    || c == '\U{A0}'
    || c == '\U{1680}'
    || ('\U{2000}' <= c <= '\U{200A}')
    || c == '\U{2028}'
    || c == '\U{2029}'
    || c == '\U{202F}'
    || c == '\U{205F}'
    || c == '\U{3000}'
  }

  /** True when every character of `s` is whitespace (the empty string included). */
  predicate AllSpace(s: string) {
    forall k :: 0 <= k < |s| ==> IsSpace(s[k])
  }

  /** The length of the longest all-whitespace prefix of `s`. */
  function LeadingSpaces(s: string): (n: nat)
    ensures n <= |s|
    ensures AllSpace(s[..n])
    ensures n < |s| ==> !IsSpace(s[n])
  {
    if |s| > 0 && IsSpace(s[0]) then
      var m := LeadingSpaces(s[1..]);
      assert s[..m + 1] == [s[0]] + s[1..][..m];
      m + 1
    else 0
  }

  /** The length of the longest all-whitespace suffix of `s`. */
  function TrailingSpaces(s: string): (n: nat)
    ensures n <= |s|
    ensures forall k :: |s| - n <= k < |s| ==> IsSpace(s[k])
    ensures n < |s| ==> !IsSpace(s[|s| - 1 - n])
  {
    if |s| > 0 && IsSpace(s[|s| - 1]) then
      var init := s[..|s| - 1];
      var m := TrailingSpaces(init);
      assert forall k :: 0 <= k < |init| ==> init[k] == s[k];
      m + 1
    else 0
  }

  /**
   * Python's `s.strip()`: the result is empty exactly when `s` is all
   * whitespace, and otherwise neither starts nor ends with whitespace.
   */
  function Strip(s: string): (r: string)
    ensures |r| <= |s|
    ensures r == [] <==> AllSpace(s)
    ensures r != [] ==> !IsSpace(r[0]) && !IsSpace(r[|r| - 1])
  {
    var i := LeadingSpaces(s);
    var rest := s[i..];
    var r := rest[..|rest| - TrailingSpaces(rest)];
    assert r == [] ==> AllSpace(s) by {
      if r == [] {
        forall k | 0 <= k < |s| ensures IsSpace(s[k]) {
          assert s[..i][k] == s[k];
        }
      }
    }
    r
  }

  /** What `strip()` removes is whitespace: `s` is whitespace, then the result, then whitespace. */
  lemma StripRemovesOnlySpace(s: string)
    ensures var i := LeadingSpaces(s);
      && i + |Strip(s)| <= |s|
      && s == s[..i] + Strip(s) + s[i + |Strip(s)|..]
      && AllSpace(s[..i])
      && AllSpace(s[i + |Strip(s)|..])
  {
    var i := LeadingSpaces(s);
    var rest := s[i..];
    var j := TrailingSpaces(rest);
    var r := Strip(s);
    var m := |rest| - j;
    assert r == rest[..m];
    var tail := rest[m..];
    TakeDrop(rest, m);
    TakeDrop(s, i);
    DropDrop(s, i, m);
    assert s == (s[..i] + r) + tail;
    assert AllSpace(tail) by {
      forall k | 0 <= k < |tail| ensures IsSpace(tail[k]) {
        assert tail[k] == rest[m + k];
      }
    }
    assert s[i + |r|..] == tail;
  }

  lemma TakeDrop(s: string, n: nat)
    requires n <= |s|
    ensures s == s[..n] + s[n..]
  {
  }

  lemma DropDrop(s: string, i: nat, m: nat)
    requires i + m <= |s|
    ensures s[i..][m..] == s[i + m..]
  {
  }

  /** Stripping twice is stripping once. */
  lemma StripIdempotent(s: string)
    ensures Strip(Strip(s)) == Strip(s)
  {
  }

  /** Python's `str.lower()` on one character, for the ASCII letters. */
  function LowerChar(c: char): char {
    if 'A' <= c <= 'Z' then (c as int + ('a' as int - 'A' as int)) as char else c
  }

  /** Python's `str.lower()`, character by character. */
  function Lower(s: string): string {
    seq(|s|, k requires 0 <= k < |s| => LowerChar(s[k]))
  }

  /** Lowering twice is lowering once, and the result has no upper-case ASCII letter. */
  lemma LowerIdempotent(s: string)
    ensures Lower(Lower(s)) == Lower(s)
    ensures forall k :: 0 <= k < |s| ==> !('A' <= Lower(s)[k] <= 'Z')
  {
  }

  /** Lowering keeps whitespace and non-whitespace apart, so it commutes with stripping. */
  lemma LowerCommutesWithStrip(s: string)
    ensures Lower(Strip(s)) == Strip(Lower(s))
  {
    var i := LeadingSpaces(s);
    var rest := s[i..];
    var m := |rest| - TrailingSpaces(rest);
    var low := Lower(s);
    var lowRest := Lower(rest);
    LowerLeadingSpaces(s);
    LowerDrop(s, i);
    assert low[i..] == lowRest;
    LowerTrailingSpaces(rest);
    assert |lowRest| - TrailingSpaces(lowRest) == m;
    LowerTake(rest, m);
    assert Strip(low) == lowRest[..m];
  }

  /** Lowering a suffix is taking the suffix of the lowered string. */
  lemma LowerDrop(s: string, n: nat)
    requires n <= |s|
    ensures Lower(s)[n..] == Lower(s[n..])
  {
    assert forall k :: 0 <= k < |s| - n ==> Lower(s)[n..][k] == LowerChar(s[n + k]) == Lower(s[n..])[k];
  }

  /** Lowering a prefix is taking the prefix of the lowered string. */
  lemma LowerTake(s: string, n: nat)
    requires n <= |s|
    ensures Lower(s)[..n] == Lower(s[..n])
  {
    assert forall k :: 0 <= k < n ==> Lower(s)[..n][k] == LowerChar(s[k]) == Lower(s[..n])[k];
  }

  lemma {:induction false} LowerLeadingSpaces(s: string)
    ensures LeadingSpaces(Lower(s)) == LeadingSpaces(s)
    decreases |s|
  {
    if |s| > 0 {
      var low := Lower(s);
      LowerKeepsSpace(s[0]);
      if IsSpace(s[0]) {
        LowerDrop(s, 1);
        LowerLeadingSpaces(s[1..]);
      }
    }
  }

  lemma {:induction false} LowerTrailingSpaces(s: string)
    ensures TrailingSpaces(Lower(s)) == TrailingSpaces(s)
    decreases |s|
  {
    if |s| > 0 {
      var low := Lower(s);
      var last := |s| - 1;
      LowerKeepsSpace(s[last]);
      if IsSpace(s[last]) {
        LowerTake(s, last);
        LowerTrailingSpaces(s[..last]);
      }
    }
  }

  /** Lower-casing a character never turns whitespace into non-whitespace or back. */
  lemma LowerKeepsSpace(c: char)
    ensures IsSpace(LowerChar(c)) == IsSpace(c)
  {
  }

  /** `needle` occurs in `hay` starting at index `i`. */
  predicate OccursAt(needle: string, hay: string, i: int) {
    0 <= i && i + |needle| <= |hay| && hay[i..i + |needle|] == needle
  }

  /** Python's substring test `needle in hay`. */
  function Contains(needle: string, hay: string): (b: bool)
    ensures b <==> exists i :: OccursAt(needle, hay, i)
    decreases |hay|
  {
    if |needle| > |hay| then
      assert forall i :: !OccursAt(needle, hay, i);
      false
    else if hay[..|needle|] == needle then
      assert OccursAt(needle, hay, 0);
      true
    else
      var b := Contains(needle, hay[1..]);
      assert forall i :: OccursAt(needle, hay[1..], i) ==> OccursAt(needle, hay, i + 1) by {
        forall i | OccursAt(needle, hay[1..], i) ensures OccursAt(needle, hay, i + 1) {
          assert hay[1..][i..i + |needle|] == hay[i + 1..i + 1 + |needle|];
        }
      }
      assert forall i :: OccursAt(needle, hay, i) ==> i > 0 && OccursAt(needle, hay[1..], i - 1) by {
        forall i | OccursAt(needle, hay, i) ensures i > 0 && OccursAt(needle, hay[1..], i - 1) {
          assert hay[1..][i - 1..i - 1 + |needle|] == hay[i..i + |needle|];
        }
      }
      b
  }

  /** The empty string occurs in every string, as Python's `"" in s` is always true. */
  lemma EmptyIsEverywhere(hay: string)
    ensures Contains([], hay)
  {
    assert OccursAt([], hay, 0);
  }
}
