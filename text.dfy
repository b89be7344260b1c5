/**
 * Python's `str.strip()`: remove leading and trailing characters of a
 * class, by default whitespace as `str.isspace` defines it.  The scanning
 * functions take the class as a predicate, as `str.strip(chars)` takes a
 * set of characters.  Lengths are counted in code points, as Python's
 * `len` does.
 */
module Text {

  /** The characters for which Python's `str.isspace()` holds. */
  predicate IsSpace(c: char)
  {
    ('\t' <= c <= '\r') || ('\U{1C}' <= c <= '\U{1F}') || c == ' '
    || c == '\U{85}' || c == '\U{A0}' || c == '\U{1680}'
    || ('\U{2000}' <= c <= '\U{200A}') || c == '\U{2028}' || c == '\U{2029}'
    || c == '\U{202F}' || c == '\U{205F}' || c == '\U{3000}'
  }

  /** Scanning forward from `i`: the first index not in the class, or `|s|`. */
  function SkipForward(s: string, cut: char -> bool, i: nat): (j: nat)
    requires i <= |s|
    ensures i <= j <= |s|
    decreases |s| - i
  {
    if i < |s| && cut(s[i]) then SkipForward(s, cut, i + 1) else i
  }

  /** Scanning backward from `j` down to `lo`: one past the last index not in the class, or `lo`. */
  function SkipBackward(s: string, cut: char -> bool, lo: nat, j: nat): (k: nat)
    requires lo <= j <= |s|
    ensures lo <= k <= j
    decreases j
  {
    if lo < j && cut(s[j - 1]) then SkipBackward(s, cut, lo, j - 1) else j
  }

  /** Where `strip` starts keeping characters: the forward scan from the left end. */
  function StripStart(s: string, cut: char -> bool): (i: nat)
    ensures i <= |s|
  {
    SkipForward(s, cut, 0)
  }

  /** Where `strip` stops keeping characters: the backward scan from the right end, down to the start. */
  function StripEnd(s: string, cut: char -> bool): (e: nat)
    ensures StripStart(s, cut) <= e <= |s|
  {
    SkipBackward(s, cut, StripStart(s, cut), |s|)
  }

  /** `s.strip(chars)`: the characters between the two scan positions. */
  function StripBy(s: string, cut: char -> bool): string
  {
    s[StripStart(s, cut)..StripEnd(s, cut)]
  }

  /**
   * `s.strip()`: whitespace removed from both ends.  What is left neither
   * starts nor ends with whitespace, and is empty exactly when the input
   * is all whitespace.
   */
  function Strip(s: string): (r: string)
    ensures |r| <= |s|
    ensures r != [] ==> !IsSpace(r[0]) && !IsSpace(r[|r| - 1])
    ensures r == [] <==> forall k :: 0 <= k < |s| ==> IsSpace(s[k])
  {
    StripSlice(s, IsSpace);
    StripEmpty(s, IsSpace);
    StripBy(s, IsSpace)
  }

  /** Everything the forward scan passes over is in the class, and it stops at one that is not. */
  lemma {:induction false} SkipForwardSpec(s: string, cut: char -> bool, i: nat)
    requires i <= |s|
    ensures var j := SkipForward(s, cut, i);
      (forall k :: i <= k < j ==> cut(s[k])) && (j == |s| || !cut(s[j]))
    decreases |s| - i
  {
    if i < |s| && cut(s[i]) {
      SkipForwardSpec(s, cut, i + 1);
    }
  }

  /** Everything the backward scan passes over is in the class, and it stops after one that is not. */
  lemma {:induction false} SkipBackwardSpec(s: string, cut: char -> bool, lo: nat, j: nat)
    requires lo <= j <= |s|
    ensures var k := SkipBackward(s, cut, lo, j);
      (forall m :: k <= m < j ==> cut(s[m])) && (k == lo || !cut(s[k - 1]))
    decreases j
  {
    if lo < j && cut(s[j - 1]) {
      SkipBackwardSpec(s, cut, lo, j - 1);
    }
  }

  /**
   * Everything `strip` cuts off on either side is in the class, and what it
   * keeps neither starts nor ends with a character of the class.
   */
  lemma StripSlice(s: string, cut: char -> bool)
    ensures forall k :: 0 <= k < StripStart(s, cut) ==> cut(s[k])
    ensures forall k :: StripEnd(s, cut) <= k < |s| ==> cut(s[k])
    ensures StripStart(s, cut) == StripEnd(s, cut)
            || (!cut(s[StripStart(s, cut)]) && !cut(s[StripEnd(s, cut) - 1]))
  {
    SkipForwardSpec(s, cut, 0);
    SkipBackwardSpec(s, cut, StripStart(s, cut), |s|);
  }

  /** Stripping twice is stripping once. */
  lemma StripIdempotent(s: string, cut: char -> bool)
    ensures StripBy(StripBy(s, cut), cut) == StripBy(s, cut)
  {
    var r := StripBy(s, cut);
    StripSlice(s, cut);
    if r != [] {
      assert !cut(r[0]) && !cut(r[|r| - 1]);
      assert StripStart(r, cut) == 0;
      assert StripEnd(r, cut) == |r|;
    }
  }

  /** Stripping leaves nothing exactly when every character is in the class. */
  lemma StripEmpty(s: string, cut: char -> bool)
    ensures StripBy(s, cut) == [] <==> forall k :: 0 <= k < |s| ==> cut(s[k])
  {
    SkipForwardSpec(s, cut, 0);
    StripSlice(s, cut);
  }

  /** A character outside the class occurs in the stripped string exactly when it occurs in the input. */
  lemma StripKeeps(s: string, cut: char -> bool, c: char)
    requires !cut(c)
    ensures c in StripBy(s, cut) <==> c in s
  {
    StripSlice(s, cut);
    var lo, hi := StripStart(s, cut), StripEnd(s, cut);
    if c in s {
      var k :| 0 <= k < |s| && s[k] == c;
      assert lo <= k < hi;
      assert StripBy(s, cut)[k - lo] == c;
    }
  }
}
