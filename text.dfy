/**
 * The few string operations of Python that the chatbot relies on, restricted
 * to ASCII: `str.lower()`, `str.strip()` and the substring test `needle in hay`.
 * Characters outside ASCII are left unchanged by `Lower` and are never
 * whitespace for `Strip`.
 */
module Text {

  /** Python's `str.isspace()` on ASCII: space, \t \n \v \f \r and the separators \x1c-\x1f. */
  predicate IsSpace(c: char) {
    c == ' ' || '\t' <= c <= '\r' || '\U{001C}' <= c <= '\U{001F}'
  }

  predicate IsUpper(c: char) {
    'A' <= c <= 'Z'
  }

  predicate AllSpace(s: string) {
    forall i :: 0 <= i < |s| ==> IsSpace(s[i])
  }

  /** No ASCII upper-case letter anywhere in `s`. */
  predicate IsLowerCase(s: string) {
    forall i :: 0 <= i < |s| ==> !IsUpper(s[i])
  }

  /** Neither the first nor the last character is whitespace. */
  predicate IsTrimmed(s: string) {
    s == [] || (!IsSpace(s[0]) && !IsSpace(s[|s| - 1]))
  }

  /** One character of `str.lower()`: an ASCII capital becomes its small letter, anything else is kept. */
  function LowerChar(c: char): (d: char)
    ensures IsUpper(c) ==> d == "abcdefghijklmnopqrstuvwxyz"[c as int - 'A' as int]
    ensures !IsUpper(d)
    ensures IsSpace(d) <==> IsSpace(c)
    ensures !IsUpper(c) ==> d == c
  {
    if IsUpper(c) then (c as int + 32) as char else c
  }

  /** Python's `s.lower()`: every ASCII upper-case letter replaced by its lower-case letter. */
  function Lower(s: string): (r: string)
    ensures |r| == |s| && forall i :: 0 <= i < |s| ==> r[i] == LowerChar(s[i])
    ensures IsLowerCase(r)
  {
    seq(|s|, i requires 0 <= i < |s| => LowerChar(s[i]))
  }

  /** Every character of `s` before index `i`, and from index `i + n` on, is whitespace. */
  predicate SpaceAround(s: string, i: int, n: int) {
    && (forall k :: 0 <= k < i && k < |s| ==> IsSpace(s[k]))
    && (forall k :: 0 <= i + n <= k < |s| ==> IsSpace(s[k]))
  }

  /** The first index at or after `i` that does not hold whitespace, or `|s|`. */
  function SkipSpaceForward(s: string, i: nat): (j: nat)
    requires i <= |s|
    ensures i <= j <= |s| && (j < |s| ==> !IsSpace(s[j]))
    ensures forall k :: i <= k < j ==> IsSpace(s[k])
    decreases |s| - i
  {
    if i < |s| && IsSpace(s[i]) then SkipSpaceForward(s, i + 1) else i
  }

  /** The least `j` no smaller than `lo` such that `s[j..hi]` is all whitespace. */
  function SkipSpaceBackward(s: string, lo: nat, hi: nat): (j: nat)
    requires lo <= hi <= |s|
    ensures lo <= j <= hi && (j > lo ==> !IsSpace(s[j - 1]))
    ensures forall k :: j <= k < hi ==> IsSpace(s[k])
    decreases hi
  {
    if hi > lo && IsSpace(s[hi - 1]) then SkipSpaceBackward(s, lo, hi - 1) else hi
  }

  /**
   * Python's `s.strip()`: the slice of `s` that has no whitespace at either
   * end and is surrounded in `s` by whitespace only.
   */
  function Strip(s: string): (r: string)
    ensures IsTrimmed(r)
    ensures exists i :: 0 <= i <= |s| - |r| && r == s[i..i + |r|] && SpaceAround(s, i, |r|)
  {
    var i := SkipSpaceForward(s, 0);
    var j := SkipSpaceBackward(s, i, |s|);
    assert SpaceAround(s, i, j - i);
    s[i..j]
  }

  /** Only one slice fits that description, so `Strip` is determined by it. */
  lemma StripUnique(s: string, i: nat, n: nat)
    requires i + n <= |s| && IsTrimmed(s[i..i + n]) && SpaceAround(s, i, n)
    ensures Strip(s) == s[i..i + n]
  {
    var r := Strip(s);
    var i' :| 0 <= i' <= |s| - |r| && r == s[i'..i' + |r|] && SpaceAround(s, i', |r|);
    if r != [] {
      assert s[i'] == r[0] && s[i' + |r| - 1] == r[|r| - 1];
      assert !IsSpace(s[i']) && !IsSpace(s[i' + |r| - 1]);
    }
    if n != 0 {
      assert s[i] == s[i..i + n][0] && s[i + n - 1] == s[i..i + n][n - 1];
      assert !IsSpace(s[i]) && !IsSpace(s[i + n - 1]);
    }
    if n != 0 && r != [] {
      assert !(i < i') && !(i' < i);
      assert !(i + n < i' + |r|) && !(i' + |r| < i + n);
    }
  }

  /** `s.strip().lower()`, the normalisation applied to item names and to the classifier's answer. */
  function Clean(s: string): (r: string)
    ensures IsLowerCase(r) && IsTrimmed(r)
    ensures |r| <= |s|
  {
    Lower(Strip(s))
  }

  /** A name as the catalog stores it: non-empty, lower-case, no surrounding whitespace. */
  predicate IsCleanName(s: string) {
    s != [] && IsLowerCase(s) && IsTrimmed(s)
  }

  /** Surrounding whitespace, however much, is exactly what `Strip` removes. */
  lemma StripPadding(pre: string, s: string, post: string)
    requires AllSpace(pre) && AllSpace(post) && IsTrimmed(s)
    ensures Strip(pre + s + post) == s
  {
    var x := pre + s + post;
    assert x[|pre|..|pre| + |s|] == s;
    forall k | 0 <= k < |x| && (k < |pre| || |pre| + |s| <= k) ensures IsSpace(x[k]) {
      if k < |pre| { assert x[k] == pre[k]; } else { assert x[k] == post[k - |pre| - |s|]; }
    }
    StripUnique(x, |pre|, |s|);
  }

  /** `needle` occurs in `hay` starting at index `i`. */
  ghost predicate OccursAt(needle: string, hay: string, i: int) {
    0 <= i && i + |needle| <= |hay| && hay[i..i + |needle|] == needle
  }

  /** Python's `needle in hay` on strings. */
  function Contains(hay: string, needle: string): (r: bool)
    ensures r <==> exists i :: OccursAt(needle, hay, i)
    decreases |hay|
  {
    if |needle| > |hay| then false
    else if hay[..|needle|] == needle then
      assert OccursAt(needle, hay, 0);
      true
    else
      ContainsShift(hay, needle);
      Contains(hay[1..], needle)
  }

  lemma ContainsShift(hay: string, needle: string)
    requires |needle| <= |hay| && hay[..|needle|] != needle
    ensures (exists i :: OccursAt(needle, hay[1..], i)) <==> (exists i :: OccursAt(needle, hay, i))
  {
    if exists i :: OccursAt(needle, hay[1..], i) {
      var i :| OccursAt(needle, hay[1..], i);
      assert hay[1..][i..i + |needle|] == hay[i + 1..i + 1 + |needle|];
      assert OccursAt(needle, hay, i + 1);
    }
    if exists i :: OccursAt(needle, hay, i) {
      var i :| OccursAt(needle, hay, i);
      assert i != 0;
      assert hay[1..][i - 1..i - 1 + |needle|] == hay[i..i + |needle|];
      assert OccursAt(needle, hay[1..], i - 1);
    }
  }

  /** Two strings that differ only in the case of ASCII letters. */
  predicate SameIgnoringCase(s: string, t: string) {
    |s| == |t| && forall i :: 0 <= i < |s| ==> LowerChar(s[i]) == LowerChar(t[i])
  }

  lemma SameIgnoringCaseLower(s: string, t: string)
    requires SameIgnoringCase(s, t)
    ensures Lower(s) == Lower(t)
  {
  }
}
