/** The three functions of Go's `strings` package that the level translator
    relies on. A string is a sequence of Unicode code points. */
module Strings {

  /** Go's `unicode.IsSpace`: the ASCII spaces, NEL, NO-BREAK SPACE and the
      other code points of Unicode's White_Space property. */
  predicate IsSpace(c: char) {
    c == ' ' || c == '\t' || c == '\n' || c == '\U{000B}' || c == '\U{000C}' || c == '\r'
    || c == '\U{0085}' || c == '\U{00A0}' || c == '\U{1680}'
    || ('\U{2000}' <= c <= '\U{200A}')
    || c == '\U{2028}' || c == '\U{2029}' || c == '\U{202F}' || c == '\U{205F}' || c == '\U{3000}'
  }

  /** Every code point of `s[lo..hi]` is white space. */
  predicate SpaceBetween(s: string, lo: nat, hi: nat)
    requires lo <= hi <= |s|
  {
    forall p :: lo <= p < hi ==> IsSpace(s[p])
  }

  predicate AllSpace(s: string) {
    SpaceBetween(s, 0, |s|)
  }

  /** The first index at or after `i` that does not hold white space, or
      `|s|` when there is none. */
  function SkipSpaces(s: string, i: nat): (k: nat)
    requires i <= |s|
    ensures i <= k <= |s| && SpaceBetween(s, i, k)
    ensures k == |s| || !IsSpace(s[k])
    decreases |s| - i
  {
    if i == |s| || !IsSpace(s[i]) then i else SkipSpaces(s, i + 1)
  }

  /** Going down from `j` but not below `lo`: the end of the last code point
      that is not white space, or `lo` when there is none. */
  function SkipSpacesBack(s: string, lo: nat, j: nat): (k: nat)
    requires lo <= j <= |s|
    ensures lo <= k <= j && SpaceBetween(s, k, j)
    ensures k == lo || !IsSpace(s[k - 1])
    decreases j
  {
    if j == lo || !IsSpace(s[j - 1]) then j else SkipSpacesBack(s, lo, j - 1)
  }

  /** Go's `strings.TrimSpace`: a scan from the front for the first
      non-space, then a scan from the back that stops at it. */
  function TrimSpace(s: string): (r: string)
    ensures r == [] || (!IsSpace(r[0]) && !IsSpace(r[|r| - 1]))
    ensures r == [] <==> AllSpace(s)
  {
    var i := SkipSpaces(s, 0);
    var j := SkipSpacesBack(s, i, |s|);
    assert i == j ==> SpaceBetween(s, 0, |s|);
    s[i..j]
  }

  /** Go's `unicode.ToLower`, restricted to the ASCII letters. */
  function LowerChar(c: char): char {
    if 'A' <= c <= 'Z' then (c as int + 32) as char else c
  }

  /** Go's `strings.ToLower`, restricted to the ASCII letters: every code
      point is lowered on its own and no ASCII capital is left. */
  function ToLower(s: string): (r: string)
    ensures |r| == |s|
    ensures forall i :: 0 <= i < |s| ==> r[i] == LowerChar(s[i])
    ensures forall i :: 0 <= i < |r| ==> !('A' <= r[i] <= 'Z')
    ensures forall i :: 0 <= i < |r| ==> (IsSpace(r[i]) <==> IsSpace(s[i]))
  {
    seq(|s|, i requires 0 <= i < |s| => LowerChar(s[i]))
  }

  /** `sub` occurs in `s` starting at index `i`. */
  predicate OccursAt(sub: string, s: string, i: int) {
    0 <= i && i + |sub| <= |s| && s[i..i + |sub|] == sub
  }

  /** Whether `sub` occurs in `s` at index `i` or later: each candidate
      position is tried in turn. */
  function ContainsFrom(s: string, sub: string, i: nat): (r: bool)
    ensures r <==> exists k :: i <= k && OccursAt(sub, s, k)
    decreases |s| - i
  {
    if i + |sub| > |s| then false
    else if s[i..i + |sub|] == sub then
      assert OccursAt(sub, s, i);
      true
    else
      ContainsFrom(s, sub, i + 1)
  }

  /** Go's `strings.Contains`. */
  function Contains(s: string, sub: string): (r: bool)
    ensures r <==> exists i :: OccursAt(sub, s, i)
  {
    ContainsFrom(s, sub, 0)
  }

  /** Containment is transitive. */
  lemma ContainsTransitive(s: string, mid: string, sub: string)
    requires Contains(s, mid) && Contains(mid, sub)
    ensures Contains(s, sub)
  {
    var i :| OccursAt(mid, s, i);
    var j :| OccursAt(sub, mid, j);
    forall k | 0 <= k < |sub| ensures s[i + j + k] == sub[k] {
      assert mid[j + k] == sub[k];
      assert s[i + (j + k)] == mid[j + k];
    }
    assert s[i + j..i + j + |sub|] == sub;
    assert OccursAt(sub, s, i + j);
  }

  /** Lower-casing twice is lower-casing once. */
  lemma ToLowerIdempotent(s: string)
    ensures ToLower(ToLower(s)) == ToLower(s)
  {
    var t := ToLower(s);
    forall i | 0 <= i < |t| ensures ToLower(t)[i] == t[i] {
    }
  }

  /** Lower-casing commutes with slicing. */
  lemma ToLowerSlice(s: string, i: nat, j: nat)
    requires i <= j <= |s|
    ensures ToLower(s[i..j]) == ToLower(s)[i..j]
  {
    var l, r := ToLower(s[i..j]), ToLower(s)[i..j];
    forall k | 0 <= k < |l| ensures l[k] == r[k] {
      assert s[i..j][k] == s[i + k];
    }
  }

  /** TrimSpace keeps exactly the slice `s[i..j]` when that slice starts
      and ends with a non-space and only white space lies around it. */
  lemma TrimSpaceUnique(s: string, i: nat, j: nat)
    requires i < j <= |s| && SpaceBetween(s, 0, i) && SpaceBetween(s, j, |s|)
    requires !IsSpace(s[i]) && !IsSpace(s[j - 1])
    ensures TrimSpace(s) == s[i..j]
  {
    var k := SkipSpaces(s, 0);
    assert k == i;
    var m := SkipSpacesBack(s, i, |s|);
    assert m == j;
  }

  /** Where the text that TrimSpace keeps starts and ends. */
  lemma TrimSpaceBounds(s: string) returns (i: nat, j: nat)
    ensures i <= j <= |s| && TrimSpace(s) == s[i..j]
    ensures SpaceBetween(s, 0, i) && SpaceBetween(s, j, |s|)
    ensures i < j ==> !IsSpace(s[i]) && !IsSpace(s[j - 1])
  {
    i := SkipSpaces(s, 0);
    j := SkipSpacesBack(s, i, |s|);
  }

  /** Trimming twice is trimming once. */
  lemma TrimSpaceIdempotent(s: string)
    ensures TrimSpace(TrimSpace(s)) == TrimSpace(s)
  {
    var r := TrimSpace(s);
    if r != [] {
      TrimSpaceUnique(r, 0, |r|);
    }
  }

  /** Trimming and lower-casing may be done in either order. */
  lemma TrimSpaceToLower(s: string)
    ensures TrimSpace(ToLower(s)) == ToLower(TrimSpace(s))
  {
    var i, j := TrimSpaceBounds(s);
    var l := ToLower(s);
    ToLowerSlice(s, i, j);
    if i < j {
      TrimSpaceUnique(l, i, j);
    }
  }

  /** White space added around a string is trimmed away again. */
  lemma TrimSpacePadding(pre: string, s: string, post: string)
    requires AllSpace(pre) && AllSpace(post)
    ensures TrimSpace(pre + s + post) == TrimSpace(s)
  {
    var i, j := TrimSpaceBounds(s);
    PaddedFront(pre, s, post, i);
    PaddedBack(pre, s, post, j);
    PaddedMiddle(pre, s, post, i, j);
    TrimAround(pre + s + post, s, |pre|, i, j);
  }

  /** `x` holds `s[i..j]` at offset `n` with only white space around it. */
  lemma TrimAround(x: string, s: string, n: nat, i: nat, j: nat)
    requires i <= j <= |s| && n + j <= |x|
    requires SpaceBetween(x, 0, n + i) && SpaceBetween(x, n + j, |x|)
    requires x[n + i..n + j] == s[i..j]
    requires i < j ==> !IsSpace(s[i]) && !IsSpace(s[j - 1])
    ensures TrimSpace(x) == s[i..j]
  {
    if i < j {
      assert x[n + i] == s[i..j][0] && x[n + j - 1] == s[i..j][j - i - 1];
      TrimSpaceUnique(x, n + i, n + j);
    } else {
      assert AllSpace(x);
    }
  }

  lemma PaddedFront(pre: string, s: string, post: string, i: nat)
    requires AllSpace(pre) && i <= |s| && SpaceBetween(s, 0, i)
    ensures SpaceBetween(pre + s + post, 0, |pre| + i)
  {
    var x := pre + s + post;
    forall p | 0 <= p < |pre| + i ensures IsSpace(x[p]) {
      if p >= |pre| { assert x[p] == s[p - |pre|]; }
    }
  }

  lemma PaddedBack(pre: string, s: string, post: string, j: nat)
    requires AllSpace(post) && j <= |s| && SpaceBetween(s, j, |s|)
    ensures SpaceBetween(pre + s + post, |pre| + j, |pre + s + post|)
  {
    var x := pre + s + post;
    forall p | |pre| + j <= p < |x| ensures IsSpace(x[p]) {
      if p < |pre| + |s| { assert x[p] == s[p - |pre|]; }
      else { assert x[p] == post[p - |pre| - |s|]; }
    }
  }

  lemma PaddedMiddle(pre: string, s: string, post: string, i: nat, j: nat)
    requires i <= j <= |s|
    ensures (pre + s + post)[|pre| + i..|pre| + j] == s[i..j]
  {
    var x := pre + s + post;
    forall p | i <= p < j ensures x[|pre| + p] == s[p] {
    }
  }

  /** Text without ASCII capitals is its own lower-case form. */
  lemma ToLowerNoCapitals(s: string)
    requires forall i :: 0 <= i < |s| ==> !('A' <= s[i] <= 'Z')
    ensures ToLower(s) == s
  {
  }

  /** Text that neither starts nor ends with white space is its own trimmed form. */
  lemma TrimSpaceUnpadded(s: string)
    requires s == [] || (!IsSpace(s[0]) && !IsSpace(s[|s| - 1]))
    ensures TrimSpace(s) == s
  {
    if s != [] {
      TrimSpaceUnique(s, 0, |s|);
    }
  }

  /** A string cannot contain a string that has a code point it lacks. */
  lemma MissingChar(s: string, sub: string, c: char)
    requires c in sub && c !in s
    ensures !Contains(s, sub)
  {
  }
}
