/** The handful of Ruby string operations the watcher search depends on:
    `String#strip`, `String#downcase`, `String#include?`, ActiveSupport's
    `blank?` and the ordering `String#<=>` that `sort_by` uses. */
module RubyText {

  /** Whitespace as `String#strip` understands it: NUL, tab, line feed,
      vertical tab, form feed, carriage return and space. */
  predicate IsStripSpace(c: char) {
    c == '\0' || c == ' ' || ('\t' <= c <= '\r')
  }

  /** The POSIX class `[[:space:]]` that `String#blank?` matches. */
  predicate IsBlankSpace(c: char) {
    c == ' ' || ('\t' <= c <= '\r') || c == '\U{0085}' || c == '\U{00A0}' || c == '\U{1680}'
    || ('\U{2000}' <= c <= '\U{200A}') || c == '\U{2028}' || c == '\U{2029}'
    || c == '\U{202F}' || c == '\U{205F}' || c == '\U{3000}'
  }

  /** `String#lstrip`: the longest suffix of `s` that does not start with whitespace. */
  function StripLeft(s: string): (r: string)
    ensures |r| <= |s| && r == s[|s| - |r|..]
    ensures r == [] || !IsStripSpace(r[0])
    ensures forall k :: 0 <= k < |s| - |r| ==> IsStripSpace(s[k])
  {
    if s != [] && IsStripSpace(s[0]) then StripLeft(s[1..]) else s
  }

  /** `String#rstrip`: the longest prefix of `s` that does not end with whitespace. */
  function StripRight(s: string): (r: string)
    ensures |r| <= |s| && r == s[..|r|]
    ensures r == [] || !IsStripSpace(r[|r| - 1])
    ensures forall k :: |r| <= k < |s| ==> IsStripSpace(s[k])
  {
    if s != [] && IsStripSpace(s[|s| - 1]) then StripRight(s[..|s| - 1]) else s
  }

  /** `needle` occurs in `hay` starting at index `i`. */
  predicate PartAt(hay: string, needle: string, i: int) {
    0 <= i <= |hay| - |needle| && hay[i..i + |needle|] == needle
  }

  predicate AllStripSpace(s: string) {
    forall k :: 0 <= k < |s| ==> IsStripSpace(s[k])
  }

  /** `String#strip`: `s` with its leading and trailing whitespace cut off. */
  function Strip(s: string): (r: string)
    ensures r == [] || (!IsStripSpace(r[0]) && !IsStripSpace(r[|r| - 1]))
    ensures exists i :: PartAt(s, r, i) && AllStripSpace(s[..i]) && AllStripSpace(s[i + |r|..])
  {
    var l := StripLeft(s);
    var r := StripRight(l);
    PrefixOfSuffix(s, l, r);
    LeadingPart(s, |s| - |l|);
    RestOfSuffix(s, l, r);
    r
  }

  /** `strip` of a core that neither starts nor ends with whitespace, padded
      with whitespace on both sides, is the core. */
  lemma StripPadded(a: string, core: string, b: string)
    requires AllStripSpace(a) && AllStripSpace(b)
    requires core != [] && !IsStripSpace(core[0]) && !IsStripSpace(core[|core| - 1])
    ensures Strip(a + core + b) == core
  {
    var s := a + core + b;
    var e := |a| + |core|;
    forall k | 0 <= k < |a| ensures IsStripSpace(s[k]) {
      assert s[k] == a[k];
    }
    forall k | e <= k < |s| ensures IsStripSpace(s[k]) {
      assert s[k] == b[k - e];
    }
    assert s[|a|] == core[0] && s[e - 1] == core[|core| - 1];
    assert s[|a|..e] == core;
    var r := Strip(s);
    var i :| PartAt(s, r, i) && AllStripSpace(s[..i]) && AllStripSpace(s[i + |r|..]);
    StripBounds(s, r, i, |a|, e);
  }

  /** A part of `s` with only whitespace around it and non-space ends is
      pinned down by the first and the last non-space characters of `s`. */
  lemma StripBounds(s: string, r: string, i: int, lo: int, hi: int)
    requires 0 <= lo < hi <= |s|
    requires forall k :: 0 <= k < lo ==> IsStripSpace(s[k])
    requires forall k :: hi <= k < |s| ==> IsStripSpace(s[k])
    requires !IsStripSpace(s[lo]) && !IsStripSpace(s[hi - 1])
    requires PartAt(s, r, i) && AllStripSpace(s[..i]) && AllStripSpace(s[i + |r|..])
    requires r == [] || (!IsStripSpace(r[0]) && !IsStripSpace(r[|r| - 1]))
    ensures i == lo && i + |r| == hi
  {
    forall k | 0 <= k < i ensures IsStripSpace(s[k]) {
      assert s[..i][k] == s[k];
    }
    forall k | i + |r| <= k < |s| ensures IsStripSpace(s[k]) {
      assert s[i + |r|..][k - (i + |r|)] == s[k];
    }
    assert |r| > 0;
    assert r[0] == s[i] && r[|r| - 1] == s[i + |r| - 1];
  }

  /** A prefix `r` of a suffix `l` of `s` is a part of `s`. */
  lemma PrefixOfSuffix(s: string, l: string, r: string)
    requires |r| <= |l| <= |s| && l == s[|s| - |l|..] && r == l[..|r|]
    ensures PartAt(s, r, |s| - |l|)
  {
    var i := |s| - |l|;
    forall k | 0 <= k < |r| ensures s[i..i + |r|][k] == r[k] {
      assert r[k] == l[k] == s[i + k];
    }
  }

  /** What follows the prefix `r` of the suffix `l` of `s` is what follows `r` in `l`. */
  lemma RestOfSuffix(s: string, l: string, r: string)
    requires |r| <= |l| <= |s| && l == s[|s| - |l|..]
    requires forall k :: |r| <= k < |l| ==> IsStripSpace(l[k])
    ensures AllStripSpace(s[|s| - |l| + |r|..])
  {
    var tail := s[|s| - |l| + |r|..];
    forall k | 0 <= k < |tail| ensures IsStripSpace(tail[k]) {
      assert tail[k] == l[|r| + k];
    }
  }

  lemma LeadingPart(s: string, n: int)
    requires 0 <= n <= |s|
    requires forall k :: 0 <= k < n ==> IsStripSpace(s[k])
    ensures AllStripSpace(s[..n])
  {
    var head := s[..n];
    forall k | 0 <= k < |head| ensures IsStripSpace(head[k]) {
      assert head[k] == s[k];
    }
  }

  /** Stripping twice is stripping once. */
  lemma StripIdempotent(s: string)
    ensures Strip(Strip(s)) == Strip(s)
  {
    var t := Strip(s);
    assert StripLeft(t) == t;
    assert StripRight(t) == t;
  }

  function DowncaseChar(c: char): (d: char)
    ensures 'A' <= c <= 'Z' ==> 'a' <= d <= 'z'
    ensures !('A' <= c <= 'Z') ==> d == c
  {
    if 'A' <= c <= 'Z' then (c as int + 32) as char else c
  }

  /** `String#downcase`, on the ASCII letters. */
  function Downcase(s: string): (r: string)
    ensures |r| == |s|
    ensures forall k :: 0 <= k < |s| ==> r[k] == DowncaseChar(s[k])
  {
    if s == [] then [] else [DowncaseChar(s[0])] + Downcase(s[1..])
  }

  /** `String#include?`, scanning `hay` from the left: `needle` occurs in
      `hay` as a contiguous part. */
  function Contains(hay: string, needle: string): (r: bool)
    ensures r <==> exists i | 0 <= i <= |hay| - |needle| :: PartAt(hay, needle, i)
    decreases |hay|
  {
    if |needle| > |hay| then false
    else if hay[..|needle|] == needle then
      assert PartAt(hay, needle, 0);
      true
    else
      PartAtShift(hay, needle);
      hay != [] && Contains(hay[1..], needle)
  }

  /** An occurrence past the first position of `hay` is an occurrence in `hay[1..]`. */
  lemma PartAtShift(hay: string, needle: string)
    requires hay != [] || needle != []
    requires !(|needle| <= |hay| && hay[..|needle|] == needle)
    ensures (exists i | 0 <= i <= |hay| - |needle| :: PartAt(hay, needle, i))
            <==> hay != [] && exists i | 0 <= i <= |hay| - 1 - |needle| :: PartAt(hay[1..], needle, i)
  {
    if exists i | 0 <= i <= |hay| - |needle| :: PartAt(hay, needle, i) {
      var i :| 0 <= i <= |hay| - |needle| && PartAt(hay, needle, i);
      assert i != 0;
      assert hay[1..][i - 1..i - 1 + |needle|] == hay[i..i + |needle|];
      assert PartAt(hay[1..], needle, i - 1);
    }
    if hay != [] && exists i | 0 <= i <= |hay| - 1 - |needle| :: PartAt(hay[1..], needle, i) {
      var i :| 0 <= i <= |hay| - 1 - |needle| && PartAt(hay[1..], needle, i);
      assert hay[1..][i..i + |needle|] == hay[i + 1..i + 1 + |needle|];
      assert PartAt(hay, needle, i + 1);
    }
  }

  /** ActiveSupport's `String#blank?`: empty or whitespace only. */
  function IsBlank(s: string): (r: bool)
    ensures r <==> forall k :: 0 <= k < |s| ==> IsBlankSpace(s[k])
  {
    if s == [] then true
    else
      assert forall k :: 1 <= k < |s| ==> s[k] == s[1..][k - 1];
      IsBlankSpace(s[0]) && IsBlank(s[1..])
  }

  /** `a <=> b` is not positive: code points compared left to right, a proper
      prefix coming first. */
  predicate LexLe(a: string, b: string) {
    if a == [] then true
    else if b == [] then false
    else if a[0] != b[0] then a[0] < b[0]
    else LexLe(a[1..], b[1..])
  }

  lemma {:induction false} LexLeTotal(a: string, b: string)
    ensures LexLe(a, b) || LexLe(b, a)
  {
    if a != [] && b != [] && a[0] == b[0] {
      LexLeTotal(a[1..], b[1..]);
    }
  }

  lemma {:induction false} LexLeTransitive(a: string, b: string, c: string)
    requires LexLe(a, b) && LexLe(b, c)
    ensures LexLe(a, c)
  {
    if a != [] && b != [] && c != [] && a[0] == b[0] && b[0] == c[0] {
      LexLeTransitive(a[1..], b[1..], c[1..]);
    }
  }
}
