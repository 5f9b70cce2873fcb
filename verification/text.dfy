/**
 * The few Python string operations the dashboard script relies on, over
 * code points: `startswith`, `in` on strings, `strip()`, `lower()`.
 */
module Text {

  /** `s.startswith(pre)`: `pre` agrees with the start of `s`, character by character. */
  predicate IsPrefix(pre: string, s: string)
    ensures IsPrefix(pre, s) <==> |pre| <= |s| && forall k :: 0 <= k < |pre| ==> pre[k] == s[k]
  {
    |pre| <= |s| && s[..|pre|] == pre
  }

  /** `sub` occurs in `s` starting at position `i`. */
  predicate OccursAt(s: string, sub: string, i: nat) {
    i + |sub| <= |s| && s[i..i + |sub|] == sub
  }

  /** `sub in s`: `sub` occurs in `s` at some position. */
  predicate Contains(s: string, sub: string)
    ensures Contains(s, sub) <==> exists i: nat :: OccursAt(s, sub, i)
    decreases |s|
  {
    if IsPrefix(sub, s) then
      assert OccursAt(s, sub, 0);
      true
    else if s == [] then false
    else
      OccursShift(s, sub);
      Contains(s[1..], sub)
  }

  /** Past the first position, the occurrences in `s` are those in `s[1..]`, one position later. */
  lemma OccursShift(s: string, sub: string)
    requires s != [] && !IsPrefix(sub, s)
    ensures (exists i: nat :: OccursAt(s[1..], sub, i)) <==> (exists i: nat :: OccursAt(s, sub, i))
  {
    if exists i: nat :: OccursAt(s[1..], sub, i) {
      var i: nat :| OccursAt(s[1..], sub, i);
      assert s[i + 1..i + 1 + |sub|] == s[1..][i..i + |sub|];
      assert OccursAt(s, sub, i + 1);
    }
    if exists i: nat :: OccursAt(s, sub, i) {
      var i: nat :| OccursAt(s, sub, i);
      assert i != 0;
      assert s[1..][i - 1..i - 1 + |sub|] == s[i..i + |sub|];
      assert OccursAt(s[1..], sub, i - 1);
    }
  }

  /**
   * Python's whitespace (`str.isspace()`, and `\s` in a `str` pattern of the
   * `re` module): the ASCII controls TAB..CR and FS..US, the space, NEL,
   * NO-BREAK SPACE and the Unicode space separators and line/paragraph separators.
   */
  predicate IsSpace(c: char) {
    var n := c as int;
    (0x09 <= n <= 0x0D) || (0x1C <= n <= 0x20) || n == 0x85 || n == 0xA0 || n == 0x1680
    || (0x2000 <= n <= 0x200A) || n == 0x2028 || n == 0x2029 || n == 0x202F
    || n == 0x205F || n == 0x3000
  }

  /** `s.lstrip()`: drops the leading whitespace and nothing else. */
  function LStrip(s: string): (r: string)
    ensures |r| <= |s| && r == s[|s| - |r|..]
    ensures forall k :: 0 <= k < |s| - |r| ==> IsSpace(s[k])
    ensures r == [] || !IsSpace(r[0])
  {
    if s != [] && IsSpace(s[0]) then LStrip(s[1..]) else s
  }

  /** `s.rstrip()`: drops the trailing whitespace and nothing else. */
  function RStrip(s: string): (r: string)
    ensures |r| <= |s| && r == s[..|r|]
    ensures forall k :: |r| <= k < |s| ==> IsSpace(s[k])
    ensures r == [] || !IsSpace(r[|r| - 1])
  {
    if s != [] && IsSpace(s[|s| - 1]) then RStrip(s[..|s| - 1]) else s
  }

  /** `r` is `s` with the whitespace before position `i` and after `r` removed. */
  predicate StripsTo(s: string, r: string, i: nat) {
    i + |r| <= |s| && r == s[i..i + |r|]
    && (forall k :: 0 <= k < i ==> IsSpace(s[k]))
    && (forall k :: i + |r| <= k < |s| ==> IsSpace(s[k]))
  }

  /** `s.strip()`: the part of `s` left between its leading and its trailing whitespace. */
  function Strip(s: string): (r: string)
    ensures exists i: nat :: StripsTo(s, r, i)
    ensures r == [] || (!IsSpace(r[0]) && !IsSpace(r[|r| - 1]))
  {
    var l := LStrip(s);
    var r := RStrip(l);
    assert StripsTo(s, r, |s| - |l|) by {
      assert r == l[..|r|];
      forall k | |s| - |l| + |r| <= k < |s|
        ensures IsSpace(s[k])
      {
        assert s[k] == l[k - (|s| - |l|)];
      }
    }
    r
  }

  /**
   * Lower-casing of the ASCII capitals. Python's `lower()` also maps non-ASCII
   * letters, but none of them maps to one of the ASCII letters of "release", and
   * the only non-ASCII letters that lower-case to ASCII at all (the Kelvin sign
   * and the dotted capital I) give `k` and `i`; so a search for "release" in
   * `name.lower()` has the same answer over this lowering.
   */
  function LowerChar(c: char): char {
    if 'A' <= c <= 'Z' then (c as int + 32) as char else c
  }

  function Lower(s: string): (r: string)
    ensures |r| == |s|
    ensures forall k :: 0 <= k < |s| ==> r[k] == LowerChar(s[k])
  {
    if s == [] then [] else [LowerChar(s[0])] + Lower(s[1..])
  }

  /** A prefix of a prefix is a prefix. */
  lemma PrefixTransitive(a: string, b: string, c: string)
    requires IsPrefix(a, b) && IsPrefix(b, c)
    ensures IsPrefix(a, c)
  {
    assert c[..|a|] == c[..|b|][..|a|];
  }

  /** Stripping only removes whitespace: it cannot change whether a string starts with a `pre` that ends in a non-space. */
  lemma StripKeepsPrefix(s: string, pre: string)
    requires pre != [] && !IsSpace(pre[|pre| - 1])
    ensures IsPrefix(pre, Strip(s)) <==> IsPrefix(pre, LStrip(s))
  {
    var l := LStrip(s);
    var r := RStrip(l);
    if IsPrefix(pre, l) {
      assert l[|pre| - 1] == pre[|pre| - 1];
      assert |pre| <= |r|;
      assert r[..|pre|] == l[..|pre|];
    }
    if IsPrefix(pre, r) {
      assert l[..|pre|] == r[..|pre|];
    }
  }
}
