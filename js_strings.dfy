/**
 * The JavaScript string methods the pages use: `slice` with its negative
 * (from the end) indices, `toLowerCase` and `includes`. A string is a
 * sequence of characters.
 */
module JsStrings {
  /** How `slice` resolves one index against a string of length `len`:
      a negative index counts from the end, and both are clamped to [0, len]. */
  function ResolveIndex(i: int, len: nat): (k: nat)
    ensures k <= len
    ensures 0 <= i <= len ==> k == i
    ensures i > len ==> k == len
    ensures i < 0 && len + i >= 0 ==> k == len + i
    ensures len + i < 0 ==> k == 0
  {
    if i < 0 then (if len + i < 0 then 0 else len + i)
    else if i > len then len
    else i
  }

  /** `s.slice(start, end)` */
  function Slice(s: string, start: int, end: int): (r: string)
    ensures |r| <= |s|
    // dropping `start` characters at the front and `-end` at the back
    ensures 0 <= start && end < 0 && start - end <= |s| ==> r == s[start..|s| + end]
    ensures 0 <= start && end < 0 && start - end >= |s| ==> r == ""
  {
    var from, to := ResolveIndex(start, |s|), ResolveIndex(end, |s|);
    if from < to then s[from..to] else ""
  }

  /** `s.slice(start)` */
  function SliceFrom(s: string, start: int): (r: string)
    ensures 0 <= start <= |s| ==> r == s[start..]
    ensures start >= |s| ==> r == ""
  {
    Slice(s, start, |s|)
  }

  /** Slicing off a wrapper of known lengths gives back what it wrapped. */
  lemma SliceUnwraps(open: string, body: string, close: string)
    requires |close| > 0
    ensures Slice(open + body + close, |open|, -|close|) == body
  {
    var s := open + body + close;
    assert s[|open|..|s| - |close|] == body;
  }

  /** Dropping a known prefix gives back the rest. */
  lemma SliceFromUnwraps(open: string, rest: string)
    ensures SliceFrom(open + rest, |open|) == rest
  {
    assert (open + rest)[|open|..] == rest;
  }

  /** `slice(k)` follows a growing string: the slice of a prefix is a
      prefix of the slice of the whole. */
  lemma SliceFromPrefix(s: string, t: string, k: nat)
    requires s <= t
    ensures SliceFrom(s, k) <= SliceFrom(t, k)
  {
    if k <= |s| {
      assert t[k..][..|s| - k] == s[k..];
    }
  }

  /** Lower case of one character, for the ASCII letters. */
  function LowerChar(c: char): (d: char)
    ensures 'A' <= c <= 'Z' ==> d as int == c as int + 32
    ensures !('A' <= c <= 'Z') ==> d == c
    ensures !('A' <= d <= 'Z')
  {
    if 'A' <= c <= 'Z' then (c as int + 32) as char else c
  }

  /** `s.toLowerCase()` on the ASCII letters. */
  function ToLower(s: string): (r: string)
    ensures |r| == |s|
    ensures forall i :: 0 <= i < |s| ==> r[i] == LowerChar(s[i])
  {
    seq(|s|, i requires 0 <= i < |s| => LowerChar(s[i]))
  }

  /** Lowering twice is lowering once. */
  lemma ToLowerIdempotent(s: string)
    ensures ToLower(ToLower(s)) == ToLower(s)
  {
    var l := ToLower(s);
    assert forall i :: 0 <= i < |l| ==> LowerChar(l[i]) == l[i];
  }

  /** `sub` occurs in `s` starting at index `i`. */
  predicate OccursAt(s: string, sub: string, i: int) {
    0 <= i && i + |sub| <= |s| && s[i..i + |sub|] == sub
  }

  /** `s.includes(sub)` */
  predicate Contains(s: string, sub: string) {
    exists i | 0 <= i <= |s| - |sub| :: OccursAt(s, sub, i)
  }

  /** A string contains whatever sits inside it. */
  lemma ContainsMiddle(a: string, sub: string, b: string)
    ensures Contains(a + sub + b, sub)
  {
    var s := a + sub + b;
    assert s[|a|..|a| + |sub|] == sub;
    assert OccursAt(s, sub, |a|);
  }

  /** A character of `sub` that `s` lacks rules out an occurrence. */
  lemma MissingCharExcludes(s: string, sub: string, k: nat)
    requires k < |sub| && sub[k] !in s
    ensures !Contains(s, sub)
  {
    forall i | 0 <= i <= |s| - |sub|
      ensures !OccursAt(s, sub, i)
    {
      assert s[i + k] in s;
      assert s[i..i + |sub|][k] == s[i + k];
    }
  }

  /** When the first character of `sub` is missing from every position an
      occurrence could start at, there is none. */
  lemma LateStartExcludes(s: string, sub: string, n: nat)
    requires 0 < |sub| && |s| - |sub| < n <= |s| && sub[0] !in s[..n]
    ensures !Contains(s, sub)
  {
    forall i | 0 <= i <= |s| - |sub|
      ensures !OccursAt(s, sub, i)
    {
      assert s[..n][i] == s[i];
      assert s[i..i + |sub|][0] == s[i];
    }
  }

  /** Lowering introduces a lower-case letter only where the text has it
      in either case. */
  lemma LowerKeepsAbsent(s: string, c: char)
    requires 'a' <= c <= 'z' && c !in s && (c as int - 32) as char !in s
    ensures c !in ToLower(s)
  {
    forall i | 0 <= i < |s|
      ensures ToLower(s)[i] != c
    {
      assert s[i] in s;
    }
  }

  /** Lowering commutes with taking a prefix. */
  lemma LowerPrefix(s: string, n: nat)
    requires n <= |s|
    ensures ToLower(s)[..n] == ToLower(s[..n])
  {
  }

  /** A lower-case letter of `sub` that `s` lacks in either case rules out
      an occurrence in the lowered text. */
  lemma AbsentLetterExcludes(s: string, sub: string, k: nat)
    requires k < |sub| && 'a' <= sub[k] <= 'z'
    requires sub[k] !in s && (sub[k] as int - 32) as char !in s
    ensures !Contains(ToLower(s), sub)
  {
    LowerKeepsAbsent(s, sub[k]);
    MissingCharExcludes(ToLower(s), sub, k);
  }
}
