/** Character classes and small scanning helpers shared by every matcher.

    Ruby's `\d`, `\h` and `\w` are taken over ASCII only: digits `0-9`, hex
    digits `0-9a-fA-F`, and word characters `A-Za-z0-9_`.
 */
module Chars {

  datatype Option<+T> = None | Some(value: T)

  /** The single placeholder that replaces every literal and comment. */
  const Placeholder: char := '?'

  predicate IsDigit(c: char) { '0' <= c <= '9' }

  predicate IsHexDigit(c: char) { IsDigit(c) || 'a' <= c <= 'f' || 'A' <= c <= 'F' }

  predicate IsWordChar(c: char) { IsDigit(c) || 'a' <= c <= 'z' || 'A' <= c <= 'Z' || c == '_' }

  predicate IsLineBreak(c: char) { c == '\r' || c == '\n' }

  /** ASCII lower-casing, as used by a case-insensitive match. */
  function Lower(c: char): char {
    if 'A' <= c <= 'Z' then (c as int + 32) as char else c
  }

  /** There is a word character at offset `k` (offsets outside `s` hold none). */
  predicate WordAt(s: string, k: int) { 0 <= k < |s| && IsWordChar(s[k]) }

  /** Ruby's `\b` at offset `p`: a word character on exactly one side of it. */
  predicate Boundary(s: string, p: int) { WordAt(s, p - 1) != WordAt(s, p) }

  /** `t` occurs in `s` starting at offset `k`. */
  predicate OccursAt(s: string, t: string, k: int) {
    0 <= k && k + |t| <= |s| && s[k..k + |t|] == t
  }

  /** Every character of `s[a..b]` is a digit. */
  predicate AllDigits(s: string, a: int, b: int) {
    0 <= a <= b <= |s| && forall k :: a <= k < b ==> IsDigit(s[k])
  }

  /** Every character of `s[a..b]` is a hex digit. */
  predicate AllHex(s: string, a: int, b: int) {
    0 <= a <= b <= |s| && forall k :: a <= k < b ==> IsHexDigit(s[k])
  }

  /** Length of the longest run of digits starting at `p`. */
  function DigitRun(s: string, p: nat): (n: nat)
    requires p <= |s|
    ensures p + n <= |s|
    ensures forall k :: p <= k < p + n ==> IsDigit(s[k])
    ensures p + n == |s| || !IsDigit(s[p + n])
    decreases |s| - p
  {
    if p < |s| && IsDigit(s[p]) then 1 + DigitRun(s, p + 1) else 0
  }

  /** Length of the longest run of hex digits starting at `p`. */
  function HexRun(s: string, p: nat): (n: nat)
    requires p <= |s|
    ensures AllHex(s, p, p + n)
    ensures p + n == |s| || !IsHexDigit(s[p + n])
    decreases |s| - p
  {
    if p < |s| && IsHexDigit(s[p]) then 1 + HexRun(s, p + 1) else 0
  }

  /** The first offset at or after `p` where `t` occurs: a lazy `.*?t`. */
  function FindFrom(s: string, t: string, p: nat): (r: Option<nat>)
    requires p <= |s|
    ensures r.Some? ==> p <= r.value && OccursAt(s, t, r.value)
    ensures r.Some? ==> forall k :: p <= k < r.value ==> !OccursAt(s, t, k)
    ensures r.None? ==> forall k :: p <= k ==> !OccursAt(s, t, k)
    decreases |s| - p
  {
    if OccursAt(s, t, p) then Some(p)
    else if p + |t| >= |s| then None
    else FindFrom(s, t, p + 1)
  }

  /** An occurrence of `a + b` is an occurrence of `a` followed by one of `b`. */
  lemma OccursSplit(s: string, a: string, b: string, k: int)
    requires OccursAt(s, a + b, k)
    ensures OccursAt(s, a, k) && OccursAt(s, b, k + |a|)
  {
    assert s[k..k + |a|] == s[k..k + |a + b|][..|a|];
    assert s[k + |a|..k + |a| + |b|] == s[k..k + |a + b|][|a|..];
  }

  lemma OccursAtOne(s: string, c: char, k: int)
    ensures OccursAt(s, [c], k) <==> 0 <= k < |s| && s[k] == c
  {
    if 0 <= k < |s| {
      assert s[k..k + 1] == [s[k]];
    }
  }

  lemma OccursAtTwo(s: string, a: char, b: char, k: int)
    ensures OccursAt(s, [a, b], k) <==> 0 <= k && k + 1 < |s| && s[k] == a && s[k + 1] == b
  {
    if 0 <= k && k + 1 < |s| {
      assert s[k..k + 2] == [s[k], s[k + 1]];
    }
  }

  lemma OccursAtThree(s: string, a: char, b: char, c: char, k: int)
    ensures OccursAt(s, [a, b, c], k) <==> 0 <= k && k + 2 < |s| && s[k] == a && s[k + 1] == b && s[k + 2] == c
  {
    if 0 <= k && k + 2 < |s| {
      assert s[k..k + 3] == [s[k], s[k + 1], s[k + 2]];
    }
  }
}
