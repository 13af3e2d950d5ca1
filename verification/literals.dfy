/** The constant rules: UUID, NUMBER, BOOLEAN and HEXADECIMAL
    (lib/squelch/patterns.rb). */
module Literals {
  import opened Chars

  /** Offsets of the four dashes within the 36 characters of `8-4-4-4-12`. */
  predicate IsDashSlot(n: int) { n == 8 || n == 13 || n == 18 || n == 23 }

  /** The canonical 8-4-4-4-12 grouping of hex digits starts at `p`. */
  predicate CanonicalUuidAt(s: string, p: int) {
    0 <= p && p + 36 <= |s|
    && forall n :: 0 <= n < 36 ==> if IsDashSlot(n) then s[p + n] == '-' else IsHexDigit(s[p + n])
  }

  predicate DashAt(s: string, p: int) { 0 <= p < |s| && s[p] == '-' }

  /** The groups `\h{8}\-\h{4}\-\h{4}\-\h{4}\-\h{12}`, one after the other. */
  predicate UuidGroupsAt(s: string, p: int) {
    && 0 <= p
    && AllHex(s, p, p + 8) && DashAt(s, p + 8)
    && AllHex(s, p + 9, p + 13) && DashAt(s, p + 13)
    && AllHex(s, p + 14, p + 18) && DashAt(s, p + 18)
    && AllHex(s, p + 19, p + 23) && DashAt(s, p + 23)
    && AllHex(s, p + 24, p + 36)
  }

  lemma UuidGroupsAreCanonical(s: string, p: int)
    ensures UuidGroupsAt(s, p) <==> CanonicalUuidAt(s, p)
  {
    if UuidGroupsAt(s, p) {
      forall n | 0 <= n < 36
        ensures if IsDashSlot(n) then s[p + n] == '-' else IsHexDigit(s[p + n])
      {
        if n < 8 {} else if n < 13 {} else if n < 18 {} else if n < 23 {} else {}
      }
    }
    if CanonicalUuidAt(s, p) {
      forall k | p <= k < p + 36 && !IsDashSlot(k - p) ensures IsHexDigit(s[k]) {
        assert s[p + (k - p)] == s[k];
      }
      assert IsDashSlot(8) && IsDashSlot(13) && IsDashSlot(18) && IsDashSlot(23);
    }
  }

  /** The offset after the optional opening brace `\{?` at `i`. The brace is
      greedy; leaving it out when it is there cannot help, since `\h` does
      not match `{`. */
  function AfterOpenBrace(s: string, i: nat): (p: nat)
    requires i <= |s|
  {
    if i < |s| && s[i] == '{' then i + 1 else i
  }

  /** UUID: an optional `{`, the 8-4-4-4-12 groups and an optional `}`, each
      brace independent of the other. */
  function UuidEnd(s: string, i: nat): (r: Option<nat>)
    requires i <= |s|
    ensures r.Some? <==> CanonicalUuidAt(s, AfterOpenBrace(s, i))
    ensures r.Some? ==>
      var e := AfterOpenBrace(s, i) + 36;
      r.value == if e < |s| && s[e] == '}' then e + 1 else e
  {
    var p := AfterOpenBrace(s, i);
    UuidGroupsAreCanonical(s, p);
    if UuidGroupsAt(s, p) then
      var e := p + 36;
      Some(if e < |s| && s[e] == '}' then e + 1 else e)
    else None
  }

  /** A UUID needs 36 characters after the optional brace. */
  lemma UuidNeedsRoom(s: string, i: nat)
    requires i <= |s| && AfterOpenBrace(s, i) + 36 > |s|
    ensures UuidEnd(s, i).None?
  {
  }

  /** A UUID fails as soon as one of its 36 characters is out of place. */
  lemma UuidBrokenAt(s: string, i: nat, n: nat)
    requires i < |s| && s[i] != '{' && n < 36 && i + n < |s|
    requires if IsDashSlot(n) then s[i + n] != '-' else !IsHexDigit(s[i + n])
    ensures UuidEnd(s, i).None?
  {
  }

  /** `[eE][+-]?[0-9]+` at `p`. If the sign is there but no digit follows,
      leaving the sign out cannot help, since the digits would then have to
      start at the sign. */
  function ExponentEnd(s: string, p: nat): (r: Option<nat>)
    requires p <= |s|
    ensures r.Some? ==> p + 2 <= r.value <= |s| && IsDigit(s[r.value - 1])
    ensures r.Some? ==> r.value == |s| || !IsDigit(s[r.value])
  {
    if p < |s| && (s[p] == 'e' || s[p] == 'E') then
      var q := if p + 1 < |s| && (s[p + 1] == '+' || s[p + 1] == '-') then p + 2 else p + 1;
      var n := DigitRun(s, q);
      if n > 0 then Some(q + n) else None
    else None
  }

  /** `[0-9]+([eE][+-]?[0-9]+)?\b` at `q`. Only the longest digit runs need
      trying: a shorter run leaves a digit after it, where neither an
      exponent nor the closing `\b` can match. */
  function MantissaEnd(s: string, q: nat): (r: Option<nat>)
    requires q <= |s|
    ensures r.Some? ==> q < r.value <= |s| && IsDigit(s[r.value - 1]) && Boundary(s, r.value)
  {
    var n := DigitRun(s, q);
    if n == 0 then None
    else
      var exponent := ExponentEnd(s, q + n);
      if exponent.Some? && Boundary(s, exponent.value) then exponent
      else if Boundary(s, q + n) then Some(q + n)
      else None
  }

  /** The offset after the optional minus sign `-?` at `i`. When the sign is
      there, the retry without it always fails: the digits would have to
      start at the `-`. */
  function AfterSign(s: string, i: nat): (p: nat)
    requires i <= |s|
  {
    if i < |s| && s[i] == '-' then i + 1 else i
  }

  /** NUMBER: `-?\b(?:[0-9]+\.)?[0-9]+([eE][+-]?[0-9]+)?\b`. The optional
      `digits.` prefix is greedy, so the form with a fraction is tried first
      and the plain form only when it fails. */
  function NumberEnd(s: string, i: nat): (r: Option<nat>)
    requires i <= |s|
    ensures r.Some? ==> i < r.value <= |s| && IsDigit(s[r.value - 1]) && Boundary(s, r.value)
    ensures r.Some? ==> (s[i] == '-' && i + 1 < |s| && IsDigit(s[i + 1])) || (IsDigit(s[i]) && !WordAt(s, i - 1))
  {
    var p := AfterSign(s, i);
    var d := DigitRun(s, p);
    if !Boundary(s, p) || d == 0 then None
    else
      var fraction := if p + d < |s| && s[p + d] == '.' then MantissaEnd(s, p + d + 1) else None;
      if fraction.Some? then fraction else MantissaEnd(s, p)
  }

  // ---- NUMBER read directly off its pattern, for comparison with the scan above

  /** `[eE][+-]?[0-9]+` spans `s[b..e]`. */
  predicate ExponentSpans(s: string, b: int, e: int) {
    && 0 <= b < |s| && (s[b] == 'e' || s[b] == 'E')
    && ((b + 1 < e && AllDigits(s, b + 1, e))
        || (b + 2 < e && AllDigits(s, b + 2, e) && (s[b + 1] == '+' || s[b + 1] == '-')))
  }

  /** `[0-9]+([eE][+-]?[0-9]+)?` spans `s[m..e]`, its digits ending at `b`. */
  predicate MantissaSpans(s: string, m: int, b: int, e: int) {
    m < b && AllDigits(s, m, b) && (e == b || ExponentSpans(s, b, e))
  }

  /** One way of matching NUMBER against `s[i..e]`: the optional `-`, then
      `\b` at `p`, then the optional `digits.` prefix up to `m`, then the
      mantissa with its optional exponent, then `\b` at `e`. */
  ghost predicate NumberSpans(s: string, i: int, p: int, m: int, e: int) {
    && 0 <= i
    && (p == i || (p == i + 1 && i < |s| && s[i] == '-'))
    && Boundary(s, p)
    && (m == p || (p + 1 < m && AllDigits(s, p, m - 1) && m - 1 < |s| && s[m - 1] == '.'))
    && (exists b :: MantissaSpans(s, m, b, e))
    && Boundary(s, e)
  }

  /** NUMBER matches `s[i..e]`. */
  ghost predicate IsNumberAt(s: string, i: int, e: int) {
    exists p, m :: NumberSpans(s, i, p, m, e)
  }

  /** ExponentEnd finds an exponent exactly when there is one, and takes all
      of its digits: any other exponent at `b` stops before a digit. */
  lemma ExponentEndLongest(s: string, b: nat, e: int)
    requires b <= |s|
    ensures ExponentEnd(s, b).Some? ==> ExponentSpans(s, b, ExponentEnd(s, b).value)
    ensures ExponentSpans(s, b, e) ==> ExponentEnd(s, b).Some? && e <= ExponentEnd(s, b).value
    ensures ExponentSpans(s, b, e) && e < ExponentEnd(s, b).value ==> IsDigit(s[e])
  {
    if ExponentSpans(s, b, e) {
      var q := if b + 1 < |s| && (s[b + 1] == '+' || s[b + 1] == '-') then b + 2 else b + 1;
      assert AllDigits(s, q, e) && q < e;
      var n := DigitRun(s, q);
      assert IsDigit(s[q]);
    }
  }

  /** What MantissaEnd finds is a mantissa, made of every digit at `q`. */
  lemma MantissaEndSound(s: string, q: nat)
    requires q <= |s|
    ensures MantissaEnd(s, q).Some? ==> MantissaSpans(s, q, q + DigitRun(s, q), MantissaEnd(s, q).value)
  {
    ExponentEndLongest(s, q + DigitRun(s, q), 0);
  }

  /** Every mantissa at `q` that ends at a word boundary is found by
      MantissaEnd, or a longer one is. */
  lemma MantissaEndLongest(s: string, q: nat, b: int, e: int)
    requires q <= |s|
    ensures MantissaSpans(s, q, b, e) && Boundary(s, e) ==> MantissaEnd(s, q).Some? && e <= MantissaEnd(s, q).value
  {
    if MantissaSpans(s, q, b, e) && Boundary(s, e) {
      MantissaDigitsAll(s, q, b, e);
      ExponentEndLongest(s, b, e);
    }
  }

  /** A mantissa read at `q` takes every digit there: a shorter run would
      leave a digit where the exponent or the closing `\b` has to be. */
  lemma MantissaDigitsAll(s: string, q: nat, b: int, e: int)
    requires q <= |s| && MantissaSpans(s, q, b, e) && Boundary(s, e)
    ensures b == q + DigitRun(s, q)
  {
  }

  /** In any reading of NUMBER the digits start right after the optional
      `-`, and a `digits.` prefix takes every digit there. */
  lemma NumberPrefix(s: string, i: nat, p: int, m: int, e: int)
    requires i <= |s| && NumberSpans(s, i, p, m, e)
    ensures p == AfterSign(s, i) && p < |s| && IsDigit(s[p])
    ensures m != p ==> m == p + DigitRun(s, p) + 1
  {
    var b :| MantissaSpans(s, m, b, e);
    assert IsDigit(s[p]);
  }

  /** What NumberEnd finds is a match of NUMBER. */
  lemma NumberEndSound(s: string, i: nat)
    requires i <= |s|
    ensures NumberEnd(s, i).Some? ==> IsNumberAt(s, i, NumberEnd(s, i).value)
  {
    var p := AfterSign(s, i);
    var d := DigitRun(s, p);
    if NumberEnd(s, i).Some? {
      var r := NumberEnd(s, i).value;
      assert Boundary(s, p) && d > 0;
      var m := if p + d < |s| && s[p + d] == '.' && MantissaEnd(s, p + d + 1).Some? then p + d + 1 else p;
      assert m == p || (p + 1 < m && AllDigits(s, p, m - 1) && m - 1 < |s| && s[m - 1] == '.');
      assert MantissaEnd(s, m) == Some(r);
      NumberSpansFromMantissa(s, i, p, m, r);
    }
  }

  /** A mantissa found after the sign and the optional prefix completes a
      reading of NUMBER. */
  lemma NumberSpansFromMantissa(s: string, i: nat, p: nat, m: nat, r: nat)
    requires i <= |s| && p == AfterSign(s, i) && Boundary(s, p)
    requires m == p || (p + 1 < m && AllDigits(s, p, m - 1) && m - 1 < |s| && s[m - 1] == '.')
    requires m <= |s| && MantissaEnd(s, m) == Some(r)
    ensures IsNumberAt(s, i, r)
  {
    MantissaEndSound(s, m);
    assert MantissaSpans(s, m, m + DigitRun(s, m), r);
    assert NumberSpans(s, i, p, m, r);
  }

  /** A match of NUMBER without the `digits.` prefix is found by NumberEnd,
      or a longer one is. */
  lemma NumberCoveredPlain(s: string, i: nat, b: int, e: int)
    requires i <= |s| && NumberSpans(s, i, AfterSign(s, i), AfterSign(s, i), e)
    requires MantissaSpans(s, AfterSign(s, i), b, e)
    ensures NumberEnd(s, i).Some? && e <= NumberEnd(s, i).value
  {
    var p := AfterSign(s, i);
    var d := DigitRun(s, p);
    MantissaEndLongest(s, p, b, e);
    if p + d < |s| && s[p + d] == '.' {
      MantissaEndSound(s, p);
    }
  }

  /** A match of NUMBER with the `digits.` prefix is found by NumberEnd,
      or a longer one is. */
  lemma NumberCoveredFraction(s: string, i: nat, m: int, b: int, e: int)
    requires i <= |s| && NumberSpans(s, i, AfterSign(s, i), m, e)
    requires m == AfterSign(s, i) + DigitRun(s, AfterSign(s, i)) + 1
    requires MantissaSpans(s, m, b, e)
    ensures NumberEnd(s, i).Some? && e <= NumberEnd(s, i).value
  {
    var p := AfterSign(s, i);
    assert DigitRun(s, p) > 0 by { assert IsDigit(s[p]); }
    MantissaEndLongest(s, m, b, e);
  }

  /** Every match of NUMBER at `i` is found by NumberEnd, or a longer one is. */
  lemma NumberCovered(s: string, i: nat, e: int)
    requires i <= |s| && IsNumberAt(s, i, e)
    ensures NumberEnd(s, i).Some? && e <= NumberEnd(s, i).value
  {
    var p, m :| NumberSpans(s, i, p, m, e);
    var b :| MantissaSpans(s, m, b, e);
    NumberPrefix(s, i, p, m, e);
    if m == p {
      NumberCoveredPlain(s, i, b, e);
    } else {
      NumberCoveredFraction(s, i, m, b, e);
    }
  }

  /** NumberEnd finds a match exactly when NUMBER matches at `i`, and the
      match it finds is the longest. That is the one the backtracking
      matcher settles on: its greedy `?` and `+` try the longer readings
      first, and every reading that succeeds earlier ends further on. */
  lemma NumberEndLongest(s: string, i: nat)
    requires i <= |s|
    ensures NumberEnd(s, i).Some? <==> exists e :: IsNumberAt(s, i, e)
    ensures NumberEnd(s, i).Some? ==> IsNumberAt(s, i, NumberEnd(s, i).value)
    ensures forall e :: IsNumberAt(s, i, e) ==> e <= NumberEnd(s, i).value
  {
    NumberEndSound(s, i);
    forall e | IsNumberAt(s, i, e)
      ensures NumberEnd(s, i).Some? && e <= NumberEnd(s, i).value
    {
      NumberCovered(s, i, e);
    }
  }

  const Keywords: seq<string> := ["true", "false", "null"]

  /** `w` is at `i`, ignoring the case of the text. */
  predicate MatchesIgnoringCase(s: string, i: int, w: string) {
    0 <= i && i + |w| <= |s| && forall n :: 0 <= n < |w| ==> Lower(s[i + n]) == w[n]
  }

  /** The whole word `w` is at `i`: `\bw\b`, ignoring case. */
  predicate KeywordAt(s: string, i: int, w: string)
    requires 0 <= i <= |s|
  {
    Boundary(s, i) && MatchesIgnoringCase(s, i, w) && Boundary(s, i + |w|)
  }

  /** BOOLEAN: the whole word `true`, `false` or `null`, in any case; the
      alternatives are tried in that order. */
  function BooleanEnd(s: string, i: nat): (r: Option<nat>)
    requires i <= |s|
    ensures r.Some? <==> exists w :: w in Keywords && KeywordAt(s, i, w)
    ensures r.Some? ==> exists w :: w in Keywords && KeywordAt(s, i, w) && r.value == i + |w|
  {
    if KeywordAt(s, i, "true") then Some(i + 4)
    else if KeywordAt(s, i, "false") then Some(i + 5)
    else if KeywordAt(s, i, "null") then Some(i + 4)
    else None
  }

  /** A BOOLEAN match starts with the first letter of a keyword, in either case. */
  lemma BooleanOpensWithLetter(s: string, i: nat)
    requires i <= |s|
    ensures BooleanEnd(s, i).Some? ==> i < |s| && s[i] in "tTfFnN"
  {
    if BooleanEnd(s, i).Some? {
      var w :| w in Keywords && KeywordAt(s, i, w);
      assert Lower(s[i]) == w[0];
    }
  }

  /** BOOLEAN needs a word boundary where it starts. */
  lemma BooleanNeedsBoundary(s: string, i: nat)
    requires i <= |s| && !Boundary(s, i)
    ensures BooleanEnd(s, i).None?
  {
  }

  /** The keyword `w` fails at its `n`-th character when read from `i`. */
  predicate MissesAt(s: string, i: nat, w: string, n: nat) {
    n < |w| && (i + n >= |s| || Lower(s[i + n]) != w[n])
  }

  /** A keyword seen to fail at one of its characters is not at `i`. */
  lemma MissesWord(s: string, i: nat, w: string, n: nat)
    requires i <= |s| && MissesAt(s, i, w, n)
    ensures !KeywordAt(s, i, w)
  {
    if i + n < |s| {
      assert Lower(s[i + n]) != w[n];
    }
  }

  /** BOOLEAN fails at `i` once each keyword is seen to fail at some character. */
  lemma KeywordsMissAt(s: string, i: nat, nt: nat, nf: nat, nn: nat)
    requires i <= |s|
    requires MissesAt(s, i, "true", nt) && MissesAt(s, i, "false", nf) && MissesAt(s, i, "null", nn)
    ensures BooleanEnd(s, i).None?
  {
    MissesWord(s, i, "true", nt);
    MissesWord(s, i, "false", nf);
    MissesWord(s, i, "null", nn);
  }

  /** HEXADECIMAL: `0x` and the longest run of one or more hex digits. */
  function HexEnd(s: string, i: nat): (r: Option<nat>)
    requires i <= |s|
    ensures r.Some? <==> i + 2 < |s| && s[i] == '0' && s[i + 1] == 'x' && IsHexDigit(s[i + 2])
    ensures r.Some? ==> i + 3 <= r.value <= |s| && AllHex(s, i + 2, r.value)
    ensures r.Some? ==> r.value == |s| || !IsHexDigit(s[r.value])
  {
    if i + 2 <= |s| && s[i] == '0' && s[i + 1] == 'x' && HexRun(s, i + 2) > 0 then
      Some(i + 2 + HexRun(s, i + 2))
    else None
  }
}
