/** The rules one at a time: round trips for the quoting rules (a quoted
    text, written the way the database writes it, is matched exactly), and
    the fragments of test/lib/squelch_test.rb that each constant rule must
    or must not match. */
module RuleExamples {
  import opened Chars
  import opened Patterns
  import Quoted
  import Comments
  import Literals

  /** A dollar tag: `$`, text without `$` that does not start with a
      digit, `$`. */
  predicate IsDollarTag(tag: string) {
    && |tag| >= 2 && tag[0] == '$' && tag[|tag| - 1] == '$'
    && (forall k :: 0 < k < |tag| - 1 ==> tag[k] != '$')
    && !IsDigit(tag[1])
  }

  /** A text that starts with a dollar tag opens with exactly that tag. */
  lemma DollarTagRead(s: string, tag: string)
    requires IsDollarTag(tag) && |tag| <= |s| && s[..|tag|] == tag
    ensures Quoted.DollarTagEnd(s, 0) == Some(|tag|)
  {
    var j := |tag|;
    assert s[0] == tag[0] && s[1] == tag[1] && s[j - 1] == tag[j - 1];
    assert forall k :: 0 < k < j - 1 ==> s[k] == tag[k];
    var t := Quoted.DollarTagEnd(s, 0);
    assert t.Some?;
    assert s[t.value - 1] == '$';
  }

  /** Where `s` holds `body` then `t`, and `t` starts nowhere inside
      `body`, the first `t` from the body's start is the one after it. */
  lemma FirstAfter(s: string, j: nat, body: string, t: string)
    requires j + |body| + |t| <= |s| && s[j..j + |body| + |t|] == body + t
    requires forall k :: 0 <= k < |body| ==> !OccursAt(body + t, t, k)
    ensures FindFrom(s, t, j) == Some(j + |body|)
  {
    var e := j + |body|;
    assert OccursAt(s, t, e) by {
      assert s[e..e + |t|] == (body + t)[|body|..];
    }
    forall k | j <= k < e ensures !OccursAt(s, t, k) {
      assert !OccursAt(body + t, t, k - j);
    }
  }

  /** A dollar-quoted string `tag body tag` is matched up to the first copy
      of its tag after the opening one, whatever follows; other tags inside
      the body stay inside it. */
  lemma DollarQuotedMatched(tag: string, body: string, rest: string)
    requires IsDollarTag(tag)
    requires forall k :: 0 <= k < |body| ==> !OccursAt(body + tag, tag, k)
    ensures Quoted.DollarEnd(tag + body + tag + rest, 0) == Some(|tag| + |body| + |tag|)
  {
    var s := tag + body + tag + rest;
    Slices(tag, body, tag, rest);
    DollarQuotedAt(s, tag, body);
  }

  /** The same, read off a text that holds the tag, the body and the tag. */
  lemma DollarQuotedAt(s: string, tag: string, body: string)
    requires IsDollarTag(tag)
    requires forall k :: 0 <= k < |body| ==> !OccursAt(body + tag, tag, k)
    requires |tag| + |body| + |tag| <= |s|
    requires s[..|tag|] == tag && s[|tag|..|tag| + |body| + |tag|] == body + tag
    ensures Quoted.DollarEnd(s, 0) == Some(|tag| + |body| + |tag|)
  {
    var j := |tag|;
    DollarTagRead(s, tag);
    FirstAfter(s, j, body, tag);
    assert s[0..j] == tag;
  }

  lemma Slices(a: string, b: string, c: string, d: string)
    ensures var s := a + b + c + d;
      && s[..|a|] == a && s[0..|a|] == a
      && s[|a|..|a| + |b| + |c|] == b + c
  {
    var s := a + b + c + d;
    assert s[..|a|] == a;
    assert s[|a|..|a| + |b| + |c|] == b + c;
  }

  /** An Oracle quote `q'[text]'` (or with `<>`, `{}`, `()`) is matched up
      to the first closing bracket followed by `'`, whatever follows. */
  lemma OracleQuotedMatched(open: char, text: string, rest: string)
    requires Quoted.IsOracleOpen(open)
    requires forall k :: 0 <= k < |text| ==> !OccursAt(text + Quoted.OracleCloser(open), Quoted.OracleCloser(open), k)
    ensures Quoted.OracleEnd(['q', '\'', open] + text + Quoted.OracleCloser(open) + rest, 0)
            == Some(3 + |text| + 2)
  {
    var closer := Quoted.OracleCloser(open);
    var s := ['q', '\'', open] + text + closer + rest;
    assert s[0] == 'q' && s[1] == '\'' && s[2] == open;
    var e := 3 + |text|;
    assert OccursAt(s, closer, e) by {
      assert s[e..e + 2] == closer;
    }
    forall k | 3 <= k < e ensures !OccursAt(s, closer, k) {
      assert !OccursAt(text + closer, closer, k - 3);
    }
  }

  // ---- Fragments of the tests (test/lib/squelch_test.rb)

  /** `-1.234e-5` is one number, sign and exponent included (lines 348-354). */
  lemma NegativeExponent(s: string)
    requires s == "-1.234e-5"
    ensures Literals.NumberEnd(s, 0) == Some(|s|)
  {
    assert s[0] == '-' && s[1] == '1' && s[2] == '.' && s[6] == 'e' && s[7] == '-' && s[8] == '5';
    assert DigitRun(s, 9) == 0 && DigitRun(s, 8) == 1;
    assert Literals.ExponentEnd(s, 6) == Some(9);
    assert DigitRun(s, 6) == 0 && DigitRun(s, 3) == 3;
    assert Literals.MantissaEnd(s, 3) == Some(9);
    assert DigitRun(s, 2) == 0 && DigitRun(s, 1) == 1;
  }

  /** `123.456` is one number (lines 116-122). */
  lemma Fraction(s: string)
    requires s == "123.456"
    ensures Literals.NumberEnd(s, 0) == Some(7)
  {
    assert s[3] == '.' && DigitRun(s, 7) == 0 && DigitRun(s, 4) == 3;
    assert Literals.MantissaEnd(s, 4) == Some(7);
    assert DigitRun(s, 3) == 0 && DigitRun(s, 0) == 3;
  }

  /** In `.5` only the `5` is a number: the `digits.` prefix needs digits. */
  lemma BareFraction(s: string)
    requires s == ".5"
    ensures Literals.NumberEnd(s, 0).None? && Literals.NumberEnd(s, 1) == Some(2)
  {
  }

  /** The digits of `c11` and `t001` are inside a word, and no number
      starts there (lines 20-26, 108-114). */
  lemma DigitsInIdentifiers(s: string, t: string)
    requires s == "c11" && t == "t001"
    ensures Literals.NumberEnd(s, 1).None? && Literals.NumberEnd(s, 2).None?
    ensures Literals.NumberEnd(t, 1).None? && Literals.NumberEnd(t, 2).None? && Literals.NumberEnd(t, 3).None?
  {
  }

  /** `true` and `FALSE` are whole-word booleans in any case; the `true` of
      `truestory` is not (lines 388-394). */
  lemma Booleans(a: string, b: string, c: string)
    requires a == "true" && b == "FALSE" && c == "truestory"
    ensures Literals.BooleanEnd(a, 0) == Some(4)
    ensures Literals.BooleanEnd(b, 0) == Some(5)
    ensures Literals.BooleanEnd(c, 0).None?
  {
    assert Literals.KeywordAt(a, 0, "true");
    assert Literals.KeywordAt(b, 0, "false");
    assert !Boundary(c, 4) && Lower(c[0]) == 't';
    assert forall w :: w in Literals.Keywords ==> !Literals.KeywordAt(c, 0, w);
  }

  /** `0x2F` and `0xabcdef123` are hexadecimal literals (lines 324-338). */
  lemma Hexadecimals(a: string, b: string)
    requires a == "0x2F" && b == "0xabcdef123"
    ensures Literals.HexEnd(a, 0) == Some(4)
    ensures Literals.HexEnd(b, 0) == Some(11)
  {
  }

  /** A line comment stops before the line break, which survives. */
  lemma LineCommentStops(s: string)
    requires s == "-- x\ny"
    ensures Comments.LineCommentEnd(s, 0) == Some(4)
  {
    assert OccursAt(s, "--", 0) by { assert s[0..2] == "--"; }
    assert s[2] == ' ' && s[3] == 'x' && IsLineBreak(s[4]);
    assert Comments.LineEnd(s, 2) == 4;
  }

  /** A UUID is matched in its 8-4-4-4-12 form (lines 356-362) ... */
  lemma BareUuid(s: string)
    requires s == "01234567-89ab-cdef-0123-456789abcdef"
    ensures Literals.UuidEnd(s, 0) == Some(36)
  {
    assert Literals.CanonicalUuidAt(s, 0);
  }

  /** ... and with its braces, which the match takes in (lines 364-370):
      wrapping a bare UUID in braces makes the match two longer. */
  lemma BracedUuid(u: string, t: string)
    requires |u| == 36 && Literals.UuidEnd(u, 0) == Some(36)
    requires t == ['{'] + u + ['}']
    ensures Literals.UuidEnd(t, 0) == Some(38)
  {
    assert Literals.CanonicalUuidAt(u, 0);
    forall n | 0 <= n < 36
      ensures if Literals.IsDashSlot(n) then t[1 + n] == '-' else IsHexDigit(t[1 + n])
    {
      assert t[1 + n] == u[0 + n];
    }
    assert Literals.CanonicalUuidAt(t, 1);
    assert t[37] == '}';
  }
}
