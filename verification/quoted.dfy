/** The string-literal rules: SINGLE_QUOTED, DOUBLE_QUOTED, DOLLAR_QUOTED and
    ORACLE_QUOTED (lib/squelch/patterns.rb).

    Each matcher takes the whole original string `s` and a start offset `i`
    and returns the end of the match that the rule's regular expression finds
    there, or `None`. The matchers are written out by hand; the comments say
    which part of the expression each branch stands for.
 */
module Quoted {
  import opened Chars

  /** The end of a quoted literal opened by `q` at `i`: SINGLE_QUOTED with
      `q == '\''` and DOUBLE_QUOTED with `q == '"'`. */
  function QuotedEnd(s: string, q: char, i: nat): (r: Option<nat>)
    requires i <= |s|
    ensures r.Some? ==> i < r.value <= |s| && s[i] == q
    ensures r.Some? && r.value < |s| ==> s[r.value - 1] == q && s[r.value] != q
  {
    if i < |s| && s[i] == q then QuotedBodyEnd(s, q, i + 1) else None
  }

  /** The lazy body `(?:[^q]|qq)*?` followed by `(?:\\q.*|q(?!q))`, from `p`.
      Being lazy, the closers are tried before another body item at every
      step; at most one alternative applies at each offset, so the scan is
      deterministic and running off the end of input means no match. */
  function QuotedBodyEnd(s: string, q: char, p: nat): (r: Option<nat>)
    requires p <= |s|
    ensures r.Some? ==> p < r.value <= |s|
    ensures r.Some? && r.value < |s| ==> s[r.value - 1] == q && s[r.value] != q
    decreases |s| - p
  {
    if p == |s| then None
    // `\\q.*`: a backslash-quote takes the rest of the input (`.` matches newlines under /m)
    else if s[p] == '\\' && p + 1 < |s| && s[p + 1] == q then Some(|s|)
    // `q(?!q)`: a quote not followed by another quote closes
    else if s[p] == q && !(p + 1 < |s| && s[p + 1] == q) then Some(p + 1)
    // `qq`: a doubled quote stays inside the literal
    else if s[p] == q then QuotedBodyEnd(s, q, p + 2)
    // `[^q]`, newlines included
    else QuotedBodyEnd(s, q, p + 1)
  }

  /** How SQL writes text `t` between quotes `q`: every `q` doubled. */
  function Escape(t: string, q: char): string {
    if t == [] then [] else (if t[0] == q then [q, q] else [t[0]]) + Escape(t[1..], q)
  }

  function Literal(t: string, q: char): string {
    [q] + Escape(t, q) + [q]
  }

  /** No backslash in `t` can be read as the backslash-quote closer once `t`
      is escaped and quoted: each one is followed by a character other than `q`. */
  predicate Clean(t: string, q: char) {
    forall k :: 0 <= k < |t| && t[k] == '\\' ==> k + 1 < |t| && t[k + 1] != q
  }

  /** What is clean stays clean without its first character. */
  lemma CleanTail(t: string, q: char)
    requires t != [] && Clean(t, q)
    ensures Clean(t[1..], q)
  {
    forall k | 0 <= k < |t[1..]| && t[1..][k] == '\\'
      ensures k + 1 < |t[1..]| && t[1..][k + 1] != q
    {
      assert t[k + 1] == '\\';
    }
  }

  /** The escape of `t` at `p` starts with that of its first character,
      and the escape of the rest follows. */
  lemma EscapeHead(s: string, q: char, p: nat, t: string)
    requires t != []
    requires OccursAt(s, Escape(t, q), p)
    ensures var w := if t[0] == q then 2 else 1;
            && OccursAt(s, Escape(t[1..], q), p + w)
            && s[p] == t[0] && (t[0] == q ==> s[p + 1] == q)
    ensures t[0] != q && |t| > 1 ==> s[p + 1] == t[1]
  {
    var h := if t[0] == q then [q, q] else [t[0]];
    var e := Escape(t[1..], q);
    assert Escape(t, q) == h + e;
    OccursSplit(s, h, e, p);
    assert s[p] == t[0] by { assert s[p..p + |h|][0] == s[p]; }
    if t[0] == q {
      assert s[p + 1] == q by { assert s[p..p + |h|][1] == s[p + 1]; }
    } else if |t| > 1 {
      assert e[0] == t[1] by {
        assert t[1..][0] == t[1];
      }
      assert s[p + 1] == t[1] by {
        assert s[p + |h|..p + |h| + |e|][0] == e[0];
      }
    }
  }

  /** Scanning over the escape of the first character of `t` steps to the
      escape of the rest. The scan stops there only at a backslash followed
      by `q`, and then it takes the rest of the input; a clean `t` has no
      such backslash. */
  lemma EscapeStep(s: string, q: char, p: nat, t: string)
    requires t != [] && q != '\\'
    requires OccursAt(s, Escape(t, q), p)
    ensures var w := if t[0] == q then 2 else 1;
            && OccursAt(s, Escape(t[1..], q), p + w)
            && (QuotedBodyEnd(s, q, p) == QuotedBodyEnd(s, q, p + w) || QuotedBodyEnd(s, q, p) == Some(|s|))
    ensures Clean(t, q) ==> QuotedBodyEnd(s, q, p) == QuotedBodyEnd(s, q, p + if t[0] == q then 2 else 1)
  {
    EscapeHead(s, q, p, t);
    if t[0] == '\\' && Clean(t, q) {
      assert |t| > 1 && t[1] != q;
    }
  }

  /** Scanning over an escaped text never closes the literal early. */
  lemma {:induction false} EscapedTextScanned(s: string, q: char, p: nat, t: string)
    requires q != '\\' && Clean(t, q)
    requires OccursAt(s, Escape(t, q), p)
    ensures p + |Escape(t, q)| <= |s|
    ensures QuotedBodyEnd(s, q, p) == QuotedBodyEnd(s, q, p + |Escape(t, q)|)
    decreases |t|
  {
    if t != [] {
      var w := if t[0] == q then 2 else 1;
      EscapeStep(s, q, p, t);
      CleanTail(t, q);
      EscapedTextScanned(s, q, p + w, t[1..]);
      assert |Escape(t, q)| == w + |Escape(t[1..], q)|;
    }
  }

  /** Scanning over any escaped text either gets past it or takes the rest
      of the input at a backslash-quote. */
  lemma {:induction false} EscapedTextTaken(s: string, q: char, p: nat, t: string)
    requires q != '\\'
    requires OccursAt(s, Escape(t, q), p)
    ensures p + |Escape(t, q)| <= |s|
    ensures QuotedBodyEnd(s, q, p) == QuotedBodyEnd(s, q, p + |Escape(t, q)|) || QuotedBodyEnd(s, q, p) == Some(|s|)
    decreases |t|
  {
    if t != [] {
      var w := if t[0] == q then 2 else 1;
      EscapeStep(s, q, p, t);
      EscapedTextTaken(s, q, p + w, t[1..]);
      assert |Escape(t, q)| == w + |Escape(t[1..], q)|;
    }
  }

  /** A literal written the SQL way is consumed exactly, up to its closing
      quote, whatever follows it (unless that is another `q`). */
  lemma QuotedLiteralMatched(t: string, q: char, rest: string)
    requires q != '\\' && Clean(t, q)
    requires rest == [] || rest[0] != q
    ensures QuotedEnd(Literal(t, q) + rest, q, 0) == Some(|Literal(t, q)|)
  {
    var s := Literal(t, q) + rest;
    var e := Escape(t, q);
    assert s == [q] + e + ([q] + rest);
    assert OccursAt(s, e, 1) by {
      assert s[1..1 + |e|] == e;
    }
    EscapedTextScanned(s, q, 1, t);
    assert s[1 + |e|] == q;
    if 1 + |e| + 1 < |s| {
      assert s[1 + |e| + 1] == rest[0];
    }
  }

  /** With nothing after it, any text written as a literal is matched
      whole, backslashes included: a backslash-quote inside it takes the
      rest of the input, which ends at the closing quote anyway. */
  lemma QuotedLiteralWhole(t: string, q: char)
    requires q != '\\'
    ensures QuotedEnd(Literal(t, q), q, 0) == Some(|Literal(t, q)|)
  {
    var s := Literal(t, q);
    var e := Escape(t, q);
    assert OccursAt(s, e, 1) by {
      assert s[1..1 + |e|] == e;
    }
    EscapedTextTaken(s, q, 1, t);
    assert s[1 + |e|] == q && 1 + |e| + 1 == |s|;
  }

  /** No backslash of `t` is followed by `q` within `t`; unlike `Clean`, a
      backslash may end `t`. */
  predicate NoBackslashQuote(t: string, q: char) {
    forall k :: 0 <= k < |t| - 1 && t[k] == '\\' ==> t[k + 1] != q
  }

  /** An escaped text that runs to the end of the input, with no
      backslash-quote inside it, is scanned to the end without a match. */
  lemma {:induction false} EscapedTextUnclosed(s: string, q: char, p: nat, t: string)
    requires q != '\\' && NoBackslashQuote(t, q)
    requires OccursAt(s, Escape(t, q), p) && p + |Escape(t, q)| == |s|
    ensures QuotedBodyEnd(s, q, p) == None
    decreases |t|
  {
    if t != [] {
      var w := if t[0] == q then 2 else 1;
      EscapeHead(s, q, p, t);
      assert |Escape(t, q)| == w + |Escape(t[1..], q)|;
      if t[0] == '\\' && |t| > 1 {
        assert t[1] != q;
      }
      assert QuotedBodyEnd(s, q, p) == QuotedBodyEnd(s, q, p + w);
      assert NoBackslashQuote(t[1..], q) by {
        forall k | 0 <= k < |t[1..]| - 1 && t[1..][k] == '\\'
          ensures t[1..][k + 1] != q
        {
          assert t[k + 1] == '\\';
        }
      }
      EscapedTextUnclosed(s, q, p + w, t[1..]);
    }
  }

  /** A literal missing its closing quote is not matched at all, unless a
      backslash-quote inside it takes the rest of the input. */
  lemma QuotedUnterminatedUnmatched(t: string, q: char)
    requires q != '\\' && NoBackslashQuote(t, q)
    ensures QuotedEnd([q] + Escape(t, q), q, 0) == None
  {
    var s := [q] + Escape(t, q);
    assert OccursAt(s, Escape(t, q), 1) by {
      assert s[1..1 + |Escape(t, q)|] == Escape(t, q);
    }
    EscapedTextUnclosed(s, q, 1, t);
  }

  /** Reaching a backslash-quote before a proper close extends the literal
      to the end of the input, whatever follows; whatever text comes before
      it, since a backslash-quote inside that text does the same. */
  lemma QuotedBackslashTakesRest(t: string, q: char, rest: string)
    requires q != '\\'
    ensures var s := [q] + Escape(t, q) + ['\\', q] + rest;
      QuotedEnd(s, q, 0) == Some(|s|)
  {
    var s := [q] + Escape(t, q) + ['\\', q] + rest;
    var e := Escape(t, q);
    assert OccursAt(s, e, 1) by {
      assert s[1..1 + |e|] == e;
    }
    EscapedTextTaken(s, q, 1, t);
    assert s[1 + |e|] == '\\' && s[1 + |e| + 1] == q;
  }

  /** The end of the opening dollar tag `\$(?!\d)[^$]*?\$` at `i`: a `$` not
      followed by a digit, up to the very next `$`. */
  function DollarTagEnd(s: string, i: nat): (r: Option<nat>)
    requires i <= |s|
    ensures r.Some? <==> i < |s| && s[i] == '$' && !(i + 1 < |s| && IsDigit(s[i + 1]))
                         && exists k :: i < k < |s| && s[k] == '$'
    ensures r.Some? ==> i + 2 <= r.value <= |s| && s[r.value - 1] == '$'
    ensures r.Some? ==> forall k :: i < k < r.value - 1 ==> s[k] != '$'
  {
    if i < |s| && s[i] == '$' && !(i + 1 < |s| && IsDigit(s[i + 1])) then
      var next := FindFrom(s, "$", i + 1);
      forall k | i + 1 <= k < |s| ensures OccursAt(s, "$", k) <==> s[k] == '$' {
        OccursAtOne(s, '$', k);
      }
      if next.Some? then Some(next.value + 1) else None
    else None
  }

  /** DOLLAR_QUOTED: from the tag at `i` to the first later copy of the same
      tag. When there is no copy there is no match: `[^$]` cannot pass a `$`,
      so no other tag can be tried. */
  function DollarEnd(s: string, i: nat): (r: Option<nat>)
    requires i <= |s|
    ensures r.Some? <==> (DollarTagEnd(s, i).Some?
      && exists k :: DollarTagEnd(s, i).value <= k && OccursAt(s, s[i..DollarTagEnd(s, i).value], k))
    ensures r.Some? ==>
      var j := DollarTagEnd(s, i).value;
      var tag := s[i..j];
      && j <= r.value - |tag|
      && OccursAt(s, tag, r.value - |tag|)
      && forall k :: j <= k < r.value - |tag| ==> !OccursAt(s, tag, k)
  {
    match DollarTagEnd(s, i)
    case None => None
    case Some(j) =>
      var tag := s[i..j];
      match FindFrom(s, tag, j)
      case None => None
      case Some(k) => Some(k + |tag|)
  }

  predicate IsOracleOpen(c: char) { c == '<' || c == '[' || c == '{' || c == '(' }

  function OracleClose(open: char): char {
    match open
    case '<' => '>'
    case '[' => ']'
    case '{' => '}'
    case _ => ')'
  }

  /** The closing bracket that matches `open`, then `'`. */
  function OracleCloser(open: char): string {
    [OracleClose(open), '\'']
  }

  /** The closer matching the bracket opened at `i + 2` occurs at `k`. */
  predicate OracleClosesAt(s: string, i: int, k: int)
    requires 0 <= i && i + 2 < |s|
  {
    OccursAt(s, OracleCloser(s[i + 2]), k)
  }

  /** `q'` and one of the four opening brackets start at `i`. */
  predicate OracleOpensAt(s: string, i: int) {
    0 <= i && i + 2 < |s| && s[i] == 'q' && s[i + 1] == '\'' && IsOracleOpen(s[i + 2])
  }

  /** ORACLE_QUOTED: `q'` and a bracket, then lazily everything (newlines
      included) up to the first matching closing bracket followed by `'`.
      The four alternatives start with different brackets, so at most one
      applies. */
  function OracleEnd(s: string, i: nat): (r: Option<nat>)
    requires i <= |s|
    ensures r.Some? <==> (OracleOpensAt(s, i)
      && exists k :: i + 3 <= k && OracleClosesAt(s, i, k))
    ensures r.Some? ==>
      var closer := OracleCloser(s[i + 2]);
      && i + 5 <= r.value <= |s|
      && OccursAt(s, closer, r.value - 2)
      && forall k :: i + 3 <= k < r.value - 2 ==> !OccursAt(s, closer, k)
  {
    if OracleOpensAt(s, i) then
      match FindFrom(s, OracleCloser(s[i + 2]), i + 3)
      case None => None
      case Some(k) => assert OracleClosesAt(s, i, k); Some(k + 2)
    else None
  }
}
