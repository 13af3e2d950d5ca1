/** `Squelch.obfuscate!` and `Squelch.obfuscate` (lib/squelch.rb): replace
    every literal and comment the dialect knows with `?`, then refuse the
    result if a string or comment delimiter survived. */
module Squelch {
  import opened Chars
  import opened Patterns
  import opened Pairs
  import opened Database
  import opened Errors
  import Quoted
  import Engine

  /** The alternatives of `Regexp.union(rules)`, seen from the input `s`. */
  function Union(rules: seq<Rule>, s: string): Engine.Alternatives {
    (k: nat, i: nat) => if k < |rules| && i <= |s| then MatchEnd(rules[k], s, i) else None
  }

  lemma UnionSound(rules: seq<Rule>, s: string)
    ensures Engine.Sound(Union(rules, s), |rules|, |s|)
  {
  }

  /** The union matches nothing at `j` exactly when none of its rules does. */
  lemma UnionNoneAtIff(rules: seq<Rule>, s: string, j: nat)
    requires j <= |s|
    ensures Engine.NoneAt(Union(rules, s), |rules|, j) <==> (forall r :: r in rules ==> MatchEnd(r, s, j).None?)
  {
    if Engine.NoneAt(Union(rules, s), |rules|, j) {
      forall r | r in rules ensures MatchEnd(r, s, j).None? {
        var k :| 0 <= k < |rules| && rules[k] == r;
        assert Union(rules, s)(k, j).None?;
      }
    }
  }

  /** `sql.gsub(Database.pattern(db), "?")`. The output is never longer
      than the input: each match is at least one character and becomes one. */
  function Substitute(sql: string, d: Dialect): (r: string)
    ensures |r| <= |sql|
  {
    UnionSound(Rules(d), sql);
    Engine.Scrub(sql, Union(Rules(d), sql), |Rules(d)|)
  }

  /** The substitution is the rendering of the input's one leftmost-first
      reading under the dialect's rules. */
  lemma SubstituteRendersReading(sql: string, d: Dialect, ps: seq<Engine.Piece>)
    requires Engine.Parses(Union(Rules(d), sql), |Rules(d)|, sql, 0, ps)
    ensures Substitute(sql, d) == Engine.Render(ps)
    ensures Engine.Source(ps) == sql
  {
    UnionSound(Rules(d), sql);
    Engine.ScrubRendersParse(sql, Union(Rules(d), sql), |Rules(d)|, 0, ps);
    var qs := Engine.Tokenize(sql, Union(Rules(d), sql), |Rules(d)|);
    Engine.ParseUnique(Union(Rules(d), sql), |Rules(d)|, sql, 0, ps, qs);
  }

  /** No rule starts a match at a `?` already in the input. */
  lemma PlaceholdersUnmatched(rules: seq<Rule>, s: string)
    ensures forall j: nat :: j < |s| && s[j] == Placeholder ==> Engine.NoneAt(Union(rules, s), |rules|, j)
  {
    forall j: nat | j < |s| && s[j] == Placeholder ensures Engine.NoneAt(Union(rules, s), |rules|, j) {
      forall r | r in rules ensures MatchEnd(r, s, j).None? {
        PlaceholderStartsNoMatch(r, s, j);
      }
      UnionNoneAtIff(rules, s, j);
    }
  }

  /** The union matches nowhere exactly when none of its rules matches anywhere. */
  lemma UnionNowhereIff(rules: seq<Rule>, s: string)
    ensures (forall j: nat :: 0 <= j < |s| ==> Engine.NoneAt(Union(rules, s), |rules|, j))
            <==> (forall j, r :: 0 <= j < |s| && r in rules ==> MatchEnd(r, s, j).None?)
  {
    if forall j, r :: 0 <= j < |s| && r in rules ==> MatchEnd(r, s, j).None? {
      forall j: nat | j < |s| ensures Engine.NoneAt(Union(rules, s), |rules|, j) {
        UnionNoneAtIff(rules, s, j);
      }
    }
    if forall j: nat :: 0 <= j < |s| ==> Engine.NoneAt(Union(rules, s), |rules|, j) {
      forall j, r | 0 <= j < |s| && r in rules ensures MatchEnd(r, s, j).None? {
        UnionNoneAtIff(rules, s, j);
      }
    }
  }

  /** A query is left unchanged exactly when none of the dialect's rules
      matches anywhere in it. */
  lemma UnchangedIffNothingMatches(sql: string, d: Dialect)
    ensures Substitute(sql, d) == sql
            <==> (forall j, r :: 0 <= j < |sql| && r in Rules(d) ==> MatchEnd(r, sql, j).None?)
  {
    UnionSound(Rules(d), sql);
    PlaceholdersUnmatched(Rules(d), sql);
    Engine.ScrubUnchangedIff(sql, Union(Rules(d), sql), |Rules(d)|, 0);
    assert sql[0..] == sql;
    UnionNowhereIff(Rules(d), sql);
  }

  /** What `obfuscate!` returns: the substituted SQL, or the error it raises. */
  datatype Outcome = Ok(value: string) | Fail(error: Error)

  /** The texts a leftover marker can have. */
  const MarkerTexts: set<string> := {"'", "\"", "$", "/*", "*/"}

  /** The marker of `markers` that `out` leaves over at its leftmost
      position: its text, which occurs there. */
  predicate LeftmostMarker(markers: seq<Marker>, out: string, text: string)
  {
    exists p :: 0 <= p < |out| && OccursAt(out, text, p) && Engine.MarkerAt(markers, out, p)
                && forall q :: 0 <= q < p ==> !Engine.MarkerAt(markers, out, q)
  }

  /** The check of `obfuscate!` on the substituted string `out`. */
  function Check(sql: string, out: string, markers: seq<Marker>): (r: Outcome)
    ensures r.Ok? <==> Engine.NoMarker(markers, out)
    ensures r.Ok? ==> r.value == out
    ensures r.Fail? ==> r.error.sql == sql && r.error.obfuscation == out
    ensures r.Fail? ==> r.error.delimiter in MarkerTexts && LeftmostMarker(markers, out, r.error.delimiter)
  {
    match Engine.FirstMarker(markers, out)
    case None => Ok(out)
    case Some(f) =>
      assert Engine.MarkerAt(markers, out, f.pos);
      assert OccursAt(out, f.text, f.pos);
      assert LeftmostMarker(markers, out, f.text);
      Fail(Error(sql, out, f.text))
  }

  /** `Squelch.obfuscate!(sql, db:)`: substitute, then look for the leftmost
      leftover marker of the dialect; if there is one, fail with the input,
      the substituted string and the marker's text. */
  function ObfuscateStrict(sql: string, d: Dialect := Default): (r: Outcome)
    ensures r.Ok? <==> Engine.NoMarker(Markers(d), Substitute(sql, d))
    ensures r.Ok? ==> r.value == Substitute(sql, d)
    ensures r.Fail? ==> r.error.sql == sql && r.error.obfuscation == Substitute(sql, d)
    ensures r.Fail? ==> r.error.delimiter in MarkerTexts
                        && LeftmostMarker(Markers(d), r.error.obfuscation, r.error.delimiter)
  {
    Check(sql, Substitute(sql, d), Markers(d))
  }

  /** `Squelch.obfuscate(sql, db:)`: like `obfuscate!`, but a failure gives
      the single placeholder instead of an error. Whatever the input, the
      result holds none of the dialect's markers. */
  function Obfuscate(sql: string, d: Dialect := Default): (r: string)
    ensures Engine.NoMarker(Markers(d), r)
    ensures ObfuscateStrict(sql, d).Ok? ==> r == ObfuscateStrict(sql, d).value
    ensures ObfuscateStrict(sql, d).Fail? ==> r == [Placeholder]
  {
    match ObfuscateStrict(sql, d)
    case Ok(value) => value
    case Fail(_) =>
      assert !Engine.MarkerAt(Markers(d), [Placeholder], 0);
      [Placeholder]
  }

  /** A substituted query whose leftmost leftover marker is at `p`, where
      the marker text `t` is read, is rejected with an error naming `t`;
      the lenient entry point then gives `?`. */
  lemma RejectedAt(sql: string, d: Dialect, out: string, p: nat, t: string)
    requires Substitute(sql, d) == out && p < |out|
    requires forall j :: 0 <= j < p ==> !Engine.MarkerAt(Markers(d), out, j)
    requires Engine.MarkerText(Markers(d), out, p) == Some(t)
    ensures ObfuscateStrict(sql, d) == Fail(Error(sql, out, t))
    ensures Obfuscate(sql, d) == [Placeholder]
  {
    var f := Engine.FirstMarker(Markers(d), out);
    assert f.Some? && f.value.pos == p;
  }

  /** Every failure's message names the leftover delimiter. */
  lemma FailureNamesDelimiter(sql: string, d: Dialect)
    requires ObfuscateStrict(sql, d).Fail?
    ensures DelimiterOf(Message(ObfuscateStrict(sql, d).error)) == Some(ObfuscateStrict(sql, d).error.delimiter)
    ensures ObfuscateStrict(sql, d).error.delimiter in MarkerTexts
  {
    MessageNamesDelimiter(ObfuscateStrict(sql, d).error);
  }

  /** The empty query is obfuscated to itself under every dialect. */
  lemma EmptyQuery(d: Dialect)
    ensures ObfuscateStrict("", d) == Ok("")
  {
  }

  /** A query in which exactly one match is found, at `a` and ending at
      `e`, has that match replaced by one placeholder and the rest kept. */
  lemma SubstituteOneMatch(sql: string, d: Dialect, a: nat, k: nat, e: nat)
    requires a < |sql| && e <= |sql|
    requires Engine.QuietRun(Union(Rules(d), sql), |Rules(d)|, 0, a)
    requires Engine.Wins(Union(Rules(d), sql), |Rules(d)|, a, k, e)
    requires Engine.QuietRun(Union(Rules(d), sql), |Rules(d)|, e, |sql|)
    ensures Substitute(sql, d) == sql[..a] + [Placeholder] + sql[e..]
  {
    UnionSound(Rules(d), sql);
    Engine.ScrubOneMatch(sql, Union(Rules(d), sql), |Rules(d)|, a, k, e);
  }

  /** A single placeholder is all that is left of a query that one match
      consumes whole, and it is accepted. */
  lemma WholeMatch(sql: string, d: Dialect, k: nat)
    requires |sql| > 0
    requires Engine.Wins(Union(Rules(d), sql), |Rules(d)|, 0, k, |sql|)
    ensures ObfuscateStrict(sql, d) == Ok([Placeholder])
  {
    SubstituteOneMatch(sql, d, 0, k, |sql|);
    assert Substitute(sql, d) == [Placeholder];
    assert !Engine.MarkerAt(Markers(d), [Placeholder], 0);
  }

  /** A single-quoted string literal, written with its quotes doubled, is
      replaced by one placeholder under every dialect, and is accepted,
      whatever its text, backslashes included. */
  lemma SingleQuotedLiteral(t: string, d: Dialect)
    ensures ObfuscateStrict(Quoted.Literal(t, '\''), d) == Ok([Placeholder])
  {
    var s := Quoted.Literal(t, '\'');
    Quoted.QuotedLiteralWhole(t, '\'');
    assert Union(Rules(d), s)(0, 0) == Some(|s|);
    WholeMatch(s, d, 0);
  }

  /** Under mysql and the default dialect (and every key outside the table,
      which shares the default rules) a double-quoted string is a literal
      too, and is replaced whole. */
  lemma DoubleQuotedLiteral(t: string, d: Dialect)
    requires Rules(d) == Rules(Default) || d == MySQL
    ensures ObfuscateStrict(Quoted.Literal(t, '"'), d) == Ok([Placeholder])
  {
    var s := Quoted.Literal(t, '"');
    Quoted.QuotedLiteralWhole(t, '"');
    assert s[0] == '"';
    assert MatchEnd(Rules(d)[0], s, 0).None? by { assert !CanOpen(SingleQuoted, s[0]); }
    assert Engine.Wins(Union(Rules(d), s), |Rules(d)|, 0, 1, |s|);
    WholeMatch(s, d, 1);
  }
}
