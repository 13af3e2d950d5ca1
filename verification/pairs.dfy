/** The leftover-delimiter markers of lib/squelch/pairs.rb: the smallest
    pieces of a string literal or block comment that must not survive
    substitution. */
module Pairs {
  import opened Chars

  datatype Marker =
    | SingleQuoteMark    // the text `'`
    | DoubleQuoteMark    // the text `"`
    | DollarMark         // `\$(?!\?)`: a `$` not followed by a placeholder
    | BlockCommentMark   // either of the texts `/*` and `*/`, tried in that order

  /** The texts a marker can match. */
  function Texts(m: Marker): set<string> {
    match m
    case SingleQuoteMark => {"'"}
    case DoubleQuoteMark => {"\""}
    case DollarMark => {"$"}
    case BlockCommentMark => {"/*", "*/"}
  }

  /** `c` is the first character of one of the texts of `m`. */
  predicate StartsWith(m: Marker, c: char) {
    match m
    case SingleQuoteMark => c == '\''
    case DoubleQuoteMark => c == '"'
    case DollarMark => c == '$'
    case BlockCommentMark => c == '/' || c == '*'
  }

  /** The end of the match of marker `m` at offset `j` of `s`, if any. */
  function MarkerEnd(m: Marker, s: string, j: nat): (r: Option<nat>)
    requires j <= |s|
    ensures r.Some? ==> j < r.value <= |s| && s[j..r.value] in Texts(m)
    ensures r.Some? ==> StartsWith(m, s[j]) && s[j] != Placeholder
    ensures r.Some? && m == DollarMark ==> j + 1 == |s| || s[j + 1] != Placeholder
    ensures r.None? ==> forall t :: t in Texts(m) && OccursAt(s, t, j) ==>
                          m == DollarMark && j + 1 < |s| && s[j + 1] == Placeholder
  {
    match m
    case SingleQuoteMark =>
      if j < |s| && s[j] == '\'' then assert s[j..j + 1] == [s[j]]; Some(j + 1) else None
    case DoubleQuoteMark =>
      if j < |s| && s[j] == '"' then assert s[j..j + 1] == [s[j]]; Some(j + 1) else None
    case DollarMark =>
      // a positional `$1` whose digit was replaced leaves `$?`, which is fine
      if j < |s| && s[j] == '$' && !(j + 1 < |s| && s[j + 1] == Placeholder) then
        assert s[j..j + 1] == [s[j]]; Some(j + 1)
      else None
    case BlockCommentMark =>
      if j + 1 < |s| && s[j] == '/' && s[j + 1] == '*' then assert s[j..j + 2] == [s[j], s[j + 1]]; Some(j + 2)
      else if j + 1 < |s| && s[j] == '*' && s[j + 1] == '/' then assert s[j..j + 2] == [s[j], s[j + 1]]; Some(j + 2)
      else None
  }

  /** The `$?` left by a scrubbed positional parameter such as `$1` is not
      flagged. */
  lemma ScrubbedParameterUnflagged(s: string, j: nat)
    requires j + 1 < |s| && s[j] == '$' && s[j + 1] == Placeholder
    ensures MarkerEnd(DollarMark, s, j).None? && MarkerEnd(DollarMark, s, j + 1).None?
  {
  }

  /** Every marker's text occurs where it matches, and the text pins the
      marker down: no two markers share a text. */
  lemma MarkerTextsDisjoint(m1: Marker, m2: Marker, t: string)
    requires t in Texts(m1) && t in Texts(m2)
    ensures m1 == m2
  {
  }
}
