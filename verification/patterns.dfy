/** The ten lexical rules of lib/squelch/patterns.rb, and what each one
    matches at a given offset of the original string. */
module Patterns {
  import opened Chars
  import Quoted
  import Comments
  import Literals

  datatype Rule =
    | OracleQuoted
    | SingleQuoted
    | DoubleQuoted
    | DollarQuoted
    | LineComment
    | BlockComment
    | Uuid
    | Number
    | Boolean
    | Hexadecimal

  /** The characters a match of `rule` can start with. */
  predicate CanOpen(rule: Rule, c: char) {
    match rule
    case OracleQuoted => c == 'q'
    case SingleQuoted => c == '\''
    case DoubleQuoted => c == '"'
    case DollarQuoted => c == '$'
    case LineComment => c == '#' || c == '-'
    case BlockComment => c == '/'
    case Uuid => c == '{' || IsHexDigit(c)
    case Number => c == '-' || IsDigit(c)
    case Boolean => c in "tTfFnN"
    case Hexadecimal => c == '0'
  }

  /** The end of the match of `rule` starting at offset `i` of `s`, if any.
      `s` is always the whole original string: lookaheads and `\b` see the
      characters around `i` as they were before any substitution. */
  function MatchEnd(rule: Rule, s: string, i: nat): (r: Option<nat>)
    requires i <= |s|
    ensures r.Some? ==> i < r.value <= |s| && CanOpen(rule, s[i])
  {
    match rule
    case OracleQuoted => Quoted.OracleEnd(s, i)
    case SingleQuoted => Quoted.QuotedEnd(s, '\'', i)
    case DoubleQuoted => Quoted.QuotedEnd(s, '"', i)
    case DollarQuoted =>
      var r := Quoted.DollarEnd(s, i);
      assert r.Some? ==> Quoted.DollarTagEnd(s, i).Some?;
      r
    case LineComment => Comments.LineCommentEnd(s, i)
    case BlockComment => Comments.BlockCommentEnd(s, i)
    case Uuid => Literals.UuidEnd(s, i)
    case Number => Literals.NumberEnd(s, i)
    case Boolean =>
      Literals.BooleanOpensWithLetter(s, i);
      Literals.BooleanEnd(s, i)
    case Hexadecimal => Literals.HexEnd(s, i)
  }

  /** No rule matches the empty string, and none starts at a placeholder:
      a `?` already in the text is always copied through. */
  lemma PlaceholderStartsNoMatch(rule: Rule, s: string, i: nat)
    requires i < |s| && s[i] == Placeholder
    ensures MatchEnd(rule, s, i).None?
  {
  }
}
