/** The dialect registry of lib/squelch/database.rb: for each database, the
    ordered rule list used for substitution and the marker list checked
    afterwards. Keys outside the table fall back to the default entry. */
module Database {
  import opened Chars
  import opened Patterns
  import opened Pairs

  /** A database key. `Other` stands for every key outside the table, such
      as `:mssql` or `:aurora`. */
  datatype Dialect = MySQL | Postgres | SQLite | Oracle | Cassandra | Default | Other(key: string)

  /** The default rule list: every rule, ORACLE_QUOTED last. */
  const DefaultRules: seq<Rule> := [
    SingleQuoted, DoubleQuoted, DollarQuoted, Uuid, Number,
    Boolean, Hexadecimal, LineComment, BlockComment, OracleQuoted
  ]

  const DefaultMarkers: seq<Marker> := [SingleQuoteMark, DoubleQuoteMark, BlockCommentMark]

  predicate Distinct<T(==)>(xs: seq<T>) {
    forall a, b :: 0 <= a < b < |xs| ==> xs[a] != xs[b]
  }

  /** The rule that consumes, whole, every literal or comment a marker can
      open or close. */
  function Consumer(m: Marker): Rule {
    match m
    case SingleQuoteMark => SingleQuoted
    case DoubleQuoteMark => DoubleQuoted
    case DollarMark => DollarQuoted
    case BlockCommentMark => BlockComment
  }

  /** `Database.pattern(db)`: the rules in the order the union tries them. */
  function Rules(d: Dialect): seq<Rule> {
    match d
    case MySQL => [SingleQuoted, DoubleQuoted, Number, Boolean, Hexadecimal, LineComment, BlockComment]
    case Postgres => [SingleQuoted, DollarQuoted, Uuid, Number, Boolean, LineComment, BlockComment]
    case SQLite => [SingleQuoted, Number, Boolean, Hexadecimal, LineComment, BlockComment]
    case Oracle => [SingleQuoted, OracleQuoted, Number, LineComment, BlockComment]
    case Cassandra => [SingleQuoted, Uuid, Number, Boolean, Hexadecimal, LineComment, BlockComment]
    case Default => DefaultRules
    case Other(_) => DefaultRules
  }

  /** `Database.pairs(db)`: the markers that must not survive. */
  function Markers(d: Dialect): seq<Marker> {
    match d
    case MySQL => [SingleQuoteMark, DoubleQuoteMark, BlockCommentMark]
    case Postgres => [SingleQuoteMark, DollarMark, BlockCommentMark]
    case SQLite => [SingleQuoteMark, BlockCommentMark]
    case Oracle => [SingleQuoteMark, BlockCommentMark]
    case Cassandra => [SingleQuoteMark, BlockCommentMark]
    case Default => DefaultMarkers
    case Other(_) => DefaultMarkers
  }

  /** Every dialect tries single-quoted strings first, draws its rules from
      the default list without repeating one, and knows numbers and both
      comment forms. */
  lemma RulesShape(d: Dialect)
    ensures |Rules(d)| > 0 && Rules(d)[0] == SingleQuoted
    ensures forall r :: r in Rules(d) ==> r in DefaultRules
    ensures Distinct(Rules(d))
    ensures Number in Rules(d) && LineComment in Rules(d) && BlockComment in Rules(d)
  {
  }

  /** Each marker belongs to a rule the dialect actually uses, so a
      well-formed literal or comment never leaves one behind; every dialect
      checks for single quotes and block comments. */
  lemma MarkersShape(d: Dialect)
    ensures forall m :: m in Markers(d) ==> Consumer(m) in Rules(d)
    ensures SingleQuoteMark in Markers(d) && BlockCommentMark in Markers(d)
    ensures Distinct(Markers(d))
  {
  }

  /** The default list is the union of all the others: it holds every rule. */
  lemma DefaultHoldsEveryRule(r: Rule)
    ensures r in Rules(Default)
  {
  }

  /** Any key outside the table behaves exactly like `:default`. */
  lemma UnknownKeyIsDefault(key: string)
    ensures Rules(Other(key)) == Rules(Default)
    ensures Markers(Other(key)) == Markers(Default)
  {
  }

  /** MySQL's rules are not the default ones, and Postgres's markers are not
      the default ones. */
  lemma TablesDiffer()
    ensures Rules(MySQL) != Rules(Default)
    ensures Markers(Postgres) != Markers(Default)
  {
    assert Markers(Postgres)[1] != Markers(Default)[1];
  }

  lemma OnlyDoubleQuotedOpensAtQuote(r: Rule, s: string, i: nat)
    requires i < |s| && s[i] == '"' && r != DoubleQuoted
    ensures MatchEnd(r, s, i).None?
  {
    assert !CanOpen(r, s[i]);
  }

  /** Under postgres, oracle, sqlite and cassandra a double quote starts no
      match: `"..."` are identifiers there and are left alone. */
  lemma DoubleQuotesAreIdentifiers(d: Dialect, s: string, i: nat)
    requires d == Postgres || d == Oracle || d == SQLite || d == Cassandra
    requires i < |s| && s[i] == '"'
    ensures forall r :: r in Rules(d) ==> MatchEnd(r, s, i).None?
  {
    forall r | r in Rules(d) ensures MatchEnd(r, s, i).None? {
      assert r != DoubleQuoted;
      OnlyDoubleQuotedOpensAtQuote(r, s, i);
    }
  }
}
