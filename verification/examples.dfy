/** Worked examples: the queries of lib/squelch.rb's documentation and some
    of the library's test cases, each proved by walking the substitution
    pass over the query one offset at a time. At every offset either no
    rule of the dialect can start at its character, or the rules that can
    are shown to fail there, or the winning rule is shown to match and
    where its match ends. */
module Examples {
  import opened Chars
  import opened Patterns
  import opened Database
  import opened Errors
  import opened Squelch
  import Quoted
  import Comments
  import Literals
  import Engine

  /** The union matches nothing at `i` once the rules of the dialect that
      can start at its character `c` are seen to fail there. */
  lemma QuietUnless(s: string, d: Dialect, i: nat, c: char, openers: set<Rule>)
    requires i < |s| && s[i] == c
    requires forall r :: r in Rules(d) && r !in openers ==> !CanOpen(r, c)
    requires forall r :: r in openers ==> MatchEnd(r, s, i).None?
    ensures Engine.NoneAt(Union(Rules(d), s), |Rules(d)|, i)
  {
    UnionNoneAtIff(Rules(d), s, i);
  }

  /** The k-th rule wins at `i`: it matches, and every earlier rule either
      cannot start at the character `c` there or is seen to fail. */
  lemma WinsAt(s: string, d: Dialect, i: nat, c: char, k: nat, e: nat, openers: set<Rule>)
    requires i < |s| && s[i] == c && k < |Rules(d)|
    requires forall j :: 0 <= j < k && Rules(d)[j] !in openers ==> !CanOpen(Rules(d)[j], c)
    requires forall r :: r in openers ==> MatchEnd(r, s, i).None?
    requires MatchEnd(Rules(d)[k], s, i) == Some(e)
    ensures Engine.Wins(Union(Rules(d), s), |Rules(d)|, i, k, e)
  {
    forall j: nat | j < k ensures Union(Rules(d), s)(j, i).None? {
      if Rules(d)[j] !in openers {
        assert !CanOpen(Rules(d)[j], c);
      }
    }
  }

  /** Under postgres a dollar-quoted string wins wherever it matches: the
      only earlier rule, SINGLE_QUOTED, cannot start at `$`. */
  lemma DollarWinsUnderPostgres(s: string, i: nat, e: nat)
    requires i < |s| && s[i] == '$' && Quoted.DollarEnd(s, i) == Some(e)
    ensures Engine.Wins(Union(Rules(Postgres), s), |Rules(Postgres)|, i, 1, e)
  {
    WinsAt(s, Postgres, i, '$', 1, e, {});
  }

  /** Where BLOCK_COMMENT sits in each dialect's rule list. */
  function BlockCommentIndex(d: Dialect): (k: nat)
    ensures k < |Rules(d)| && Rules(d)[k] == BlockComment
  {
    match d
    case MySQL => 6
    case Postgres => 6
    case SQLite => 5
    case Oracle => 4
    case Cassandra => 6
    case _ => 8
  }

  /** A query that is one whole block comment becomes a single placeholder
      under every dialect, and is accepted: no other rule starts at `/`. */
  lemma WholeComment(sql: string, d: Dialect)
    requires Comments.BlockCommentEnd(sql, 0) == Some(|sql|)
    ensures ObfuscateStrict(sql, d) == Ok([Placeholder])
  {
    var k := BlockCommentIndex(d);
    WinsAt(sql, d, 0, '/', k, |sql|, {});
    WholeMatch(sql, d, k);
  }


  // ---- The documented queries (lib/squelch.rb, lines 42-72). The texts are
  // written in short pieces, one word of the query each; a query is the part
  // before its literal, the literal, and the part after it.

  /** `sql` is `b`, then `m`, then `a`: cutting `m` out and putting a
      placeholder in its place gives `b`, `?`, `a`. */
  lemma Splice(sql: string, b: string, m: string, a: string)
    requires sql == b + m + a
    ensures |sql| == |b| + |m| + |a|
    ensures sql[..|b|] == b && sql[|b| + |m|..] == a
    ensures sql[..|b|] + [Placeholder] + sql[|b| + |m|..] == b + "?" + a
  {
    assert sql[..|b|] == b;
    assert sql[|b| + |m|..] == a;
  }

  const NamePrefix: string := "SELECT * " + "FROM " + "examples " + "WHERE " + "name = "

  /** `SELECT * FROM examples WHERE name = 'basic';` */
  const BasicSql: string := NamePrefix + "'basic'" + ";"
  const BasicOut: string := NamePrefix + "?" + ";"

  /** `SELECT * FROM examples WHERE name = ''malformed';` */
  const MalformedSql: string := NamePrefix + "''" + "malformed';"
  const MalformedOut: string := NamePrefix + "?" + "malformed';"

  const DbRest: string := ".name " + "FROM " + "examples " + "WHERE " + "db = " + "$$postgres$$" + ";"
  const DbHead: string := "SELECT " + "\"examples\"" + ".name " + "FROM " + "examples " + "WHERE " + "db = "

  /** `SELECT "examples".name FROM examples WHERE db = $$postgres$$;` */
  const DbSql: string := "SELECT " + "\"examples\"" + DbRest
  const DbMySQLOut: string := "SELECT " + "?" + DbRest
  const DbPostgresOut: string := DbHead + "?" + ";"

  /** The same query, cut before its dollar-quoted string. */
  lemma DbSqlAtDollar()
    ensures DbSql == DbHead + "$$postgres$$" + ";"
  {
  }

  /** Nothing matches in `SELECT * FROM examples WHERE name = ` under the default dialect, whatever follows it. */
  lemma NamePrefixQuiet0(s: string)
    requires |s| >= 36 && s[..36] == NamePrefix
    ensures Engine.QuietRun(Union(Rules(Default), s), |Rules(Default)|, 0, 2)
  {
    var u := Union(Rules(Default), s);
    var n := |Rules(Default)|;
    assert s[0] == 'S' && s[1] == 'E' && s[2] == 'L';
    Literals.UuidBrokenAt(s, 1, 1);
    QuietUnless(s, Default, 1, 'E', {Uuid});
    assert Engine.QuietRun(u, n, 1, 2);
    QuietUnless(s, Default, 0, 'S', {});
  }

  lemma NamePrefixQuiet2(s: string)
    requires |s| >= 36 && s[..36] == NamePrefix
    ensures Engine.QuietRun(Union(Rules(Default), s), |Rules(Default)|, 2, 4)
  {
    var u := Union(Rules(Default), s);
    var n := |Rules(Default)|;
    assert s[2] == 'L' && s[3] == 'E' && s[4] == 'C' && s[5] == 'T';
    Literals.UuidBrokenAt(s, 3, 2);
    QuietUnless(s, Default, 3, 'E', {Uuid});
    assert Engine.QuietRun(u, n, 3, 4);
    QuietUnless(s, Default, 2, 'L', {});
  }

  lemma NamePrefixQuiet4(s: string)
    requires |s| >= 36 && s[..36] == NamePrefix
    ensures Engine.QuietRun(Union(Rules(Default), s), |Rules(Default)|, 4, 5)
  {
    var u := Union(Rules(Default), s);
    var n := |Rules(Default)|;
    assert s[4] == 'C' && s[5] == 'T';
    Literals.UuidBrokenAt(s, 4, 1);
    QuietUnless(s, Default, 4, 'C', {Uuid});
  }

  lemma NamePrefixQuiet5(s: string)
    requires |s| >= 36 && s[..36] == NamePrefix
    ensures Engine.QuietRun(Union(Rules(Default), s), |Rules(Default)|, 5, 7)
  {
    var u := Union(Rules(Default), s);
    var n := |Rules(Default)|;
    assert s[5] == 'T' && s[6] == ' ';
    QuietUnless(s, Default, 6, ' ', {});
    assert Engine.QuietRun(u, n, 6, 7);
    Literals.KeywordsMissAt(s, 5, 1, 0, 0);
    QuietUnless(s, Default, 5, 'T', {Boolean});
  }

  lemma NamePrefixQuiet7(s: string)
    requires |s| >= 36 && s[..36] == NamePrefix
    ensures Engine.QuietRun(Union(Rules(Default), s), |Rules(Default)|, 7, 9)
  {
    var u := Union(Rules(Default), s);
    var n := |Rules(Default)|;
    assert s[7] == '*' && s[8] == ' ';
    QuietUnless(s, Default, 8, ' ', {});
    assert Engine.QuietRun(u, n, 8, 9);
    QuietUnless(s, Default, 7, '*', {});
  }

  lemma NamePrefixQuiet9(s: string)
    requires |s| >= 36 && s[..36] == NamePrefix
    ensures Engine.QuietRun(Union(Rules(Default), s), |Rules(Default)|, 9, 10)
  {
    var u := Union(Rules(Default), s);
    var n := |Rules(Default)|;
    assert s[9] == 'F' && s[10] == 'R';
    Literals.UuidBrokenAt(s, 9, 1);
    Literals.KeywordsMissAt(s, 9, 0, 1, 0);
    QuietUnless(s, Default, 9, 'F', {Uuid, Boolean});
  }

  lemma NamePrefixQuiet10(s: string)
    requires |s| >= 36 && s[..36] == NamePrefix
    ensures Engine.QuietRun(Union(Rules(Default), s), |Rules(Default)|, 10, 13)
  {
    var u := Union(Rules(Default), s);
    var n := |Rules(Default)|;
    assert s[10] == 'R' && s[11] == 'O' && s[12] == 'M';
    QuietUnless(s, Default, 12, 'M', {});
    assert Engine.QuietRun(u, n, 12, 13);
    QuietUnless(s, Default, 11, 'O', {});
    assert Engine.QuietRun(u, n, 11, 13);
    QuietUnless(s, Default, 10, 'R', {});
  }

  lemma NamePrefixQuiet13(s: string)
    requires |s| >= 36 && s[..36] == NamePrefix
    ensures Engine.QuietRun(Union(Rules(Default), s), |Rules(Default)|, 13, 15)
  {
    var u := Union(Rules(Default), s);
    var n := |Rules(Default)|;
    assert s[13] == ' ' && s[14] == 'e' && s[15] == 'x';
    Literals.UuidBrokenAt(s, 14, 1);
    QuietUnless(s, Default, 14, 'e', {Uuid});
    assert Engine.QuietRun(u, n, 14, 15);
    QuietUnless(s, Default, 13, ' ', {});
  }

  lemma NamePrefixQuiet15(s: string)
    requires |s| >= 36 && s[..36] == NamePrefix
    ensures Engine.QuietRun(Union(Rules(Default), s), |Rules(Default)|, 15, 17)
  {
    var u := Union(Rules(Default), s);
    var n := |Rules(Default)|;
    assert s[15] == 'x' && s[16] == 'a' && s[17] == 'm';
    Literals.UuidBrokenAt(s, 16, 1);
    QuietUnless(s, Default, 16, 'a', {Uuid});
    assert Engine.QuietRun(u, n, 16, 17);
    QuietUnless(s, Default, 15, 'x', {});
  }

  lemma NamePrefixQuiet17(s: string)
    requires |s| >= 36 && s[..36] == NamePrefix
    ensures Engine.QuietRun(Union(Rules(Default), s), |Rules(Default)|, 17, 20)
  {
    var u := Union(Rules(Default), s);
    var n := |Rules(Default)|;
    assert s[17] == 'm' && s[18] == 'p' && s[19] == 'l';
    QuietUnless(s, Default, 19, 'l', {});
    assert Engine.QuietRun(u, n, 19, 20);
    QuietUnless(s, Default, 18, 'p', {});
    assert Engine.QuietRun(u, n, 18, 20);
    QuietUnless(s, Default, 17, 'm', {});
  }

  lemma NamePrefixQuiet20(s: string)
    requires |s| >= 36 && s[..36] == NamePrefix
    ensures Engine.QuietRun(Union(Rules(Default), s), |Rules(Default)|, 20, 22)
  {
    var u := Union(Rules(Default), s);
    var n := |Rules(Default)|;
    assert s[20] == 'e' && s[21] == 's';
    QuietUnless(s, Default, 21, 's', {});
    assert Engine.QuietRun(u, n, 21, 22);
    Literals.UuidBrokenAt(s, 20, 1);
    QuietUnless(s, Default, 20, 'e', {Uuid});
  }

  lemma NamePrefixQuiet22(s: string)
    requires |s| >= 36 && s[..36] == NamePrefix
    ensures Engine.QuietRun(Union(Rules(Default), s), |Rules(Default)|, 22, 25)
  {
    var u := Union(Rules(Default), s);
    var n := |Rules(Default)|;
    assert s[22] == ' ' && s[23] == 'W' && s[24] == 'H';
    QuietUnless(s, Default, 24, 'H', {});
    assert Engine.QuietRun(u, n, 24, 25);
    QuietUnless(s, Default, 23, 'W', {});
    assert Engine.QuietRun(u, n, 23, 25);
    QuietUnless(s, Default, 22, ' ', {});
  }

  lemma NamePrefixQuiet25(s: string)
    requires |s| >= 36 && s[..36] == NamePrefix
    ensures Engine.QuietRun(Union(Rules(Default), s), |Rules(Default)|, 25, 27)
  {
    var u := Union(Rules(Default), s);
    var n := |Rules(Default)|;
    assert s[25] == 'E' && s[26] == 'R';
    QuietUnless(s, Default, 26, 'R', {});
    assert Engine.QuietRun(u, n, 26, 27);
    Literals.UuidBrokenAt(s, 25, 1);
    QuietUnless(s, Default, 25, 'E', {Uuid});
  }

  lemma NamePrefixQuiet27(s: string)
    requires |s| >= 36 && s[..36] == NamePrefix
    ensures Engine.QuietRun(Union(Rules(Default), s), |Rules(Default)|, 27, 29)
  {
    var u := Union(Rules(Default), s);
    var n := |Rules(Default)|;
    assert s[27] == 'E' && s[28] == ' ';
    QuietUnless(s, Default, 28, ' ', {});
    assert Engine.QuietRun(u, n, 28, 29);
    Literals.UuidBrokenAt(s, 27, 1);
    QuietUnless(s, Default, 27, 'E', {Uuid});
  }

  lemma NamePrefixQuiet29(s: string)
    requires |s| >= 36 && s[..36] == NamePrefix
    ensures Engine.QuietRun(Union(Rules(Default), s), |Rules(Default)|, 29, 30)
  {
    var u := Union(Rules(Default), s);
    var n := |Rules(Default)|;
    assert s[29] == 'n' && s[30] == 'a';
    Literals.KeywordsMissAt(s, 29, 0, 0, 1);
    QuietUnless(s, Default, 29, 'n', {Boolean});
  }

  lemma NamePrefixQuiet30(s: string)
    requires |s| >= 36 && s[..36] == NamePrefix
    ensures Engine.QuietRun(Union(Rules(Default), s), |Rules(Default)|, 30, 32)
  {
    var u := Union(Rules(Default), s);
    var n := |Rules(Default)|;
    assert s[30] == 'a' && s[31] == 'm';
    QuietUnless(s, Default, 31, 'm', {});
    assert Engine.QuietRun(u, n, 31, 32);
    Literals.UuidBrokenAt(s, 30, 1);
    QuietUnless(s, Default, 30, 'a', {Uuid});
  }

  lemma NamePrefixQuiet32(s: string)
    requires |s| >= 36 && s[..36] == NamePrefix
    ensures Engine.QuietRun(Union(Rules(Default), s), |Rules(Default)|, 32, 34)
  {
    var u := Union(Rules(Default), s);
    var n := |Rules(Default)|;
    assert s[32] == 'e' && s[33] == ' ';
    QuietUnless(s, Default, 33, ' ', {});
    assert Engine.QuietRun(u, n, 33, 34);
    Literals.UuidBrokenAt(s, 32, 1);
    QuietUnless(s, Default, 32, 'e', {Uuid});
  }

  lemma NamePrefixQuiet34(s: string)
    requires |s| >= 36 && s[..36] == NamePrefix
    ensures Engine.QuietRun(Union(Rules(Default), s), |Rules(Default)|, 34, 36)
  {
    var u := Union(Rules(Default), s);
    var n := |Rules(Default)|;
    assert s[34] == '=' && s[35] == ' ';
    QuietUnless(s, Default, 35, ' ', {});
    assert Engine.QuietRun(u, n, 35, 36);
    QuietUnless(s, Default, 34, '=', {});
  }

  lemma NamePrefixQuietFrom0(s: string)
    requires |s| >= 36 && s[..36] == NamePrefix
    ensures Engine.QuietRun(Union(Rules(Default), s), |Rules(Default)|, 0, 10)
  {
    var u := Union(Rules(Default), s);
    var n := |Rules(Default)|;
    NamePrefixQuiet0(s);
    NamePrefixQuiet2(s);
    NamePrefixQuiet4(s);
    NamePrefixQuiet5(s);
    NamePrefixQuiet7(s);
    NamePrefixQuiet9(s);
    Engine.QuietRunJoin(u, n, 0, 2, 4);
    Engine.QuietRunJoin(u, n, 0, 4, 5);
    Engine.QuietRunJoin(u, n, 0, 5, 7);
    Engine.QuietRunJoin(u, n, 0, 7, 9);
    Engine.QuietRunJoin(u, n, 0, 9, 10);
  }

  lemma NamePrefixQuietFrom10(s: string)
    requires |s| >= 36 && s[..36] == NamePrefix
    ensures Engine.QuietRun(Union(Rules(Default), s), |Rules(Default)|, 10, 25)
  {
    var u := Union(Rules(Default), s);
    var n := |Rules(Default)|;
    NamePrefixQuiet10(s);
    NamePrefixQuiet13(s);
    NamePrefixQuiet15(s);
    NamePrefixQuiet17(s);
    NamePrefixQuiet20(s);
    NamePrefixQuiet22(s);
    Engine.QuietRunJoin(u, n, 10, 13, 15);
    Engine.QuietRunJoin(u, n, 10, 15, 17);
    Engine.QuietRunJoin(u, n, 10, 17, 20);
    Engine.QuietRunJoin(u, n, 10, 20, 22);
    Engine.QuietRunJoin(u, n, 10, 22, 25);
  }

  lemma NamePrefixQuietFrom25(s: string)
    requires |s| >= 36 && s[..36] == NamePrefix
    ensures Engine.QuietRun(Union(Rules(Default), s), |Rules(Default)|, 25, 36)
  {
    var u := Union(Rules(Default), s);
    var n := |Rules(Default)|;
    NamePrefixQuiet25(s);
    NamePrefixQuiet27(s);
    NamePrefixQuiet29(s);
    NamePrefixQuiet30(s);
    NamePrefixQuiet32(s);
    NamePrefixQuiet34(s);
    Engine.QuietRunJoin(u, n, 25, 27, 29);
    Engine.QuietRunJoin(u, n, 25, 29, 30);
    Engine.QuietRunJoin(u, n, 25, 30, 32);
    Engine.QuietRunJoin(u, n, 25, 32, 34);
    Engine.QuietRunJoin(u, n, 25, 34, 36);
  }

  /** The string literal `'basic'` is matched by SINGLE_QUOTED, the first rule. */
  lemma BasicLiteralWins(s: string)
    requires s == BasicSql
    ensures Engine.Wins(Union(Rules(Default), s), |Rules(Default)|, 36, 0, 43)
  {
    assert s[36] == '\'' && s[37] == 'b' && s[38] == 'a' && s[39] == 's' && s[40] == 'i' && s[41] == 'c';
    assert s[42] == '\'';
    assert Quoted.QuotedBodyEnd(s, '\'', 42) == Some(43);
    assert Quoted.QuotedBodyEnd(s, '\'', 41) == Some(43);
    assert Quoted.QuotedBodyEnd(s, '\'', 40) == Some(43);
    assert Quoted.QuotedBodyEnd(s, '\'', 39) == Some(43);
    assert Quoted.QuotedBodyEnd(s, '\'', 38) == Some(43);
    assert Quoted.QuotedBodyEnd(s, '\'', 37) == Some(43);
    WinsAt(s, Default, 36, '\'', 0, 43, {});
  }

  lemma BasicTailQuiet43(s: string)
    requires s == BasicSql
    ensures Engine.QuietRun(Union(Rules(Default), s), |Rules(Default)|, 43, 44)
  {
    var u := Union(Rules(Default), s);
    var n := |Rules(Default)|;
    assert s[43] == ';';
    QuietUnless(s, Default, 43, ';', {});
  }

  /** Nothing matches around the literal of the basic query. */
  lemma BasicRuns(sql: string)
    requires sql == BasicSql
    ensures Engine.QuietRun(Union(Rules(Default), sql), |Rules(Default)|, 0, 36)
    ensures Engine.QuietRun(Union(Rules(Default), sql), |Rules(Default)|, 43, |sql|)
  {
    var u := Union(Rules(Default), sql);
    var n := |Rules(Default)|;
    Splice(sql, NamePrefix, "'basic'", ";");
    NamePrefixQuietFrom0(sql);
    NamePrefixQuietFrom10(sql);
    NamePrefixQuietFrom25(sql);
    Engine.QuietRunJoin(u, n, 0, 10, 25);
    Engine.QuietRunJoin(u, n, 0, 25, 36);
    BasicTailQuiet43(sql);
  }

  /** The basic query's literal becomes `?`. */
  lemma BasicSubstitution(sql: string)
    requires sql == BasicSql
    ensures Substitute(sql, Default) == BasicOut
  {
    Splice(sql, NamePrefix, "'basic'", ";");
    BasicRuns(sql);
    BasicLiteralWins(sql);
    SubstituteOneMatch(sql, Default, 36, 0, 43);
  }

  lemma BasicOutUnmarked0(s: string)
    requires s == BasicOut
    ensures forall j :: 0 <= j < 8 ==> !Engine.MarkerAt(Markers(Default), s, j)
  {
    assert s[0] == 'S' && s[1] == 'E' && s[2] == 'L' && s[3] == 'E' && s[4] == 'C' && s[5] == 'T';
    assert s[6] == ' ' && s[7] == '*' && s[8] == ' ';
  }

  lemma BasicOutUnmarked8(s: string)
    requires s == BasicOut
    ensures forall j :: 8 <= j < 16 ==> !Engine.MarkerAt(Markers(Default), s, j)
  {
    assert s[8] == ' ' && s[9] == 'F' && s[10] == 'R' && s[11] == 'O' && s[12] == 'M' && s[13] == ' ';
    assert s[14] == 'e' && s[15] == 'x' && s[16] == 'a';
  }

  lemma BasicOutUnmarked16(s: string)
    requires s == BasicOut
    ensures forall j :: 16 <= j < 24 ==> !Engine.MarkerAt(Markers(Default), s, j)
  {
    assert s[16] == 'a' && s[17] == 'm' && s[18] == 'p' && s[19] == 'l' && s[20] == 'e' && s[21] == 's';
    assert s[22] == ' ' && s[23] == 'W' && s[24] == 'H';
  }

  lemma BasicOutUnmarked24(s: string)
    requires s == BasicOut
    ensures forall j :: 24 <= j < 32 ==> !Engine.MarkerAt(Markers(Default), s, j)
  {
    assert s[24] == 'H' && s[25] == 'E' && s[26] == 'R' && s[27] == 'E' && s[28] == ' ' && s[29] == 'n';
    assert s[30] == 'a' && s[31] == 'm' && s[32] == 'e';
  }

  lemma BasicOutUnmarked32(s: string)
    requires s == BasicOut
    ensures forall j :: 32 <= j < 38 ==> !Engine.MarkerAt(Markers(Default), s, j)
  {
    assert s[32] == 'e' && s[33] == ' ' && s[34] == '=' && s[35] == ' ' && s[36] == '?' && s[37] == ';';
  }

  /** Basic obfuscation: the string literal becomes `?`, and the result is accepted. */
  lemma BasicQuery(sql: string)
    requires sql == BasicSql
    ensures ObfuscateStrict(sql) == Ok(BasicOut)
    ensures Obfuscate(sql) == BasicOut
  {
    BasicSubstitution(sql);
    BasicOutUnmarked0(BasicOut);
    BasicOutUnmarked8(BasicOut);
    BasicOutUnmarked16(BasicOut);
    BasicOutUnmarked24(BasicOut);
    BasicOutUnmarked32(BasicOut);
    assert Engine.NoMarker(Markers(Default), BasicOut);
  }

  /** The doubled quote reads as an empty literal `''`: the quote after it is not doubled. */
  lemma MalformedEmptyLiteralWins(s: string)
    requires s == MalformedSql
    ensures Engine.Wins(Union(Rules(Default), s), |Rules(Default)|, 36, 0, 38)
  {
    assert s[36] == '\'' && s[37] == '\'';
    assert Quoted.QuotedBodyEnd(s, '\'', 37) == Some(38);
    WinsAt(s, Default, 36, '\'', 0, 38, {});
  }

  /** The rest, `malformed';`, matches nothing: its quote is never closed. */
  lemma MalformedTailQuiet38(s: string)
    requires s == MalformedSql
    ensures Engine.QuietRun(Union(Rules(Default), s), |Rules(Default)|, 38, 40)
  {
    var u := Union(Rules(Default), s);
    var n := |Rules(Default)|;
    assert s[38] == 'm' && s[39] == 'a' && s[40] == 'l';
    Literals.UuidBrokenAt(s, 39, 1);
    QuietUnless(s, Default, 39, 'a', {Uuid});
    assert Engine.QuietRun(u, n, 39, 40);
    QuietUnless(s, Default, 38, 'm', {});
  }

  lemma MalformedTailQuiet40(s: string)
    requires s == MalformedSql
    ensures Engine.QuietRun(Union(Rules(Default), s), |Rules(Default)|, 40, 41)
  {
    var u := Union(Rules(Default), s);
    var n := |Rules(Default)|;
    assert s[40] == 'l';
    QuietUnless(s, Default, 40, 'l', {});
  }

  lemma MalformedTailQuiet41(s: string)
    requires s == MalformedSql
    ensures Engine.QuietRun(Union(Rules(Default), s), |Rules(Default)|, 41, 42)
  {
    var u := Union(Rules(Default), s);
    var n := |Rules(Default)|;
    assert s[41] == 'f' && s[42] == 'o';
    Literals.UuidBrokenAt(s, 41, 1);
    Literals.KeywordsMissAt(s, 41, 0, 1, 0);
    QuietUnless(s, Default, 41, 'f', {Uuid, Boolean});
  }

  lemma MalformedTailQuiet42(s: string)
    requires s == MalformedSql
    ensures Engine.QuietRun(Union(Rules(Default), s), |Rules(Default)|, 42, 45)
  {
    var u := Union(Rules(Default), s);
    var n := |Rules(Default)|;
    assert s[42] == 'o' && s[43] == 'r' && s[44] == 'm';
    QuietUnless(s, Default, 44, 'm', {});
    assert Engine.QuietRun(u, n, 44, 45);
    QuietUnless(s, Default, 43, 'r', {});
    assert Engine.QuietRun(u, n, 43, 45);
    QuietUnless(s, Default, 42, 'o', {});
  }

  lemma MalformedTailQuiet45(s: string)
    requires s == MalformedSql
    ensures Engine.QuietRun(Union(Rules(Default), s), |Rules(Default)|, 45, 46)
  {
    var u := Union(Rules(Default), s);
    var n := |Rules(Default)|;
    assert s[45] == 'e' && s[46] == 'd' && s[47] == '\'';
    Literals.UuidBrokenAt(s, 45, 2);
    QuietUnless(s, Default, 45, 'e', {Uuid});
  }

  lemma MalformedTailQuiet46(s: string)
    requires s == MalformedSql
    ensures Engine.QuietRun(Union(Rules(Default), s), |Rules(Default)|, 46, 47)
  {
    var u := Union(Rules(Default), s);
    var n := |Rules(Default)|;
    assert s[46] == 'd' && s[47] == '\'';
    Literals.UuidBrokenAt(s, 46, 1);
    QuietUnless(s, Default, 46, 'd', {Uuid});
  }

  lemma MalformedTailQuiet47(s: string)
    requires s == MalformedSql
    ensures Engine.QuietRun(Union(Rules(Default), s), |Rules(Default)|, 47, 49)
  {
    var u := Union(Rules(Default), s);
    var n := |Rules(Default)|;
    assert s[47] == '\'' && s[48] == ';';
    QuietUnless(s, Default, 48, ';', {});
    assert Engine.QuietRun(u, n, 48, 49);
    assert Quoted.QuotedBodyEnd(s, '\'', 49) == None;
    assert Quoted.QuotedBodyEnd(s, '\'', 48) == None;
    QuietUnless(s, Default, 47, '\'', {SingleQuoted});
  }

  lemma MalformedTailQuietFrom38(s: string)
    requires s == MalformedSql
    ensures Engine.QuietRun(Union(Rules(Default), s), |Rules(Default)|, 38, 47)
  {
    var u := Union(Rules(Default), s);
    var n := |Rules(Default)|;
    MalformedTailQuiet38(s);
    MalformedTailQuiet40(s);
    MalformedTailQuiet41(s);
    MalformedTailQuiet42(s);
    MalformedTailQuiet45(s);
    MalformedTailQuiet46(s);
    Engine.QuietRunJoin(u, n, 38, 40, 41);
    Engine.QuietRunJoin(u, n, 38, 41, 42);
    Engine.QuietRunJoin(u, n, 38, 42, 45);
    Engine.QuietRunJoin(u, n, 38, 45, 46);
    Engine.QuietRunJoin(u, n, 38, 46, 47);
  }

  lemma MalformedTailQuietFrom47(s: string)
    requires s == MalformedSql
    ensures Engine.QuietRun(Union(Rules(Default), s), |Rules(Default)|, 47, 49)
  {
    var u := Union(Rules(Default), s);
    var n := |Rules(Default)|;
    MalformedTailQuiet47(s);
  }

  /** Nothing matches around the empty literal of the malformed query. */
  lemma MalformedRuns(sql: string)
    requires sql == MalformedSql
    ensures Engine.QuietRun(Union(Rules(Default), sql), |Rules(Default)|, 0, 36)
    ensures Engine.QuietRun(Union(Rules(Default), sql), |Rules(Default)|, 38, |sql|)
  {
    var u := Union(Rules(Default), sql);
    var n := |Rules(Default)|;
    Splice(sql, NamePrefix, "''", "malformed';");
    NamePrefixQuietFrom0(sql);
    NamePrefixQuietFrom10(sql);
    NamePrefixQuietFrom25(sql);
    Engine.QuietRunJoin(u, n, 0, 10, 25);
    Engine.QuietRunJoin(u, n, 0, 25, 36);
    MalformedTailQuietFrom38(sql);
    MalformedTailQuietFrom47(sql);
    Engine.QuietRunJoin(u, n, 38, 47, 49);
  }

  /** The malformed query's empty literal becomes `?`. */
  lemma MalformedSubstitution(sql: string)
    requires sql == MalformedSql
    ensures Substitute(sql, Default) == MalformedOut
  {
    Splice(sql, NamePrefix, "''", "malformed';");
    MalformedRuns(sql);
    MalformedEmptyLiteralWins(sql);
    SubstituteOneMatch(sql, Default, 36, 0, 38);
  }

  lemma MalformedOutUnmarked0(s: string)
    requires s == MalformedOut
    ensures forall j :: 0 <= j < 8 ==> !Engine.MarkerAt(Markers(Default), s, j)
  {
    assert s[0] == 'S' && s[1] == 'E' && s[2] == 'L' && s[3] == 'E' && s[4] == 'C' && s[5] == 'T';
    assert s[6] == ' ' && s[7] == '*' && s[8] == ' ';
  }

  lemma MalformedOutUnmarked8(s: string)
    requires s == MalformedOut
    ensures forall j :: 8 <= j < 16 ==> !Engine.MarkerAt(Markers(Default), s, j)
  {
    assert s[8] == ' ' && s[9] == 'F' && s[10] == 'R' && s[11] == 'O' && s[12] == 'M' && s[13] == ' ';
    assert s[14] == 'e' && s[15] == 'x' && s[16] == 'a';
  }

  lemma MalformedOutUnmarked16(s: string)
    requires s == MalformedOut
    ensures forall j :: 16 <= j < 24 ==> !Engine.MarkerAt(Markers(Default), s, j)
  {
    assert s[16] == 'a' && s[17] == 'm' && s[18] == 'p' && s[19] == 'l' && s[20] == 'e' && s[21] == 's';
    assert s[22] == ' ' && s[23] == 'W' && s[24] == 'H';
  }

  lemma MalformedOutUnmarked24(s: string)
    requires s == MalformedOut
    ensures forall j :: 24 <= j < 32 ==> !Engine.MarkerAt(Markers(Default), s, j)
  {
    assert s[24] == 'H' && s[25] == 'E' && s[26] == 'R' && s[27] == 'E' && s[28] == ' ' && s[29] == 'n';
    assert s[30] == 'a' && s[31] == 'm' && s[32] == 'e';
  }

  lemma MalformedOutUnmarked32(s: string)
    requires s == MalformedOut
    ensures forall j :: 32 <= j < 40 ==> !Engine.MarkerAt(Markers(Default), s, j)
  {
    assert s[32] == 'e' && s[33] == ' ' && s[34] == '=' && s[35] == ' ' && s[36] == '?' && s[37] == 'm';
    assert s[38] == 'a' && s[39] == 'l' && s[40] == 'f';
  }

  lemma MalformedOutUnmarked40(s: string)
    requires s == MalformedOut
    ensures forall j :: 40 <= j < 46 ==> !Engine.MarkerAt(Markers(Default), s, j)
  {
    assert s[40] == 'f' && s[41] == 'o' && s[42] == 'r' && s[43] == 'm' && s[44] == 'e' && s[45] == 'd';
    assert s[46] == '\'';
  }

  /** The first marker left in the malformed query's output is the quote after `malformed`. */
  lemma MalformedOutMarker(s: string)
    requires s == MalformedOut
    ensures forall j :: 0 <= j < 46 ==> !Engine.MarkerAt(Markers(Default), s, j)
    ensures Engine.MarkerText(Markers(Default), s, 46) == Some("'")
  {
    MalformedOutUnmarked0(s);
    MalformedOutUnmarked8(s);
    MalformedOutUnmarked16(s);
    MalformedOutUnmarked24(s);
    MalformedOutUnmarked32(s);
    MalformedOutUnmarked40(s);
    assert s[46] == '\'';
  }

  /** The message of the malformed query's error, as documented. */
  lemma MalformedMessage(e: Error)
    requires e.delimiter == "'"
    ensures Message(e) == "Failed to squelch SQL, delimiter " + "'" + " remained after obfuscation"
  {
  }

  /** Malformed query: the empty literal becomes `?`, the unclosed quote
      after `malformed` survives, and the query is rejected naming it;
      the lenient entry point gives `?`. */
  lemma MalformedQuery(sql: string)
    requires sql == MalformedSql
    ensures ObfuscateStrict(sql) == Fail(Error(sql, MalformedOut, "'"))
    ensures Obfuscate(sql) == "?"
  {
    MalformedSubstitution(sql);
    MalformedOutMarker(MalformedOut);
    RejectedAt(sql, Default, MalformedOut, 46, "'");
  }

  /** Under mysql, `"examples"` is a DOUBLE_QUOTED string literal. */
  lemma DbMySQLIdentifierWins(s: string)
    requires s == DbSql
    ensures Engine.Wins(Union(Rules(MySQL), s), |Rules(MySQL)|, 7, 1, 17)
  {
    assert s[7] == '"' && s[8] == 'e' && s[9] == 'x' && s[10] == 'a' && s[11] == 'm' && s[12] == 'p';
    assert s[13] == 'l' && s[14] == 'e' && s[15] == 's' && s[16] == '"';
    assert Quoted.QuotedBodyEnd(s, '"', 16) == Some(17);
    assert Quoted.QuotedBodyEnd(s, '"', 15) == Some(17);
    assert Quoted.QuotedBodyEnd(s, '"', 14) == Some(17);
    assert Quoted.QuotedBodyEnd(s, '"', 13) == Some(17);
    assert Quoted.QuotedBodyEnd(s, '"', 12) == Some(17);
    assert Quoted.QuotedBodyEnd(s, '"', 11) == Some(17);
    assert Quoted.QuotedBodyEnd(s, '"', 10) == Some(17);
    assert Quoted.QuotedBodyEnd(s, '"', 9) == Some(17);
    assert Quoted.QuotedBodyEnd(s, '"', 8) == Some(17);
    WinsAt(s, MySQL, 7, '"', 1, 17, {});
  }

  lemma DbMySQLHeadQuiet0(s: string)
    requires s == DbSql
    ensures Engine.QuietRun(Union(Rules(MySQL), s), |Rules(MySQL)|, 0, 3)
  {
    var u := Union(Rules(MySQL), s);
    var n := |Rules(MySQL)|;
    assert s[0] == 'S' && s[1] == 'E' && s[2] == 'L';
    QuietUnless(s, MySQL, 2, 'L', {});
    assert Engine.QuietRun(u, n, 2, 3);
    QuietUnless(s, MySQL, 1, 'E', {});
    assert Engine.QuietRun(u, n, 1, 3);
    QuietUnless(s, MySQL, 0, 'S', {});
  }

  lemma DbMySQLHeadQuiet3(s: string)
    requires s == DbSql
    ensures Engine.QuietRun(Union(Rules(MySQL), s), |Rules(MySQL)|, 3, 5)
  {
    var u := Union(Rules(MySQL), s);
    var n := |Rules(MySQL)|;
    assert s[3] == 'E' && s[4] == 'C';
    QuietUnless(s, MySQL, 4, 'C', {});
    assert Engine.QuietRun(u, n, 4, 5);
    QuietUnless(s, MySQL, 3, 'E', {});
  }

  lemma DbMySQLHeadQuiet5(s: string)
    requires s == DbSql
    ensures Engine.QuietRun(Union(Rules(MySQL), s), |Rules(MySQL)|, 5, 7)
  {
    var u := Union(Rules(MySQL), s);
    var n := |Rules(MySQL)|;
    assert s[5] == 'T' && s[6] == ' ';
    QuietUnless(s, MySQL, 6, ' ', {});
    assert Engine.QuietRun(u, n, 6, 7);
    Literals.KeywordsMissAt(s, 5, 1, 0, 0);
    QuietUnless(s, MySQL, 5, 'T', {Boolean});
  }

  /** Under mysql nothing matches after `"examples"`: mysql has no DOLLAR_QUOTED rule. */
  lemma DbMySQLTailQuiet17(s: string)
    requires s == DbSql
    ensures Engine.QuietRun(Union(Rules(MySQL), s), |Rules(MySQL)|, 17, 19)
  {
    var u := Union(Rules(MySQL), s);
    var n := |Rules(MySQL)|;
    assert s[17] == '.' && s[18] == 'n' && s[19] == 'a';
    Literals.KeywordsMissAt(s, 18, 0, 0, 1);
    QuietUnless(s, MySQL, 18, 'n', {Boolean});
    assert Engine.QuietRun(u, n, 18, 19);
    QuietUnless(s, MySQL, 17, '.', {});
  }

  lemma DbMySQLTailQuiet19(s: string)
    requires s == DbSql
    ensures Engine.QuietRun(Union(Rules(MySQL), s), |Rules(MySQL)|, 19, 22)
  {
    var u := Union(Rules(MySQL), s);
    var n := |Rules(MySQL)|;
    assert s[19] == 'a' && s[20] == 'm' && s[21] == 'e';
    QuietUnless(s, MySQL, 21, 'e', {});
    assert Engine.QuietRun(u, n, 21, 22);
    QuietUnless(s, MySQL, 20, 'm', {});
    assert Engine.QuietRun(u, n, 20, 22);
    QuietUnless(s, MySQL, 19, 'a', {});
  }

  lemma DbMySQLTailQuiet22(s: string)
    requires s == DbSql
    ensures Engine.QuietRun(Union(Rules(MySQL), s), |Rules(MySQL)|, 22, 24)
  {
    var u := Union(Rules(MySQL), s);
    var n := |Rules(MySQL)|;
    assert s[22] == ' ' && s[23] == 'F' && s[24] == 'R';
    Literals.KeywordsMissAt(s, 23, 0, 1, 0);
    QuietUnless(s, MySQL, 23, 'F', {Boolean});
    assert Engine.QuietRun(u, n, 23, 24);
    QuietUnless(s, MySQL, 22, ' ', {});
  }

  lemma DbMySQLTailQuiet24(s: string)
    requires s == DbSql
    ensures Engine.QuietRun(Union(Rules(MySQL), s), |Rules(MySQL)|, 24, 27)
  {
    var u := Union(Rules(MySQL), s);
    var n := |Rules(MySQL)|;
    assert s[24] == 'R' && s[25] == 'O' && s[26] == 'M';
    QuietUnless(s, MySQL, 26, 'M', {});
    assert Engine.QuietRun(u, n, 26, 27);
    QuietUnless(s, MySQL, 25, 'O', {});
    assert Engine.QuietRun(u, n, 25, 27);
    QuietUnless(s, MySQL, 24, 'R', {});
  }

  lemma DbMySQLTailQuiet27(s: string)
    requires s == DbSql
    ensures Engine.QuietRun(Union(Rules(MySQL), s), |Rules(MySQL)|, 27, 30)
  {
    var u := Union(Rules(MySQL), s);
    var n := |Rules(MySQL)|;
    assert s[27] == ' ' && s[28] == 'e' && s[29] == 'x';
    QuietUnless(s, MySQL, 29, 'x', {});
    assert Engine.QuietRun(u, n, 29, 30);
    QuietUnless(s, MySQL, 28, 'e', {});
    assert Engine.QuietRun(u, n, 28, 30);
    QuietUnless(s, MySQL, 27, ' ', {});
  }

  lemma DbMySQLTailQuiet30(s: string)
    requires s == DbSql
    ensures Engine.QuietRun(Union(Rules(MySQL), s), |Rules(MySQL)|, 30, 33)
  {
    var u := Union(Rules(MySQL), s);
    var n := |Rules(MySQL)|;
    assert s[30] == 'a' && s[31] == 'm' && s[32] == 'p';
    QuietUnless(s, MySQL, 32, 'p', {});
    assert Engine.QuietRun(u, n, 32, 33);
    QuietUnless(s, MySQL, 31, 'm', {});
    assert Engine.QuietRun(u, n, 31, 33);
    QuietUnless(s, MySQL, 30, 'a', {});
  }

  lemma DbMySQLTailQuiet33(s: string)
    requires s == DbSql
    ensures Engine.QuietRun(Union(Rules(MySQL), s), |Rules(MySQL)|, 33, 36)
  {
    var u := Union(Rules(MySQL), s);
    var n := |Rules(MySQL)|;
    assert s[33] == 'l' && s[34] == 'e' && s[35] == 's';
    QuietUnless(s, MySQL, 35, 's', {});
    assert Engine.QuietRun(u, n, 35, 36);
    QuietUnless(s, MySQL, 34, 'e', {});
    assert Engine.QuietRun(u, n, 34, 36);
    QuietUnless(s, MySQL, 33, 'l', {});
  }

  lemma DbMySQLTailQuiet36(s: string)
    requires s == DbSql
    ensures Engine.QuietRun(Union(Rules(MySQL), s), |Rules(MySQL)|, 36, 39)
  {
    var u := Union(Rules(MySQL), s);
    var n := |Rules(MySQL)|;
    assert s[36] == ' ' && s[37] == 'W' && s[38] == 'H';
    QuietUnless(s, MySQL, 38, 'H', {});
    assert Engine.QuietRun(u, n, 38, 39);
    QuietUnless(s, MySQL, 37, 'W', {});
    assert Engine.QuietRun(u, n, 37, 39);
    QuietUnless(s, MySQL, 36, ' ', {});
  }

  lemma DbMySQLTailQuiet39(s: string)
    requires s == DbSql
    ensures Engine.QuietRun(Union(Rules(MySQL), s), |Rules(MySQL)|, 39, 42)
  {
    var u := Union(Rules(MySQL), s);
    var n := |Rules(MySQL)|;
    assert s[39] == 'E' && s[40] == 'R' && s[41] == 'E';
    QuietUnless(s, MySQL, 41, 'E', {});
    assert Engine.QuietRun(u, n, 41, 42);
    QuietUnless(s, MySQL, 40, 'R', {});
    assert Engine.QuietRun(u, n, 40, 42);
    QuietUnless(s, MySQL, 39, 'E', {});
  }

  lemma DbMySQLTailQuiet42(s: string)
    requires s == DbSql
    ensures Engine.QuietRun(Union(Rules(MySQL), s), |Rules(MySQL)|, 42, 45)
  {
    var u := Union(Rules(MySQL), s);
    var n := |Rules(MySQL)|;
    assert s[42] == ' ' && s[43] == 'd' && s[44] == 'b';
    QuietUnless(s, MySQL, 44, 'b', {});
    assert Engine.QuietRun(u, n, 44, 45);
    QuietUnless(s, MySQL, 43, 'd', {});
    assert Engine.QuietRun(u, n, 43, 45);
    QuietUnless(s, MySQL, 42, ' ', {});
  }

  lemma DbMySQLTailQuiet45(s: string)
    requires s == DbSql
    ensures Engine.QuietRun(Union(Rules(MySQL), s), |Rules(MySQL)|, 45, 48)
  {
    var u := Union(Rules(MySQL), s);
    var n := |Rules(MySQL)|;
    assert s[45] == ' ' && s[46] == '=' && s[47] == ' ';
    QuietUnless(s, MySQL, 47, ' ', {});
    assert Engine.QuietRun(u, n, 47, 48);
    QuietUnless(s, MySQL, 46, '=', {});
    assert Engine.QuietRun(u, n, 46, 48);
    QuietUnless(s, MySQL, 45, ' ', {});
  }

  lemma DbMySQLTailQuiet48(s: string)
    requires s == DbSql
    ensures Engine.QuietRun(Union(Rules(MySQL), s), |Rules(MySQL)|, 48, 51)
  {
    var u := Union(Rules(MySQL), s);
    var n := |Rules(MySQL)|;
    assert s[48] == '$' && s[49] == '$' && s[50] == 'p';
    QuietUnless(s, MySQL, 50, 'p', {});
    assert Engine.QuietRun(u, n, 50, 51);
    QuietUnless(s, MySQL, 49, '$', {});
    assert Engine.QuietRun(u, n, 49, 51);
    QuietUnless(s, MySQL, 48, '$', {});
  }

  lemma DbMySQLTailQuiet51(s: string)
    requires s == DbSql
    ensures Engine.QuietRun(Union(Rules(MySQL), s), |Rules(MySQL)|, 51, 53)
  {
    var u := Union(Rules(MySQL), s);
    var n := |Rules(MySQL)|;
    assert s[51] == 'o' && s[52] == 's';
    QuietUnless(s, MySQL, 52, 's', {});
    assert Engine.QuietRun(u, n, 52, 53);
    QuietUnless(s, MySQL, 51, 'o', {});
  }

  lemma DbMySQLTailQuiet53(s: string)
    requires s == DbSql
    ensures Engine.QuietRun(Union(Rules(MySQL), s), |Rules(MySQL)|, 53, 55)
  {
    var u := Union(Rules(MySQL), s);
    var n := |Rules(MySQL)|;
    assert s[53] == 't' && s[54] == 'g';
    QuietUnless(s, MySQL, 54, 'g', {});
    assert Engine.QuietRun(u, n, 54, 55);
    Literals.KeywordsMissAt(s, 53, 1, 0, 0);
    QuietUnless(s, MySQL, 53, 't', {Boolean});
  }

  lemma DbMySQLTailQuiet55(s: string)
    requires s == DbSql
    ensures Engine.QuietRun(Union(Rules(MySQL), s), |Rules(MySQL)|, 55, 58)
  {
    var u := Union(Rules(MySQL), s);
    var n := |Rules(MySQL)|;
    assert s[55] == 'r' && s[56] == 'e' && s[57] == 's';
    QuietUnless(s, MySQL, 57, 's', {});
    assert Engine.QuietRun(u, n, 57, 58);
    QuietUnless(s, MySQL, 56, 'e', {});
    assert Engine.QuietRun(u, n, 56, 58);
    QuietUnless(s, MySQL, 55, 'r', {});
  }

  lemma DbMySQLTailQuiet58(s: string)
    requires s == DbSql
    ensures Engine.QuietRun(Union(Rules(MySQL), s), |Rules(MySQL)|, 58, 61)
  {
    var u := Union(Rules(MySQL), s);
    var n := |Rules(MySQL)|;
    assert s[58] == '$' && s[59] == '$' && s[60] == ';';
    QuietUnless(s, MySQL, 60, ';', {});
    assert Engine.QuietRun(u, n, 60, 61);
    QuietUnless(s, MySQL, 59, '$', {});
    assert Engine.QuietRun(u, n, 59, 61);
    QuietUnless(s, MySQL, 58, '$', {});
  }

  lemma DbMySQLTailQuietFrom17(s: string)
    requires s == DbSql
    ensures Engine.QuietRun(Union(Rules(MySQL), s), |Rules(MySQL)|, 17, 33)
  {
    var u := Union(Rules(MySQL), s);
    var n := |Rules(MySQL)|;
    DbMySQLTailQuiet17(s);
    DbMySQLTailQuiet19(s);
    DbMySQLTailQuiet22(s);
    DbMySQLTailQuiet24(s);
    DbMySQLTailQuiet27(s);
    DbMySQLTailQuiet30(s);
    Engine.QuietRunJoin(u, n, 17, 19, 22);
    Engine.QuietRunJoin(u, n, 17, 22, 24);
    Engine.QuietRunJoin(u, n, 17, 24, 27);
    Engine.QuietRunJoin(u, n, 17, 27, 30);
    Engine.QuietRunJoin(u, n, 17, 30, 33);
  }

  lemma DbMySQLTailQuietFrom33(s: string)
    requires s == DbSql
    ensures Engine.QuietRun(Union(Rules(MySQL), s), |Rules(MySQL)|, 33, 51)
  {
    var u := Union(Rules(MySQL), s);
    var n := |Rules(MySQL)|;
    DbMySQLTailQuiet33(s);
    DbMySQLTailQuiet36(s);
    DbMySQLTailQuiet39(s);
    DbMySQLTailQuiet42(s);
    DbMySQLTailQuiet45(s);
    DbMySQLTailQuiet48(s);
    Engine.QuietRunJoin(u, n, 33, 36, 39);
    Engine.QuietRunJoin(u, n, 33, 39, 42);
    Engine.QuietRunJoin(u, n, 33, 42, 45);
    Engine.QuietRunJoin(u, n, 33, 45, 48);
    Engine.QuietRunJoin(u, n, 33, 48, 51);
  }

  lemma DbMySQLTailQuietFrom51(s: string)
    requires s == DbSql
    ensures Engine.QuietRun(Union(Rules(MySQL), s), |Rules(MySQL)|, 51, 61)
  {
    var u := Union(Rules(MySQL), s);
    var n := |Rules(MySQL)|;
    DbMySQLTailQuiet51(s);
    DbMySQLTailQuiet53(s);
    DbMySQLTailQuiet55(s);
    DbMySQLTailQuiet58(s);
    Engine.QuietRunJoin(u, n, 51, 53, 55);
    Engine.QuietRunJoin(u, n, 51, 55, 58);
    Engine.QuietRunJoin(u, n, 51, 58, 61);
  }

  /** Under mysql nothing matches around `"examples"`. */
  lemma DbMySQLRuns(sql: string)
    requires sql == DbSql
    ensures Engine.QuietRun(Union(Rules(MySQL), sql), |Rules(MySQL)|, 0, 7)
    ensures Engine.QuietRun(Union(Rules(MySQL), sql), |Rules(MySQL)|, 17, |sql|)
  {
    var u := Union(Rules(MySQL), sql);
    var n := |Rules(MySQL)|;
    DbMySQLHeadQuiet0(sql);
    DbMySQLHeadQuiet3(sql);
    DbMySQLHeadQuiet5(sql);
    Engine.QuietRunJoin(u, n, 0, 3, 5);
    Engine.QuietRunJoin(u, n, 0, 5, 7);
    DbMySQLTailQuietFrom17(sql);
    DbMySQLTailQuietFrom33(sql);
    DbMySQLTailQuietFrom51(sql);
    Engine.QuietRunJoin(u, n, 17, 33, 51);
    Engine.QuietRunJoin(u, n, 17, 51, 61);
  }

  /** Under mysql `"examples"` becomes `?`. */
  lemma DbMySQLSubstitution(sql: string)
    requires sql == DbSql
    ensures Substitute(sql, MySQL) == DbMySQLOut
  {
    Splice(sql, "SELECT ", "\"examples\"", DbRest);
    DbMySQLRuns(sql);
    DbMySQLIdentifierWins(sql);
    SubstituteOneMatch(sql, MySQL, 7, 1, 17);
  }

  lemma DbMySQLOutUnmarked0(s: string)
    requires s == DbMySQLOut
    ensures forall j :: 0 <= j < 8 ==> !Engine.MarkerAt(Markers(MySQL), s, j)
  {
    assert s[0] == 'S' && s[1] == 'E' && s[2] == 'L' && s[3] == 'E' && s[4] == 'C' && s[5] == 'T';
    assert s[6] == ' ' && s[7] == '?' && s[8] == '.';
  }

  lemma DbMySQLOutUnmarked8(s: string)
    requires s == DbMySQLOut
    ensures forall j :: 8 <= j < 16 ==> !Engine.MarkerAt(Markers(MySQL), s, j)
  {
    assert s[8] == '.' && s[9] == 'n' && s[10] == 'a' && s[11] == 'm' && s[12] == 'e' && s[13] == ' ';
    assert s[14] == 'F' && s[15] == 'R' && s[16] == 'O';
  }

  lemma DbMySQLOutUnmarked16(s: string)
    requires s == DbMySQLOut
    ensures forall j :: 16 <= j < 24 ==> !Engine.MarkerAt(Markers(MySQL), s, j)
  {
    assert s[16] == 'O' && s[17] == 'M' && s[18] == ' ' && s[19] == 'e' && s[20] == 'x' && s[21] == 'a';
    assert s[22] == 'm' && s[23] == 'p' && s[24] == 'l';
  }

  lemma DbMySQLOutUnmarked24(s: string)
    requires s == DbMySQLOut
    ensures forall j :: 24 <= j < 32 ==> !Engine.MarkerAt(Markers(MySQL), s, j)
  {
    assert s[24] == 'l' && s[25] == 'e' && s[26] == 's' && s[27] == ' ' && s[28] == 'W' && s[29] == 'H';
    assert s[30] == 'E' && s[31] == 'R' && s[32] == 'E';
  }

  lemma DbMySQLOutUnmarked32(s: string)
    requires s == DbMySQLOut
    ensures forall j :: 32 <= j < 40 ==> !Engine.MarkerAt(Markers(MySQL), s, j)
  {
    assert s[32] == 'E' && s[33] == ' ' && s[34] == 'd' && s[35] == 'b' && s[36] == ' ' && s[37] == '=';
    assert s[38] == ' ' && s[39] == '$' && s[40] == '$';
  }

  lemma DbMySQLOutUnmarked40(s: string)
    requires s == DbMySQLOut
    ensures forall j :: 40 <= j < 48 ==> !Engine.MarkerAt(Markers(MySQL), s, j)
  {
    assert s[40] == '$' && s[41] == 'p' && s[42] == 'o' && s[43] == 's' && s[44] == 't' && s[45] == 'g';
    assert s[46] == 'r' && s[47] == 'e' && s[48] == 's';
  }

  lemma DbMySQLOutUnmarked48(s: string)
    requires s == DbMySQLOut
    ensures forall j :: 48 <= j < 52 ==> !Engine.MarkerAt(Markers(MySQL), s, j)
  {
    assert s[48] == 's' && s[49] == '$' && s[50] == '$' && s[51] == ';';
  }

  /** Under mysql the double-quoted name is replaced and the dollar-quoted
      string is kept; no mysql marker is left, so the result is accepted. */
  lemma DbSpecificMySQL(sql: string)
    requires sql == DbSql
    ensures ObfuscateStrict(sql, MySQL) == Ok(DbMySQLOut)
    ensures Obfuscate(sql, MySQL) == DbMySQLOut
  {
    DbMySQLSubstitution(sql);
    DbMySQLOutUnmarked0(DbMySQLOut);
    DbMySQLOutUnmarked8(DbMySQLOut);
    DbMySQLOutUnmarked16(DbMySQLOut);
    DbMySQLOutUnmarked24(DbMySQLOut);
    DbMySQLOutUnmarked32(DbMySQLOut);
    DbMySQLOutUnmarked40(DbMySQLOut);
    DbMySQLOutUnmarked48(DbMySQLOut);
    assert Engine.NoMarker(Markers(MySQL), DbMySQLOut);
  }

  /** Under postgres `$$postgres$$` is one DOLLAR_QUOTED string: the tag `$$` opens and closes it. */
  lemma DbPostgresDollarEnd(s: string)
    requires s == DbSql
    ensures Quoted.DollarEnd(s, 48) == Some(60)
  {
    assert s[48] == '$' && s[49] == '$' && s[50] == 'p' && s[51] == 'o' && s[52] == 's' && s[53] == 't';
    assert s[54] == 'g' && s[55] == 'r' && s[56] == 'e' && s[57] == 's' && s[58] == '$' && s[59] == '$';
    assert s[60] == ';';
    assert s[48..50] == "$$";
    assert FindFrom(s, "$", 49) == Some(49);
    assert Quoted.DollarTagEnd(s, 48) == Some(50);
    assert FindFrom(s, "$$", 58) == Some(58);
    assert FindFrom(s, "$$", 57) == Some(58);
    assert FindFrom(s, "$$", 56) == Some(58);
    assert FindFrom(s, "$$", 55) == Some(58);
    assert FindFrom(s, "$$", 54) == Some(58);
    assert FindFrom(s, "$$", 53) == Some(58);
    assert FindFrom(s, "$$", 52) == Some(58);
    assert FindFrom(s, "$$", 51) == Some(58);
    assert FindFrom(s, "$$", 50) == Some(58);
  }

  /** Under postgres DOLLAR_QUOTED wins at `$$postgres$$`. */
  lemma DbPostgresDollarWins(s: string)
    requires s == DbSql
    ensures Engine.Wins(Union(Rules(Postgres), s), |Rules(Postgres)|, 48, 1, 60)
  {
    assert s[48] == '$';
    DbPostgresDollarEnd(s);
    DollarWinsUnderPostgres(s, 48, 60);
  }

  /** Under postgres nothing matches before `$$postgres$$`: postgres has no DOUBLE_QUOTED rule. */
  lemma DbPostgresHeadQuiet0(s: string)
    requires s == DbSql
    ensures Engine.QuietRun(Union(Rules(Postgres), s), |Rules(Postgres)|, 0, 2)
  {
    var u := Union(Rules(Postgres), s);
    var n := |Rules(Postgres)|;
    assert s[0] == 'S' && s[1] == 'E' && s[2] == 'L';
    Literals.UuidBrokenAt(s, 1, 1);
    QuietUnless(s, Postgres, 1, 'E', {Uuid});
    assert Engine.QuietRun(u, n, 1, 2);
    QuietUnless(s, Postgres, 0, 'S', {});
  }

  lemma DbPostgresHeadQuiet2(s: string)
    requires s == DbSql
    ensures Engine.QuietRun(Union(Rules(Postgres), s), |Rules(Postgres)|, 2, 4)
  {
    var u := Union(Rules(Postgres), s);
    var n := |Rules(Postgres)|;
    assert s[2] == 'L' && s[3] == 'E' && s[4] == 'C' && s[5] == 'T';
    Literals.UuidBrokenAt(s, 3, 2);
    QuietUnless(s, Postgres, 3, 'E', {Uuid});
    assert Engine.QuietRun(u, n, 3, 4);
    QuietUnless(s, Postgres, 2, 'L', {});
  }

  lemma DbPostgresHeadQuiet4(s: string)
    requires s == DbSql
    ensures Engine.QuietRun(Union(Rules(Postgres), s), |Rules(Postgres)|, 4, 5)
  {
    var u := Union(Rules(Postgres), s);
    var n := |Rules(Postgres)|;
    assert s[4] == 'C' && s[5] == 'T';
    Literals.UuidBrokenAt(s, 4, 1);
    QuietUnless(s, Postgres, 4, 'C', {Uuid});
  }

  lemma DbPostgresHeadQuiet5(s: string)
    requires s == DbSql
    ensures Engine.QuietRun(Union(Rules(Postgres), s), |Rules(Postgres)|, 5, 7)
  {
    var u := Union(Rules(Postgres), s);
    var n := |Rules(Postgres)|;
    assert s[5] == 'T' && s[6] == ' ';
    QuietUnless(s, Postgres, 6, ' ', {});
    assert Engine.QuietRun(u, n, 6, 7);
    Literals.KeywordsMissAt(s, 5, 1, 0, 0);
    QuietUnless(s, Postgres, 5, 'T', {Boolean});
  }

  lemma DbPostgresHeadQuiet7(s: string)
    requires s == DbSql
    ensures Engine.QuietRun(Union(Rules(Postgres), s), |Rules(Postgres)|, 7, 9)
  {
    var u := Union(Rules(Postgres), s);
    var n := |Rules(Postgres)|;
    assert s[7] == '"' && s[8] == 'e' && s[9] == 'x';
    Literals.UuidBrokenAt(s, 8, 1);
    QuietUnless(s, Postgres, 8, 'e', {Uuid});
    assert Engine.QuietRun(u, n, 8, 9);
    QuietUnless(s, Postgres, 7, '"', {});
  }

  lemma DbPostgresHeadQuiet9(s: string)
    requires s == DbSql
    ensures Engine.QuietRun(Union(Rules(Postgres), s), |Rules(Postgres)|, 9, 11)
  {
    var u := Union(Rules(Postgres), s);
    var n := |Rules(Postgres)|;
    assert s[9] == 'x' && s[10] == 'a' && s[11] == 'm';
    Literals.UuidBrokenAt(s, 10, 1);
    QuietUnless(s, Postgres, 10, 'a', {Uuid});
    assert Engine.QuietRun(u, n, 10, 11);
    QuietUnless(s, Postgres, 9, 'x', {});
  }

  lemma DbPostgresHeadQuiet11(s: string)
    requires s == DbSql
    ensures Engine.QuietRun(Union(Rules(Postgres), s), |Rules(Postgres)|, 11, 14)
  {
    var u := Union(Rules(Postgres), s);
    var n := |Rules(Postgres)|;
    assert s[11] == 'm' && s[12] == 'p' && s[13] == 'l';
    QuietUnless(s, Postgres, 13, 'l', {});
    assert Engine.QuietRun(u, n, 13, 14);
    QuietUnless(s, Postgres, 12, 'p', {});
    assert Engine.QuietRun(u, n, 12, 14);
    QuietUnless(s, Postgres, 11, 'm', {});
  }

  lemma DbPostgresHeadQuiet14(s: string)
    requires s == DbSql
    ensures Engine.QuietRun(Union(Rules(Postgres), s), |Rules(Postgres)|, 14, 16)
  {
    var u := Union(Rules(Postgres), s);
    var n := |Rules(Postgres)|;
    assert s[14] == 'e' && s[15] == 's';
    QuietUnless(s, Postgres, 15, 's', {});
    assert Engine.QuietRun(u, n, 15, 16);
    Literals.UuidBrokenAt(s, 14, 1);
    QuietUnless(s, Postgres, 14, 'e', {Uuid});
  }

  lemma DbPostgresHeadQuiet16(s: string)
    requires s == DbSql
    ensures Engine.QuietRun(Union(Rules(Postgres), s), |Rules(Postgres)|, 16, 18)
  {
    var u := Union(Rules(Postgres), s);
    var n := |Rules(Postgres)|;
    assert s[16] == '"' && s[17] == '.';
    QuietUnless(s, Postgres, 17, '.', {});
    assert Engine.QuietRun(u, n, 17, 18);
    QuietUnless(s, Postgres, 16, '"', {});
  }

  lemma DbPostgresHeadQuiet18(s: string)
    requires s == DbSql
    ensures Engine.QuietRun(Union(Rules(Postgres), s), |Rules(Postgres)|, 18, 19)
  {
    var u := Union(Rules(Postgres), s);
    var n := |Rules(Postgres)|;
    assert s[18] == 'n' && s[19] == 'a';
    Literals.KeywordsMissAt(s, 18, 0, 0, 1);
    QuietUnless(s, Postgres, 18, 'n', {Boolean});
  }

  lemma DbPostgresHeadQuiet19(s: string)
    requires s == DbSql
    ensures Engine.QuietRun(Union(Rules(Postgres), s), |Rules(Postgres)|, 19, 21)
  {
    var u := Union(Rules(Postgres), s);
    var n := |Rules(Postgres)|;
    assert s[19] == 'a' && s[20] == 'm';
    QuietUnless(s, Postgres, 20, 'm', {});
    assert Engine.QuietRun(u, n, 20, 21);
    Literals.UuidBrokenAt(s, 19, 1);
    QuietUnless(s, Postgres, 19, 'a', {Uuid});
  }

  lemma DbPostgresHeadQuiet21(s: string)
    requires s == DbSql
    ensures Engine.QuietRun(Union(Rules(Postgres), s), |Rules(Postgres)|, 21, 23)
  {
    var u := Union(Rules(Postgres), s);
    var n := |Rules(Postgres)|;
    assert s[21] == 'e' && s[22] == ' ';
    QuietUnless(s, Postgres, 22, ' ', {});
    assert Engine.QuietRun(u, n, 22, 23);
    Literals.UuidBrokenAt(s, 21, 1);
    QuietUnless(s, Postgres, 21, 'e', {Uuid});
  }

  lemma DbPostgresHeadQuiet23(s: string)
    requires s == DbSql
    ensures Engine.QuietRun(Union(Rules(Postgres), s), |Rules(Postgres)|, 23, 24)
  {
    var u := Union(Rules(Postgres), s);
    var n := |Rules(Postgres)|;
    assert s[23] == 'F' && s[24] == 'R';
    Literals.UuidBrokenAt(s, 23, 1);
    Literals.KeywordsMissAt(s, 23, 0, 1, 0);
    QuietUnless(s, Postgres, 23, 'F', {Uuid, Boolean});
  }

  lemma DbPostgresHeadQuiet24(s: string)
    requires s == DbSql
    ensures Engine.QuietRun(Union(Rules(Postgres), s), |Rules(Postgres)|, 24, 27)
  {
    var u := Union(Rules(Postgres), s);
    var n := |Rules(Postgres)|;
    assert s[24] == 'R' && s[25] == 'O' && s[26] == 'M';
    QuietUnless(s, Postgres, 26, 'M', {});
    assert Engine.QuietRun(u, n, 26, 27);
    QuietUnless(s, Postgres, 25, 'O', {});
    assert Engine.QuietRun(u, n, 25, 27);
    QuietUnless(s, Postgres, 24, 'R', {});
  }

  lemma DbPostgresHeadQuiet27(s: string)
    requires s == DbSql
    ensures Engine.QuietRun(Union(Rules(Postgres), s), |Rules(Postgres)|, 27, 29)
  {
    var u := Union(Rules(Postgres), s);
    var n := |Rules(Postgres)|;
    assert s[27] == ' ' && s[28] == 'e' && s[29] == 'x';
    Literals.UuidBrokenAt(s, 28, 1);
    QuietUnless(s, Postgres, 28, 'e', {Uuid});
    assert Engine.QuietRun(u, n, 28, 29);
    QuietUnless(s, Postgres, 27, ' ', {});
  }

  lemma DbPostgresHeadQuiet29(s: string)
    requires s == DbSql
    ensures Engine.QuietRun(Union(Rules(Postgres), s), |Rules(Postgres)|, 29, 31)
  {
    var u := Union(Rules(Postgres), s);
    var n := |Rules(Postgres)|;
    assert s[29] == 'x' && s[30] == 'a' && s[31] == 'm';
    Literals.UuidBrokenAt(s, 30, 1);
    QuietUnless(s, Postgres, 30, 'a', {Uuid});
    assert Engine.QuietRun(u, n, 30, 31);
    QuietUnless(s, Postgres, 29, 'x', {});
  }

  lemma DbPostgresHeadQuiet31(s: string)
    requires s == DbSql
    ensures Engine.QuietRun(Union(Rules(Postgres), s), |Rules(Postgres)|, 31, 34)
  {
    var u := Union(Rules(Postgres), s);
    var n := |Rules(Postgres)|;
    assert s[31] == 'm' && s[32] == 'p' && s[33] == 'l';
    QuietUnless(s, Postgres, 33, 'l', {});
    assert Engine.QuietRun(u, n, 33, 34);
    QuietUnless(s, Postgres, 32, 'p', {});
    assert Engine.QuietRun(u, n, 32, 34);
    QuietUnless(s, Postgres, 31, 'm', {});
  }

  lemma DbPostgresHeadQuiet34(s: string)
    requires s == DbSql
    ensures Engine.QuietRun(Union(Rules(Postgres), s), |Rules(Postgres)|, 34, 36)
  {
    var u := Union(Rules(Postgres), s);
    var n := |Rules(Postgres)|;
    assert s[34] == 'e' && s[35] == 's';
    QuietUnless(s, Postgres, 35, 's', {});
    assert Engine.QuietRun(u, n, 35, 36);
    Literals.UuidBrokenAt(s, 34, 1);
    QuietUnless(s, Postgres, 34, 'e', {Uuid});
  }

  lemma DbPostgresHeadQuiet36(s: string)
    requires s == DbSql
    ensures Engine.QuietRun(Union(Rules(Postgres), s), |Rules(Postgres)|, 36, 39)
  {
    var u := Union(Rules(Postgres), s);
    var n := |Rules(Postgres)|;
    assert s[36] == ' ' && s[37] == 'W' && s[38] == 'H';
    QuietUnless(s, Postgres, 38, 'H', {});
    assert Engine.QuietRun(u, n, 38, 39);
    QuietUnless(s, Postgres, 37, 'W', {});
    assert Engine.QuietRun(u, n, 37, 39);
    QuietUnless(s, Postgres, 36, ' ', {});
  }

  lemma DbPostgresHeadQuiet39(s: string)
    requires s == DbSql
    ensures Engine.QuietRun(Union(Rules(Postgres), s), |Rules(Postgres)|, 39, 41)
  {
    var u := Union(Rules(Postgres), s);
    var n := |Rules(Postgres)|;
    assert s[39] == 'E' && s[40] == 'R';
    QuietUnless(s, Postgres, 40, 'R', {});
    assert Engine.QuietRun(u, n, 40, 41);
    Literals.UuidBrokenAt(s, 39, 1);
    QuietUnless(s, Postgres, 39, 'E', {Uuid});
  }

  lemma DbPostgresHeadQuiet41(s: string)
    requires s == DbSql
    ensures Engine.QuietRun(Union(Rules(Postgres), s), |Rules(Postgres)|, 41, 43)
  {
    var u := Union(Rules(Postgres), s);
    var n := |Rules(Postgres)|;
    assert s[41] == 'E' && s[42] == ' ';
    QuietUnless(s, Postgres, 42, ' ', {});
    assert Engine.QuietRun(u, n, 42, 43);
    Literals.UuidBrokenAt(s, 41, 1);
    QuietUnless(s, Postgres, 41, 'E', {Uuid});
  }

  lemma DbPostgresHeadQuiet43(s: string)
    requires s == DbSql
    ensures Engine.QuietRun(Union(Rules(Postgres), s), |Rules(Postgres)|, 43, 44)
  {
    var u := Union(Rules(Postgres), s);
    var n := |Rules(Postgres)|;
    assert s[43] == 'd' && s[44] == 'b' && s[45] == ' ';
    Literals.UuidBrokenAt(s, 43, 2);
    QuietUnless(s, Postgres, 43, 'd', {Uuid});
  }

  lemma DbPostgresHeadQuiet44(s: string)
    requires s == DbSql
    ensures Engine.QuietRun(Union(Rules(Postgres), s), |Rules(Postgres)|, 44, 46)
  {
    var u := Union(Rules(Postgres), s);
    var n := |Rules(Postgres)|;
    assert s[44] == 'b' && s[45] == ' ';
    QuietUnless(s, Postgres, 45, ' ', {});
    assert Engine.QuietRun(u, n, 45, 46);
    Literals.UuidBrokenAt(s, 44, 1);
    QuietUnless(s, Postgres, 44, 'b', {Uuid});
  }

  lemma DbPostgresHeadQuiet46(s: string)
    requires s == DbSql
    ensures Engine.QuietRun(Union(Rules(Postgres), s), |Rules(Postgres)|, 46, 48)
  {
    var u := Union(Rules(Postgres), s);
    var n := |Rules(Postgres)|;
    assert s[46] == '=' && s[47] == ' ';
    QuietUnless(s, Postgres, 47, ' ', {});
    assert Engine.QuietRun(u, n, 47, 48);
    QuietUnless(s, Postgres, 46, '=', {});
  }

  lemma DbPostgresHeadQuietFrom0(s: string)
    requires s == DbSql
    ensures Engine.QuietRun(Union(Rules(Postgres), s), |Rules(Postgres)|, 0, 11)
  {
    var u := Union(Rules(Postgres), s);
    var n := |Rules(Postgres)|;
    DbPostgresHeadQuiet0(s);
    DbPostgresHeadQuiet2(s);
    DbPostgresHeadQuiet4(s);
    DbPostgresHeadQuiet5(s);
    DbPostgresHeadQuiet7(s);
    DbPostgresHeadQuiet9(s);
    Engine.QuietRunJoin(u, n, 0, 2, 4);
    Engine.QuietRunJoin(u, n, 0, 4, 5);
    Engine.QuietRunJoin(u, n, 0, 5, 7);
    Engine.QuietRunJoin(u, n, 0, 7, 9);
    Engine.QuietRunJoin(u, n, 0, 9, 11);
  }

  lemma DbPostgresHeadQuietFrom11(s: string)
    requires s == DbSql
    ensures Engine.QuietRun(Union(Rules(Postgres), s), |Rules(Postgres)|, 11, 23)
  {
    var u := Union(Rules(Postgres), s);
    var n := |Rules(Postgres)|;
    DbPostgresHeadQuiet11(s);
    DbPostgresHeadQuiet14(s);
    DbPostgresHeadQuiet16(s);
    DbPostgresHeadQuiet18(s);
    DbPostgresHeadQuiet19(s);
    DbPostgresHeadQuiet21(s);
    Engine.QuietRunJoin(u, n, 11, 14, 16);
    Engine.QuietRunJoin(u, n, 11, 16, 18);
    Engine.QuietRunJoin(u, n, 11, 18, 19);
    Engine.QuietRunJoin(u, n, 11, 19, 21);
    Engine.QuietRunJoin(u, n, 11, 21, 23);
  }

  lemma DbPostgresHeadQuietFrom23(s: string)
    requires s == DbSql
    ensures Engine.QuietRun(Union(Rules(Postgres), s), |Rules(Postgres)|, 23, 36)
  {
    var u := Union(Rules(Postgres), s);
    var n := |Rules(Postgres)|;
    DbPostgresHeadQuiet23(s);
    DbPostgresHeadQuiet24(s);
    DbPostgresHeadQuiet27(s);
    DbPostgresHeadQuiet29(s);
    DbPostgresHeadQuiet31(s);
    DbPostgresHeadQuiet34(s);
    Engine.QuietRunJoin(u, n, 23, 24, 27);
    Engine.QuietRunJoin(u, n, 23, 27, 29);
    Engine.QuietRunJoin(u, n, 23, 29, 31);
    Engine.QuietRunJoin(u, n, 23, 31, 34);
    Engine.QuietRunJoin(u, n, 23, 34, 36);
  }

  lemma DbPostgresHeadQuietFrom36(s: string)
    requires s == DbSql
    ensures Engine.QuietRun(Union(Rules(Postgres), s), |Rules(Postgres)|, 36, 48)
  {
    var u := Union(Rules(Postgres), s);
    var n := |Rules(Postgres)|;
    DbPostgresHeadQuiet36(s);
    DbPostgresHeadQuiet39(s);
    DbPostgresHeadQuiet41(s);
    DbPostgresHeadQuiet43(s);
    DbPostgresHeadQuiet44(s);
    DbPostgresHeadQuiet46(s);
    Engine.QuietRunJoin(u, n, 36, 39, 41);
    Engine.QuietRunJoin(u, n, 36, 41, 43);
    Engine.QuietRunJoin(u, n, 36, 43, 44);
    Engine.QuietRunJoin(u, n, 36, 44, 46);
    Engine.QuietRunJoin(u, n, 36, 46, 48);
  }

  lemma DbPostgresTailQuiet60(s: string)
    requires s == DbSql
    ensures Engine.QuietRun(Union(Rules(Postgres), s), |Rules(Postgres)|, 60, 61)
  {
    var u := Union(Rules(Postgres), s);
    var n := |Rules(Postgres)|;
    assert s[60] == ';';
    QuietUnless(s, Postgres, 60, ';', {});
  }

  /** Under postgres nothing matches around `$$postgres$$`. */
  lemma DbPostgresRuns(sql: string)
    requires sql == DbSql
    ensures Engine.QuietRun(Union(Rules(Postgres), sql), |Rules(Postgres)|, 0, 48)
    ensures Engine.QuietRun(Union(Rules(Postgres), sql), |Rules(Postgres)|, 60, |sql|)
  {
    var u := Union(Rules(Postgres), sql);
    var n := |Rules(Postgres)|;
    DbPostgresHeadQuietFrom0(sql);
    DbPostgresHeadQuietFrom11(sql);
    DbPostgresHeadQuietFrom23(sql);
    DbPostgresHeadQuietFrom36(sql);
    Engine.QuietRunJoin(u, n, 0, 11, 23);
    Engine.QuietRunJoin(u, n, 0, 23, 36);
    Engine.QuietRunJoin(u, n, 0, 36, 48);
    DbPostgresTailQuiet60(sql);
  }

  /** Under postgres `$$postgres$$` becomes `?`. */
  lemma DbPostgresSubstitution(sql: string)
    requires sql == DbSql
    ensures Substitute(sql, Postgres) == DbPostgresOut
  {
    DbSqlAtDollar();
    Splice(sql, DbHead, "$$postgres$$", ";");
    DbPostgresRuns(sql);
    DbPostgresDollarWins(sql);
    SubstituteOneMatch(sql, Postgres, 48, 1, 60);
  }

  lemma DbPostgresOutUnmarked0(s: string)
    requires s == DbPostgresOut
    ensures forall j :: 0 <= j < 8 ==> !Engine.MarkerAt(Markers(Postgres), s, j)
  {
    assert s[0] == 'S' && s[1] == 'E' && s[2] == 'L' && s[3] == 'E' && s[4] == 'C' && s[5] == 'T';
    assert s[6] == ' ' && s[7] == '"' && s[8] == 'e';
  }

  lemma DbPostgresOutUnmarked8(s: string)
    requires s == DbPostgresOut
    ensures forall j :: 8 <= j < 16 ==> !Engine.MarkerAt(Markers(Postgres), s, j)
  {
    assert s[8] == 'e' && s[9] == 'x' && s[10] == 'a' && s[11] == 'm' && s[12] == 'p' && s[13] == 'l';
    assert s[14] == 'e' && s[15] == 's' && s[16] == '"';
  }

  lemma DbPostgresOutUnmarked16(s: string)
    requires s == DbPostgresOut
    ensures forall j :: 16 <= j < 24 ==> !Engine.MarkerAt(Markers(Postgres), s, j)
  {
    assert s[16] == '"' && s[17] == '.' && s[18] == 'n' && s[19] == 'a' && s[20] == 'm' && s[21] == 'e';
    assert s[22] == ' ' && s[23] == 'F' && s[24] == 'R';
  }

  lemma DbPostgresOutUnmarked24(s: string)
    requires s == DbPostgresOut
    ensures forall j :: 24 <= j < 32 ==> !Engine.MarkerAt(Markers(Postgres), s, j)
  {
    assert s[24] == 'R' && s[25] == 'O' && s[26] == 'M' && s[27] == ' ' && s[28] == 'e' && s[29] == 'x';
    assert s[30] == 'a' && s[31] == 'm' && s[32] == 'p';
  }

  lemma DbPostgresOutUnmarked32(s: string)
    requires s == DbPostgresOut
    ensures forall j :: 32 <= j < 40 ==> !Engine.MarkerAt(Markers(Postgres), s, j)
  {
    assert s[32] == 'p' && s[33] == 'l' && s[34] == 'e' && s[35] == 's' && s[36] == ' ' && s[37] == 'W';
    assert s[38] == 'H' && s[39] == 'E' && s[40] == 'R';
  }

  lemma DbPostgresOutUnmarked40(s: string)
    requires s == DbPostgresOut
    ensures forall j :: 40 <= j < 48 ==> !Engine.MarkerAt(Markers(Postgres), s, j)
  {
    assert s[40] == 'R' && s[41] == 'E' && s[42] == ' ' && s[43] == 'd' && s[44] == 'b' && s[45] == ' ';
    assert s[46] == '=' && s[47] == ' ' && s[48] == '?';
  }

  lemma DbPostgresOutUnmarked48(s: string)
    requires s == DbPostgresOut
    ensures forall j :: 48 <= j < 50 ==> !Engine.MarkerAt(Markers(Postgres), s, j)
  {
    assert s[48] == '?' && s[49] == ';';
  }

  /** Under postgres the reverse: the identifier is kept and the
      dollar-quoted string is replaced; `"` is no postgres marker, so the
      result is accepted. */
  lemma DbSpecificPostgres(sql: string)
    requires sql == DbSql
    ensures ObfuscateStrict(sql, Postgres) == Ok(DbPostgresOut)
    ensures Obfuscate(sql, Postgres) == DbPostgresOut
  {
    DbPostgresSubstitution(sql);
    DbPostgresOutUnmarked0(DbPostgresOut);
    DbPostgresOutUnmarked8(DbPostgresOut);
    DbPostgresOutUnmarked16(DbPostgresOut);
    DbPostgresOutUnmarked24(DbPostgresOut);
    DbPostgresOutUnmarked32(DbPostgresOut);
    DbPostgresOutUnmarked40(DbPostgresOut);
    DbPostgresOutUnmarked48(DbPostgresOut);
    assert Engine.NoMarker(Markers(Postgres), DbPostgresOut);
  }

  // ---- Nested comments (test/lib/squelch_test.rb, lines 428-447)

  lemma EmptyComment(s: string)
    requires s == "/**/"
    ensures ObfuscateStrict(s) == Ok("?")
  {
    assert Comments.BlockRest(s, 2) == Some(4);
    WholeComment(s, Default);
  }

  lemma StarComment(s: string)
    requires s == "/***/"
    ensures ObfuscateStrict(s) == Ok("?")
  {
    assert Comments.BlockRest(s, 3) == Some(5);
    assert Comments.BlockRest(s, 2) == Some(5);
    WholeComment(s, Default);
  }

  // The nested `/*/` gives its slash to the close.
  lemma SlashStarSlashComment(s: string)
    requires s == "/*/*/"
    ensures ObfuscateStrict(s) == Ok("?")
  {
    assert Comments.BlockRest(s, 5) == None;
    assert Comments.BlockRest(s, 4) == None;
    assert Comments.BlockRest(s, 2) == Some(5);
    WholeComment(s, Default);
  }

  lemma NestedComment(s: string)
    requires s == "/* /* a */ */"
    ensures ObfuscateStrict(s) == Ok("?")
  {
    assert Comments.BlockRest(s, 8) == Some(10);
    assert Comments.BlockRest(s, 7) == Some(10);
    assert Comments.BlockRest(s, 6) == Some(10);
    assert Comments.BlockRest(s, 5) == Some(10);
    assert Comments.BlockRest(s, 11) == Some(13);
    assert Comments.BlockRest(s, 10) == Some(13);
    assert Comments.BlockRest(s, 3) == Some(13);
    assert Comments.BlockRest(s, 2) == Some(13);
    WholeComment(s, Default);
  }

  lemma UnclosedCommentQuiet0(s: string)
    requires s == "/* a"
    ensures Engine.QuietRun(Union(Rules(Default), s), |Rules(Default)|, 0, 2)
  {
    var u := Union(Rules(Default), s);
    var n := |Rules(Default)|;
    assert s[0] == '/' && s[1] == '*' && s[2] == ' ' && s[3] == 'a';
    QuietUnless(s, Default, 1, '*', {});
    assert Engine.QuietRun(u, n, 1, 2);
    assert Comments.BlockRest(s, 4) == None;
    assert Comments.BlockRest(s, 3) == None;
    assert Comments.BlockRest(s, 2) == None;
    QuietUnless(s, Default, 0, '/', {BlockComment});
  }

  lemma UnclosedCommentQuiet2(s: string)
    requires s == "/* a"
    ensures Engine.QuietRun(Union(Rules(Default), s), |Rules(Default)|, 2, 4)
  {
    var u := Union(Rules(Default), s);
    var n := |Rules(Default)|;
    assert s[2] == ' ' && s[3] == 'a';
    QuietUnless(s, Default, 3, 'a', {Uuid});
    assert Engine.QuietRun(u, n, 3, 4);
    QuietUnless(s, Default, 2, ' ', {});
  }

  // An opening `/*` without its close survives, and the query is rejected naming it.
  lemma UnclosedCommentRejected(sql: string)
    requires sql == "/* a"
    ensures ObfuscateStrict(sql) == Fail(Error(sql, sql, "/*"))
  {
    var u := Union(Rules(Default), sql);
    var n := |Rules(Default)|;
    UnclosedCommentQuiet0(sql);
    UnclosedCommentQuiet2(sql);
    Engine.QuietRunJoin(u, n, 0, 2, 4);
    UnionSound(Rules(Default), sql);
    Engine.ScrubCopiesQuietRun(sql, u, n, 0, |sql|);
    assert Substitute(sql, Default) == sql;
    RejectedAt(sql, Default, sql, 0, "/*");
  }

  lemma UnopenedCommentQuiet0(s: string)
    requires s == "a */"
    ensures Engine.QuietRun(Union(Rules(Default), s), |Rules(Default)|, 0, 2)
  {
    var u := Union(Rules(Default), s);
    var n := |Rules(Default)|;
    assert s[0] == 'a' && s[1] == ' ';
    QuietUnless(s, Default, 1, ' ', {});
    assert Engine.QuietRun(u, n, 1, 2);
    Literals.UuidBrokenAt(s, 0, 1);
    QuietUnless(s, Default, 0, 'a', {Uuid});
  }

  lemma UnopenedCommentQuiet2(s: string)
    requires s == "a */"
    ensures Engine.QuietRun(Union(Rules(Default), s), |Rules(Default)|, 2, 4)
  {
    var u := Union(Rules(Default), s);
    var n := |Rules(Default)|;
    assert s[2] == '*' && s[3] == '/';
    QuietUnless(s, Default, 3, '/', {BlockComment});
    assert Engine.QuietRun(u, n, 3, 4);
    QuietUnless(s, Default, 2, '*', {});
  }

  // A close `*/` without an opening survives, and the query is rejected naming it.
  lemma UnopenedCommentRejected(sql: string)
    requires sql == "a */"
    ensures ObfuscateStrict(sql) == Fail(Error(sql, sql, "*/"))
  {
    var u := Union(Rules(Default), sql);
    var n := |Rules(Default)|;
    UnopenedCommentQuiet0(sql);
    UnopenedCommentQuiet2(sql);
    Engine.QuietRunJoin(u, n, 0, 2, 4);
    UnionSound(Rules(Default), sql);
    Engine.ScrubCopiesQuietRun(sql, u, n, 0, |sql|);
    assert Substitute(sql, Default) == sql;
    RejectedAt(sql, Default, sql, 2, "*/");
  }

  /** In the unbalanced query below, the inner comment is the first one that closes. */
  lemma UnbalancedInnerCommentWins(s: string)
    requires s == "/* a /* */"
    ensures Engine.Wins(Union(Rules(Default), s), |Rules(Default)|, 5, 8, 10)
  {
    assert s[5] == '/' && s[6] == '*' && s[7] == ' ' && s[8] == '*' && s[9] == '/';
    assert Comments.BlockRest(s, 8) == Some(10);
    assert Comments.BlockRest(s, 7) == Some(10);
    WinsAt(s, Default, 5, '/', 8, 10, {});
  }

  /** Nothing matches before the inner comment of the unbalanced query: the outer opening is never closed. */
  lemma UnbalancedNestedQuiet0(s: string)
    requires s == "/* a /* */"
    ensures Engine.QuietRun(Union(Rules(Default), s), |Rules(Default)|, 0, 2)
  {
    var u := Union(Rules(Default), s);
    var n := |Rules(Default)|;
    assert s[0] == '/' && s[1] == '*' && s[2] == ' ' && s[3] == 'a' && s[4] == ' ' && s[5] == '/';
    assert s[6] == '*' && s[7] == ' ' && s[8] == '*' && s[9] == '/';
    QuietUnless(s, Default, 1, '*', {});
    assert Engine.QuietRun(u, n, 1, 2);
    assert Comments.BlockRest(s, 8) == Some(10);
    assert Comments.BlockRest(s, 7) == Some(10);
    assert Comments.BlockRest(s, 10) == None;
    assert Comments.BlockRest(s, 5) == None;
    assert Comments.BlockRest(s, 4) == None;
    assert Comments.BlockRest(s, 3) == None;
    assert Comments.BlockRest(s, 2) == None;
    QuietUnless(s, Default, 0, '/', {BlockComment});
  }

  lemma UnbalancedNestedQuiet2(s: string)
    requires s == "/* a /* */"
    ensures Engine.QuietRun(Union(Rules(Default), s), |Rules(Default)|, 2, 4)
  {
    var u := Union(Rules(Default), s);
    var n := |Rules(Default)|;
    assert s[2] == ' ' && s[3] == 'a' && s[4] == ' ';
    Literals.UuidBrokenAt(s, 3, 1);
    QuietUnless(s, Default, 3, 'a', {Uuid});
    assert Engine.QuietRun(u, n, 3, 4);
    QuietUnless(s, Default, 2, ' ', {});
  }

  lemma UnbalancedNestedQuiet4(s: string)
    requires s == "/* a /* */"
    ensures Engine.QuietRun(Union(Rules(Default), s), |Rules(Default)|, 4, 5)
  {
    var u := Union(Rules(Default), s);
    var n := |Rules(Default)|;
    assert s[4] == ' ';
    QuietUnless(s, Default, 4, ' ', {});
  }

  /** The inner comment of the unbalanced query becomes `?`. */
  lemma UnbalancedNestedSubstitution(sql: string)
    requires sql == "/* a /* */"
    ensures Substitute(sql, Default) == "/* a ?"
  {
    var u := Union(Rules(Default), sql);
    var n := |Rules(Default)|;
    UnbalancedNestedQuiet0(sql);
    UnbalancedNestedQuiet2(sql);
    UnbalancedNestedQuiet4(sql);
    Engine.QuietRunJoin(u, n, 0, 2, 4);
    Engine.QuietRunJoin(u, n, 0, 4, 5);
    UnbalancedInnerCommentWins(sql);
    SubstituteOneMatch(sql, Default, 5, 8, 10);
    assert sql[..5] + [Placeholder] + sql[10..] == "/* a ?";
  }

  // The outer `/*` of `/* a /* */` is never closed: the inner comment
  // becomes `?`, the outer opening survives, and the query is rejected naming it.
  lemma UnbalancedNestedRejected(sql: string)
    requires sql == "/* a /* */"
    ensures ObfuscateStrict(sql) == Fail(Error(sql, "/* a ?", "/*"))
  {
    UnbalancedNestedSubstitution(sql);
    var out := "/* a ?";
    assert out[0] == '/' && out[1] == '*';
    RejectedAt(sql, Default, out, 0, "/*");
  }

  // ---- A second pass can change the output

  /** Under mysql, `0x1f` is HEXADECIMAL; NUMBER, tried first, fails for want of a word boundary after `0`. */
  lemma HexWins(s: string)
    requires s == "0x1ftrue"
    ensures Engine.Wins(Union(Rules(MySQL), s), |Rules(MySQL)|, 0, 4, 4)
  {
    assert s[0] == '0' && s[1] == 'x' && s[2] == '1' && s[3] == 'f' && s[4] == 't' && s[5] == 'r';
    assert s[6] == 'u' && s[7] == 'e';
    assert Literals.NumberEnd(s, 0).None?;
    assert Literals.HexEnd(s, 0) == Some(4);
    WinsAt(s, MySQL, 0, '0', 4, 4, {Number});
  }

  lemma HexTailQuiet4(s: string)
    requires s == "0x1ftrue"
    ensures Engine.QuietRun(Union(Rules(MySQL), s), |Rules(MySQL)|, 4, 6)
  {
    var u := Union(Rules(MySQL), s);
    var n := |Rules(MySQL)|;
    assert s[3] == 'f' && s[4] == 't' && s[5] == 'r';
    QuietUnless(s, MySQL, 5, 'r', {});
    assert Engine.QuietRun(u, n, 5, 6);
    Literals.BooleanNeedsBoundary(s, 4);
    QuietUnless(s, MySQL, 4, 't', {Boolean});
  }

  lemma HexTailQuiet6(s: string)
    requires s == "0x1ftrue"
    ensures Engine.QuietRun(Union(Rules(MySQL), s), |Rules(MySQL)|, 6, 8)
  {
    var u := Union(Rules(MySQL), s);
    var n := |Rules(MySQL)|;
    assert s[6] == 'u' && s[7] == 'e';
    QuietUnless(s, MySQL, 7, 'e', {});
    assert Engine.QuietRun(u, n, 7, 8);
    QuietUnless(s, MySQL, 6, 'u', {});
  }

  /** After a placeholder, `true` starts a word and is a BOOLEAN. */
  lemma TrueWins(s: string)
    requires s == "?true"
    ensures Engine.Wins(Union(Rules(MySQL), s), |Rules(MySQL)|, 1, 3, 5)
  {
    assert s[0] == '?' && s[1] == 't' && s[2] == 'r' && s[3] == 'u' && s[4] == 'e';
    assert Literals.KeywordAt(s, 1, "true");
    assert Literals.BooleanEnd(s, 1) == Some(5);
    WinsAt(s, MySQL, 1, 't', 3, 5, {});
  }

  lemma PlaceholderHeadQuiet0(s: string)
    requires s == "?true"
    ensures Engine.QuietRun(Union(Rules(MySQL), s), |Rules(MySQL)|, 0, 1)
  {
    var u := Union(Rules(MySQL), s);
    var n := |Rules(MySQL)|;
    assert s[0] == '?';
    QuietUnless(s, MySQL, 0, '?', {});
  }

  /** `0x1ftrue` becomes `?true` under mysql: in the original text `true`
      follows `f` and is not a word of its own. */
  lemma HexThenWord(sql: string)
    requires sql == "0x1ftrue"
    ensures Substitute(sql, MySQL) == "?true"
  {
    var u := Union(Rules(MySQL), sql);
    var n := |Rules(MySQL)|;
    HexWins(sql);
    HexTailQuiet4(sql);
    HexTailQuiet6(sql);
    Engine.QuietRunJoin(u, n, 4, 6, 8);
    SubstituteOneMatch(sql, MySQL, 0, 4, 4);
  }

  /** `?true` becomes `??` under mysql. */
  lemma PlaceholderThenWord(sql: string)
    requires sql == "?true"
    ensures Substitute(sql, MySQL) == "??"
  {
    var u := Union(Rules(MySQL), sql);
    var n := |Rules(MySQL)|;
    PlaceholderHeadQuiet0(sql);
    TrueWins(sql);
    SubstituteOneMatch(sql, MySQL, 1, 3, 5);
    assert sql[5..] == [];
  }

  /** Substitution is not idempotent: running it on its own output can
      replace more. */
  lemma SubstitutionNotIdempotent(sql: string)
    requires sql == "0x1ftrue"
    ensures Substitute(Substitute(sql, MySQL), MySQL) != Substitute(sql, MySQL)
  {
    HexThenWord(sql);
    PlaceholderThenWord("?true");
  }

}
