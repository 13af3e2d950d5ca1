# squelch, modelled in Dafny

squelch is a small Ruby library that obfuscates SQL. It replaces every data
literal and every comment of a query with the placeholder `?`, so the query
reads like a prepared statement. It works in two steps:

1. **Substitution.** One left-to-right `gsub` pass uses the union of the
   lexical rules of the chosen database dialect. At each offset the first
   rule in dialect order that matches wins, and its whole match becomes one
   `?`.
2. **Check.** The output is searched for leftover delimiter markers: a quote,
   a `$` not followed by `?` (a backslash before it does not matter), `/*`
   or `*/`.
   - `Squelch.obfuscate!` raises `Squelch::Error` if a marker survives. The
     error holds the input, the substituted text and the leftmost marker.
   - `Squelch.obfuscate` returns `?` instead.

This project models the whole pipeline as pure functions over strings
(`seq<char>`). The modules follow the library's files:

| module | file | what it holds |
|---|---|---|
| `Chars` | — | character classes, `\b`, runs of digits and hex digits, first occurrence of a text |
| `Quoted` | lib/squelch/patterns.rb | SINGLE_QUOTED and DOUBLE_QUOTED as one scan, DOLLAR_QUOTED, ORACLE_QUOTED |
| `Comments` | lib/squelch/patterns.rb | LINE_COMMENT; BLOCK_COMMENT with its backtracking, and a depth-counter reference to compare it with |
| `Literals` | lib/squelch/patterns.rb | UUID, NUMBER, BOOLEAN, HEXADECIMAL |
| `Patterns` | lib/squelch/patterns.rb | the ten rules as one enum, and `MatchEnd(rule, s, i)`: the end of the rule's match at `i`, if any |
| `Pairs` | lib/squelch/pairs.rb | the four markers |
| `Database` | lib/squelch/database.rb | per-dialect rule and marker lists, with the fallback to the default lists |
| `Errors` | lib/squelch/error.rb | the error record and its message |
| `Engine` | lib/squelch.rb | the leftmost-first substitution pass over any ordered list of alternatives, its reading as a sequence of pieces, and the leftmost-marker search |
| `Squelch` | lib/squelch.rb | `Substitute`, `ObfuscateStrict` (`obfuscate!`), `Obfuscate` |
| `Examples`, `RuleExamples` | lib/squelch.rb, test/lib/squelch_test.rb | the documented examples and test cases, proved on the model |

Each rule is a hand-written matcher: `MatchEnd(rule, s, i)` is the end of the
match that starts at `i`. It is read against the original string, because the
lookaheads and `\b` of `gsub` see the original text, not the text being
rewritten. The substitution engine is generic over the alternatives. It is
proved to be the unique leftmost-first reading of the input (`Engine.Parses`),
and `Squelch.Union` binds it to a dialect's rules.

## Model

| member | source | states |
|---|---|---|
| `Squelch.ObfuscateStrict` | lib/squelch.rb:103-107 | The result is `Ok` exactly when the substituted text holds no marker of the dialect, and then it is that text. A `Fail` carries the untouched input, the substituted text, and the text of the leftmost marker found in it. The dialect defaults to `Default`. |
| `Squelch.Obfuscate` | lib/squelch.rb:87-91 | Equals the strict result when that succeeds and `?` when it fails. Either way the result holds no marker of the dialect, which is the safety invariant. |
| `Squelch.Substitute` | lib/squelch.rb:104 | No rule matches the empty string, so the output is never longer than the input. |
| `Squelch.SubstituteRendersReading` | lib/squelch.rb:104 | For any leftmost-first reading of the input into kept characters and matched spans, the output is that reading with each span replaced by one `?`. The reading's pieces put together give back the input. |
| `Squelch.UnionNoneAtIff` | lib/squelch.rb:104 | The union of a dialect's rules matches nothing at an offset exactly when none of its rules does. |
| `Squelch.PlaceholdersUnmatched` | lib/squelch.rb:104 | No rule starts at a `?` already in the input, so such a `?` is copied through. |
| `Squelch.UnchangedIffNothingMatches` | lib/squelch.rb:104 | The pass leaves the input unchanged exactly when no rule of the dialect matches anywhere in it. |
| `Squelch.Check` | lib/squelch.rb:105-106 | The marker search on the output: accept exactly when no marker occurs; otherwise fail with the input, the output and the leftmost marker's text. |
| `Squelch.RejectedAt` | lib/squelch.rb:105-106 | If the first marker of the substituted text is at `p` with text `t`, the strict call fails with exactly `(sql, output, t)` and the lenient call gives `?`. |
| `Squelch.FailureNamesDelimiter` | lib/squelch/error.rb:19-26 | Every failure's message names its delimiter, and the delimiter is one of the marker texts. |
| `Squelch.EmptyQuery` | lib/squelch.rb:103-107 | The empty query is accepted unchanged under every dialect. |
| `Squelch.SubstituteOneMatch` | lib/squelch.rb:104 | A query in which exactly one rule wins, at `a` up to `e`, becomes its text before `a`, then `?`, then its text from `e`. |
| `Squelch.WholeMatch` | lib/squelch.rb:103-107 | A query that one winning match covers entirely becomes `?` and is accepted. |
| `Squelch.Union` | lib/squelch/database.rb:7-60 | `Regexp.union` of a rule list: alternative `k` at offset `i` is rule `k`'s match there; `Squelch.UnionNoneAtIff` states what it gives. |
| `Squelch.SingleQuotedLiteral` | lib/squelch/patterns.rb:13-25 | Any text written as a single-quoted literal, with its quotes doubled, is obfuscated to `?` and accepted under every dialect. This holds for every text, backslashes included: a backslash followed by a quote takes the rest of the input, and that rest ends at the closing quote. |
| `Squelch.DoubleQuotedLiteral` | lib/squelch/patterns.rb:27-39 | The same for a double-quoted literal, for every text, under the dialects with DOUBLE_QUOTED: mysql, default, and every key outside the table. |
| `Engine.Scrub` | lib/squelch.rb:104 | The `gsub` pass from an offset: at each offset the first alternative that matches has its match replaced by one `?`; otherwise the character is kept. The output is never longer than what is left of the input. Its lemmas below say what the output is. |
| `Engine.FirstMatch` | lib/squelch.rb:104 | The first alternative in order that matches at an offset; `None` exactly when none matches. |
| `Engine.FirstMatchIsWinner` | lib/squelch.rb:104 | The first match is the winner: it matches and every earlier alternative fails. |
| `Engine.WinnerUnique` | lib/squelch.rb:104 | At most one alternative and end wins at an offset. |
| `Engine.ScrubCopiesQuietRun` | lib/squelch.rb:104 | Over a stretch where nothing matches, the pass copies the input verbatim. |
| `Engine.ScrubReplacesWinner` | lib/squelch.rb:104 | Where an alternative wins, the pass writes one `?` and resumes after the match. |
| `Engine.ScrubOneMatch` | lib/squelch.rb:104 | Quiet text, one winning match, then quiet text: the output is the prefix, `?`, and the suffix. |
| `Engine.Tokenize` | lib/squelch.rb:104 | Every input has a leftmost-first reading, and the reading's pieces put together give back the input. |
| `Engine.ScrubRendersParse` | lib/squelch.rb:104 | The pass's output is the rendering of any leftmost-first reading. |
| `Engine.ParseUnique` | lib/squelch.rb:104 | An input has exactly one leftmost-first reading. |
| `Engine.ScrubUnchangedIff` | lib/squelch.rb:104 | Provided nothing matches at a `?`, the output equals the input exactly when nothing matches anywhere. |
| `Engine.MarkerText` | lib/squelch.rb:105 | The text of the first marker in list order that matches at an offset; `None` exactly when none does. |
| `Engine.FirstMarker` | lib/squelch.rb:105 | The leftmost offset where some marker matches, with that marker's text; `None` exactly when no marker matches anywhere. |
| `Quoted.QuotedEnd` | lib/squelch/patterns.rb:13-39 | A match opens at the quote. Where it stops short of the end of the input, it closes on a quote that no quote follows. |
| `Quoted.QuotedBodyEnd` | lib/squelch/patterns.rb:15-24 | The body scan: a match found from `p` ends after `p`. Where it stops short of the end of the input, it closes on a quote that no quote follows. |
| `Quoted.EscapedTextScanned` | lib/squelch/patterns.rb:15-19 | The scan passes over a body with its quotes doubled, without stopping inside it, provided every backslash of the text is followed by a character other than the quote. |
| `Quoted.EscapedTextTaken` | lib/squelch/patterns.rb:15-21 | Over any body with its quotes doubled, the scan either gets past it or, at a backslash followed by the quote, takes the rest of the input. |
| `Quoted.QuotedLiteralWhole` | lib/squelch/patterns.rb:13-39 | A literal with nothing after it is matched whole, whatever its text. |
| `Quoted.EscapedTextUnclosed` | lib/squelch/patterns.rb:15-24 | An escaped body that runs to the end of the input, with no backslash followed by the quote, is scanned to the end without a match. |
| `Quoted.QuotedLiteralMatched` | lib/squelch/patterns.rb:13-39 | Round trip: a text with its quotes doubled and wrapped in quotes is matched up to its closing quote, whatever follows. Two exceptions: another quote right after, which would make the closing quote a doubled one, and a backslash in the text followed by the quote (or ending the text), which takes the rest of the input instead. |
| `Quoted.QuotedUnterminatedUnmatched` | lib/squelch/patterns.rb:20-24 | An opening quote and a body with no closing quote is no match, provided no backslash of the body is followed by the quote. A backslash at the very end is allowed. |
| `Quoted.QuotedBackslashTakesRest` | lib/squelch/patterns.rb:21 | A backslash-quote after any escaped body, backslashes in the body included, makes the match run to the end of the input, whatever follows. |
| `Quoted.DollarTagEnd` | lib/squelch/patterns.rb:42-47 | A dollar tag opens at `$` not followed by a digit, and exactly when a later `$` exists. It runs to the very next `$` and holds no `$` inside. |
| `Quoted.DollarEnd` | lib/squelch/patterns.rb:41-50 | DOLLAR_QUOTED matches exactly when the tag opens and a later copy of the same tag exists. The match ends at the first such copy. |
| `Quoted.OracleEnd` | lib/squelch/patterns.rb:6-11 | ORACLE_QUOTED matches `q'` and an opening bracket exactly when the matching closer followed by `'` occurs later. The match ends at the first such closer. |
| `Comments.LineCommentEnd` | lib/squelch/patterns.rb:52-56 | A line comment opens exactly at `#` or `--`. It ends just before the first `\r` or `\n`, or at the end of the input, so the line break survives. |
| `Comments.BlockCommentEnd` | lib/squelch/patterns.rb:58-71 | A match opens at `/*` and ends just after a `*/`. |
| `Comments.BlockRest` | lib/squelch/patterns.rb:60-70 | The recursive body of BLOCK_COMMENT from `p`: a match found from `p` ends just after a `*/` at least two characters on. |
| `Comments.BlockCommentIsDepthCounter` | lib/squelch/patterns.rb:58-71 | Wherever the text holds no `/*/`, the recursive, backtracking comment pattern agrees with a depth counter: `/*` goes one level deeper, `*/` one level out, and the comment closes at depth zero. |
| `Comments.SlashStarSlashSplitsThem` | lib/squelch/patterns.rb:69 | On `/*/*/` they differ. The pattern matches the whole text, because of its optional `/` before the close. The depth counter finds no close. |
| `Literals.UuidGroupsAreCanonical` | lib/squelch/patterns.rb:73 | The five hex groups separated by dashes are exactly the 36-character 8-4-4-4-12 layout. |
| `Literals.UuidEnd` | lib/squelch/patterns.rb:73 | UUID matches exactly when the 8-4-4-4-12 layout follows the optional `{`. The match takes in a `}` after it when there is one, independently of the `{`. |
| `Literals.UuidBrokenAt` | lib/squelch/patterns.rb:73 | A UUID fails when any of its 36 characters is out of place. |
| `Literals.ExponentEnd` | lib/squelch/patterns.rb:75 | An exponent `[eE][+-]?[0-9]+` found at `p` is at least two characters long and ends on a digit that no digit follows. |
| `Literals.ExponentEndLongest` | lib/squelch/patterns.rb:75 | What ExponentEnd finds is an exponent; every exponent at `p` is found, and any shorter one stops before a digit. |
| `Literals.MantissaEnd` | lib/squelch/patterns.rb:75 | The digits, optional exponent and closing `\b` found from `q` end on a digit at a word boundary. |
| `Literals.MantissaEndSound` | lib/squelch/patterns.rb:75 | What MantissaEnd finds is every digit at `q` followed by an optional exponent. |
| `Literals.MantissaEndLongest` | lib/squelch/patterns.rb:75 | Every mantissa at `q` that ends at a word boundary is found by MantissaEnd, or a longer one is. |
| `Literals.NumberEnd` | lib/squelch/patterns.rb:75 | A number starts at a `-` followed by a digit, or at a digit with no word character before it. It ends on a digit at a word boundary. |
| `Literals.NumberEndSound` | lib/squelch/patterns.rb:75 | What NumberEnd finds is a match of NUMBER (`IsNumberAt`, read directly off the pattern: sign, `\b`, optional `digits.`, digits, optional exponent, `\b`). |
| `Literals.NumberCovered` | lib/squelch/patterns.rb:75 | Every match of NUMBER at `i` is found by NumberEnd, or a longer one is. |
| `Literals.NumberEndLongest` | lib/squelch/patterns.rb:75 | NumberEnd finds a match exactly when NUMBER matches at `i`, and it finds the longest match. That is the one the backtracking matcher returns: its greedy `?` and `+` try longer readings first, and any reading that succeeds earlier in that order ends further on. |
| `Literals.BooleanEnd` | lib/squelch/patterns.rb:77 | BOOLEAN matches exactly when one of `true`, `false`, `null` is there as a whole word in any letter case, and the match is that word. |
| `Literals.KeywordsMissAt` | lib/squelch/patterns.rb:77 | BOOLEAN fails once each keyword is seen to differ at one of its characters. |
| `Literals.BooleanNeedsBoundary` | lib/squelch/patterns.rb:77 | BOOLEAN never matches inside a word. |
| `Literals.HexEnd` | lib/squelch/patterns.rb:79 | HEXADECIMAL matches exactly at `0x` followed by a hex digit, and takes the longest run of hex digits. |
| `Patterns.MatchEnd` | lib/squelch/patterns.rb:6-79 | Every rule's match is non-empty, stays in the input, and starts with a character that can open that rule. |
| `Patterns.PlaceholderStartsNoMatch` | lib/squelch/patterns.rb:6-79 | No rule starts at a `?`. |
| `Pairs.MarkerEnd` | lib/squelch/pairs.rb:6-9 | A marker matches exactly where one of its texts occurs, with one exception: a `$` directly followed by `?` is not flagged, and a `$` that is flagged is never followed by `?`. |
| `Pairs.ScrubbedParameterUnflagged` | lib/squelch/pairs.rb:8 | The `$?` left after a positional `$1` is scrubbed is not flagged. |
| `Pairs.MarkerTextsDisjoint` | lib/squelch/pairs.rb:6-9 | No two markers share a text. |
| `Database.Rules` | lib/squelch/database.rb:6-65 | `Database.pattern`: the rules of each dialect in the order the union tries them. A key outside the table gets the default list. |
| `Database.RulesShape` | lib/squelch/database.rb:7-60 | Every dialect lists SINGLE_QUOTED first and has no rule twice. Each list is drawn from the default list, and each has NUMBER and both comment rules. |
| `Database.DefaultHoldsEveryRule` | lib/squelch/database.rb:49-60 | The default list holds all ten rules. |
| `Database.Markers` | lib/squelch/database.rb:67-99 | `Database.pairs`: the markers each dialect checks. A key outside the table gets the default list. |
| `Database.MarkersShape` | lib/squelch/database.rb:67-95 | Every marker a dialect checks is consumed by a rule of that dialect, so `"` only where DOUBLE_QUOTED is enabled and `$` only where DOLLAR_QUOTED is. Each dialect checks `'` and the block-comment markers, none twice. |
| `Database.UnknownKeyIsDefault` | lib/squelch/database.rb:63-65 | Any key outside the table gets the default rules and the default markers (also lines 97-99). |
| `Database.TablesDiffer` | test/lib/squelch/database_test.rb:7-19 | The mysql rules differ from the default rules, and the postgres markers from the default markers. |
| `Database.OnlyDoubleQuotedOpensAtQuote` | lib/squelch/patterns.rb:6-79 | At a `"` no rule other than DOUBLE_QUOTED can match. |
| `Database.DoubleQuotesAreIdentifiers` | lib/squelch/database.rb:16-48 | Under postgres, sqlite, oracle and cassandra nothing matches at a `"`, so double-quoted identifiers stay. |
| `Errors.Message` | lib/squelch/error.rb:23-25 | The stripped message `Failed to squelch SQL, delimiter <d> remained after obfuscation`. |
| `Errors.DelimiterOf` | lib/squelch/error.rb:23-25 | Reads the delimiter back out of a message in the documented form. |
| `Errors.MessageNamesDelimiter` | lib/squelch/error.rb:19-26 | The message is `Failed to squelch SQL, delimiter <d> remained after obfuscation`, and the delimiter can be read back from it. |
| `Examples.BasicQuery` | lib/squelch.rb:42-44 | `... name = 'basic';` becomes `... name = ?;` and is accepted. |
| `Examples.MalformedQuery` | lib/squelch.rb:46-59 | `... name = ''malformed';` fails with the input, the output `... name = ?malformed';` and delimiter `'`; the lenient call gives `?`. |
| `Examples.MalformedMessage` | lib/squelch.rb:57 | The message of that failure, word for word. |
| `Examples.DbSpecificMySQL` | lib/squelch.rb:61-66 | Under mysql the `"examples"` name becomes `?` and `$$postgres$$` stays; the result is accepted. |
| `Examples.DbSpecificPostgres` | lib/squelch.rb:68-72 | Under postgres the name stays and `$$postgres$$` becomes `?`; the result is accepted. |
| `Examples.WholeComment` | test/lib/squelch_test.rb:428-436 | A query that is one block comment becomes `?` under every dialect. |
| `Examples.EmptyComment` | test/lib/squelch_test.rb:429 | `/**/` becomes `?`. |
| `Examples.StarComment` | test/lib/squelch_test.rb:430 | `/***/` becomes `?`. |
| `Examples.SlashStarSlashComment` | test/lib/squelch_test.rb:431 | `/*/*/` becomes `?`. |
| `Examples.NestedComment` | test/lib/squelch_test.rb:433 | `/* /* a */ */` becomes `?`. |
| `Examples.UnclosedCommentRejected` | test/lib/squelch_test.rb:438 | `/* a` is rejected, naming `/*`. |
| `Examples.UnopenedCommentRejected` | test/lib/squelch_test.rb:439 | `a */` is rejected, naming `*/`. |
| `Examples.UnbalancedNestedSubstitution` | test/lib/squelch_test.rb:440 | In `/* a /* */` only the inner comment is replaced: the output is `/* a ?`. |
| `Examples.UnbalancedNestedRejected` | test/lib/squelch_test.rb:440 | `/* a /* */` is rejected, naming `/*`. The inner comment becomes `?`, and the outer `/*` survives. |
| `Examples.HexThenWord` | lib/squelch/patterns.rb:77-79 | Under mysql `0x1ftrue` becomes `?true`. In the original text `true` follows `f`, so it is not a word. |
| `Examples.PlaceholderThenWord` | lib/squelch/patterns.rb:77 | Under mysql `?true` becomes `??`. |
| `Examples.SubstitutionNotIdempotent` | lib/squelch.rb:104 | A second pass can change the output: `0x1ftrue` gives `?true`, then `??`. |
| `Examples.HexWins` | lib/squelch/patterns.rb:75-79 | Under mysql at the start of `0x1ftrue`, NUMBER fails and HEXADECIMAL wins with `0x1f`. |
| `Examples.TrueWins` | lib/squelch/patterns.rb:77 | Under mysql in `?true`, BOOLEAN wins at `true`. |
| `RuleExamples.DollarQuotedMatched` | lib/squelch/patterns.rb:41-50 | A tag, a body in which the tag does not start, and the tag again: the match ends after the second tag, whatever follows. Other tags inside the body stay inside. |
| `RuleExamples.OracleQuotedMatched` | lib/squelch/patterns.rb:6-11 | `q'`, a bracket, a text without the closer, then the closer and `'`: the match ends right there, whatever follows. |
| `RuleExamples.NegativeExponent` | test/lib/squelch_test.rb:348-354 | `-1.234e-5` is one number. |
| `RuleExamples.Fraction` | test/lib/squelch_test.rb:116-122 | `123.456` is one number. |
| `RuleExamples.BareFraction` | lib/squelch/patterns.rb:75 | In `.5` only the `5` is a number. |
| `RuleExamples.DigitsInIdentifiers` | test/lib/squelch_test.rb:108-114 | No number starts inside `c11` or `t001`. |
| `RuleExamples.Booleans` | test/lib/squelch_test.rb:388-394 | `true` and `FALSE` are booleans; the `true` of `truestory` is not. |
| `RuleExamples.Hexadecimals` | test/lib/squelch_test.rb:324-338 | `0x2F` and `0xabcdef123` are hexadecimal literals. |
| `RuleExamples.LineCommentStops` | lib/squelch/patterns.rb:52-56 | In `-- x` and a newline, the comment stops before the newline. |
| `RuleExamples.BareUuid` | test/lib/squelch_test.rb:356-362 | The dashed UUID of the test is matched whole. |
| `RuleExamples.BracedUuid` | test/lib/squelch_test.rb:364-370 | Wrapping a matched UUID in braces makes the match take in both braces. |

## Left out

- Unicode. `\b`, `\h` and case-insensitive matching work on ASCII only: word characters are `[A-Za-z0-9_]`, and only ASCII letters change case.
- Exceptions. Raising and rescuing `Squelch::Error` are modelled as the `Outcome` datatype (`Ok` or `Fail`). The `StandardError` superclass is not modelled.
- Freezing of the tables and sharing between threads. The model is pure, so neither arises.
- The version require and the test helper and wiring (test/test_helper.rb): they do no obfuscation.
- The expectations of test/lib/squelch_test.rb:372-386 (a UUID without dashes, and one with dashes in the wrong places). The UUID pattern cannot match them, so they are not stated.
- Ruby's symbol keys. A dialect is a datatype. `Other(key)` stands for every key outside the table, including a string such as `"mysql"` where the table holds the symbol `:mysql`.
- `Squelch.Substitute`: its ensures only bounds the length. What the output is comes from `Squelch.SubstituteRendersReading` and `Engine.ScrubRendersParse`.
- `Comments.BlockCommentEnd`: its ensures gives only the shape of a match. The agreement with a depth counter (`Comments.BlockCommentIsDepthCounter`) and the comment examples pin it down further.
- The worked examples. The documented queries are written as concatenations of named pieces, but they are the same strings.
- Encodings. Strings are sequences of characters, so input with a broken encoding is outside the model. So is the `ArgumentError` that `gsub` raises on it, which escapes `obfuscate` because lib/squelch.rb:87-91 rescues only `Squelch::Error`.

## Behaviour worth knowing

- A second pass can change the output. `0x1ftrue` becomes `?true`, which becomes `??` (`Examples.SubstitutionNotIdempotent`).
- Block comments. The pattern agrees with a depth counter except on texts containing `/*/`, where its optional `/` before the close lets more through (`Comments.SlashStarSlashSplitsThem`).
- Backslash-quote. The comment at lib/squelch/patterns.rb:21 says "at the end of the string". The pattern takes a backslash-quote anywhere the scan reaches, and then the rest of the input (`Quoted.QuotedBackslashTakesRest`).
- Numbers. The pattern needs digits before the `.`, so `.5` yields only `5` (`RuleExamples.BareFraction`).
- UUID braces. The two braces are independently optional.
