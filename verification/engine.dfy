/** The two string operations lib/squelch.rb builds on: the substitution
    pass `sql.gsub(pattern, "?")` over a union of alternatives, and the
    search `obfuscated.match(pairs)` for the leftmost leftover marker.
    The substitution pass is stated for any union: the alternatives are a
    function from (alternative index, offset) to the end of that
    alternative's match at that offset. */
module Engine {
  import opened Chars
  import opened Pairs

  /** `m(k, i)` is the end of the match of the k-th alternative of the
      union starting at offset `i` of the input, if it matches there. */
  type Alternatives = (nat, nat) -> Option<nat>

  /** Every match of the first `n` alternatives is non-empty and stays
      inside an input of length `len`. */
  ghost predicate Sound(m: Alternatives, n: nat, len: nat) {
    forall k: nat, i: nat :: k < n && i <= len && m(k, i).Some? ==> i < m(k, i).value <= len
  }

  /** No alternative matches at `i`. */
  predicate NoneAt(m: Alternatives, n: nat, i: nat) {
    forall k: nat :: k < n ==> m(k, i).None?
  }

  /** Alternative `k` matches at `i`, ending at `end`, and no earlier one
      matches there: the union tries its alternatives in order and takes
      the first that succeeds. */
  predicate Wins(m: Alternatives, n: nat, i: nat, k: nat, end: nat) {
    k < n && m(k, i) == Some(end) && forall j: nat :: j < k ==> m(j, i).None?
  }

  /** Which alternative matched, and where its match ends. */
  datatype Hit = Hit(alt: nat, end: nat)

  /** The union's match at `i`, trying alternatives from `k` on. */
  function FirstMatch(m: Alternatives, n: nat, i: nat, k: nat := 0): (r: Option<Hit>)
    requires k <= n
    ensures r.None? <==> forall j: nat :: k <= j < n ==> m(j, i).None?
    ensures r.Some? ==> k <= r.value.alt < n && m(r.value.alt, i) == Some(r.value.end)
    ensures r.Some? ==> forall j: nat :: k <= j < r.value.alt ==> m(j, i).None?
    decreases n - k
  {
    if k == n then None
    else match m(k, i)
      case Some(e) => Some(Hit(k, e))
      case None => FirstMatch(m, n, i, k + 1)
  }

  /** From the first alternative on, the union matches exactly where some
      alternative does, and what it matches is the winner. */
  lemma FirstMatchIsWinner(m: Alternatives, n: nat, i: nat)
    ensures FirstMatch(m, n, i).None? <==> NoneAt(m, n, i)
    ensures FirstMatch(m, n, i).Some? ==> Wins(m, n, i, FirstMatch(m, n, i).value.alt, FirstMatch(m, n, i).value.end)
  {
  }

  /** At most one alternative wins at an offset, with one end. */
  lemma WinnerUnique(m: Alternatives, n: nat, i: nat, k1: nat, e1: nat, k2: nat, e2: nat)
    requires Wins(m, n, i, k1, e1) && Wins(m, n, i, k2, e2)
    ensures k1 == k2 && e1 == e2
  {
  }

  /** `s.gsub(union, "?")` from offset `i`: at each offset the first
      alternative that matches there wins, its whole match becomes one
      placeholder, and the scan resumes after it; where nothing matches,
      the character is copied and the scan moves on by one. Every match is
      taken against the original `s`. */
  function Scrub(s: string, m: Alternatives, n: nat, i: nat := 0): (r: string)
    requires i <= |s| && Sound(m, n, |s|)
    ensures |r| <= |s| - i
    decreases |s| - i
  {
    if i == |s| then []
    else match FirstMatch(m, n, i)
      case Some(hit) => [Placeholder] + Scrub(s, m, n, hit.end)
      case None => [s[i]] + Scrub(s, m, n, i + 1)
  }

  /** No alternative matches at any offset from `i` up to `j`. */
  predicate QuietRun(m: Alternatives, n: nat, i: nat, j: nat)
    decreases j - i
  {
    i >= j || (NoneAt(m, n, i) && QuietRun(m, n, i + 1, j))
  }

  /** Two adjacent quiet stretches make one. */
  lemma {:induction false} QuietRunJoin(m: Alternatives, n: nat, i: nat, j: nat, k: nat)
    requires i <= j <= k && QuietRun(m, n, i, j) && QuietRun(m, n, j, k)
    ensures QuietRun(m, n, i, k)
    decreases j - i
  {
    if i < j {
      QuietRunJoin(m, n, i + 1, j, k);
    }
  }

  /** A stretch where nothing matches is copied through unchanged. */
  lemma {:induction false} ScrubCopiesQuietRun(s: string, m: Alternatives, n: nat, i: nat, j: nat)
    requires i <= j <= |s| && Sound(m, n, |s|)
    requires QuietRun(m, n, i, j)
    ensures Scrub(s, m, n, i) == s[i..j] + Scrub(s, m, n, j)
    decreases j - i
  {
    if i < j {
      ScrubKeeps(s, m, n, i);
      ScrubCopiesQuietRun(s, m, n, i + 1, j);
      ConsSlice(s, i, j, Scrub(s, m, n, j));
    }
  }

  /** Prepending a character to a slice extends the slice one to the left. */
  lemma ConsSlice(s: string, i: nat, j: nat, rest: string)
    requires i < j <= |s|
    ensures [s[i]] + (s[i + 1..j] + rest) == s[i..j] + rest
  {
    assert s[i..j] == [s[i]] + s[i + 1..j];
  }

  /** Where no alternative matches, the pass copies the character. */
  lemma ScrubKeeps(s: string, m: Alternatives, n: nat, i: nat)
    requires i < |s| && Sound(m, n, |s|) && NoneAt(m, n, i)
    ensures Scrub(s, m, n, i) == [s[i]] + Scrub(s, m, n, i + 1)
  {
    FirstMatchIsWinner(m, n, i);
  }

  /** The winning match at `i` becomes exactly one placeholder, and the
      pass resumes where it ends. */
  lemma ScrubReplacesWinner(s: string, m: Alternatives, n: nat, i: nat, k: nat, e: nat)
    requires i < |s| && Sound(m, n, |s|)
    requires Wins(m, n, i, k, e)
    ensures i < e <= |s| && Scrub(s, m, n, i) == [Placeholder] + Scrub(s, m, n, e)
  {
    FirstMatchIsWinner(m, n, i);
    var hit := FirstMatch(m, n, i).value;
    WinnerUnique(m, n, i, k, e, hit.alt, hit.end);
  }

  /** A pass that finds exactly one match, at `a` and ending at `e`,
      copies everything around the match and replaces the match with one
      placeholder. */
  lemma ScrubOneMatch(s: string, m: Alternatives, n: nat, a: nat, k: nat, e: nat)
    requires a < |s| && Sound(m, n, |s|)
    requires QuietRun(m, n, 0, a) && Wins(m, n, a, k, e)
    requires e <= |s| && QuietRun(m, n, e, |s|)
    ensures Scrub(s, m, n) == s[..a] + [Placeholder] + s[e..]
  {
    ScrubCopiesQuietRun(s, m, n, 0, a);
    ScrubReplacesWinner(s, m, n, a, k, e);
    ScrubCopiesQuietRun(s, m, n, e, |s|);
    var tail := Scrub(s, m, n, e);
    assert tail == s[e..] by {
      assert Scrub(s, m, n, |s|) == [];
      assert s[e..|s|] + [] == s[e..];
    }
    assert s[0..a] == s[..a];
  }

  /** One step of the pass: a character copied, or the text of a match
      that becomes a single placeholder. */
  datatype Piece = Kept(c: char) | Squelched(alt: nat, text: string)

  function Width(p: Piece): nat {
    match p
    case Kept(_) => 1
    case Squelched(_, text) => |text|
  }

  /** The input text the pieces cover. */
  function Source(ps: seq<Piece>): string {
    if ps == [] then []
    else (match ps[0] case Kept(c) => [c] case Squelched(_, text) => text) + Source(ps[1..])
  }

  /** The output the pieces stand for. */
  function Render(ps: seq<Piece>): string {
    if ps == [] then []
    else (match ps[0] case Kept(c) => [c] case Squelched(_, _) => [Placeholder]) + Render(ps[1..])
  }

  /** `ps` is the leftmost-first reading of `s[i..]`: the pieces tile the
      input from `i` to its end without overlap; a character is kept
      exactly where no alternative matches, and a match is taken exactly
      where, and as far as, the winning alternative reaches. */
  predicate Parses(m: Alternatives, n: nat, s: string, i: nat, ps: seq<Piece>)
    requires i <= |s|
    decreases |ps|
  {
    if ps == [] then i == |s|
    else
      && i < |s|
      && i + Width(ps[0]) <= |s|
      && (match ps[0]
          case Kept(c) => c == s[i] && NoneAt(m, n, i)
          case Squelched(k, text) => text == s[i..i + |text|] && Wins(m, n, i, k, i + |text|))
      && Parses(m, n, s, i + Width(ps[0]), ps[1..])
  }

  /** A piece that reads `s` correctly at `i`, in front of a reading of the
      rest, is a reading from `i`. */
  lemma PrependParses(m: Alternatives, n: nat, s: string, i: nat, p: Piece, rest: seq<Piece>)
    requires i < |s| && i + Width(p) <= |s|
    requires match p
             case Kept(c) => c == s[i] && NoneAt(m, n, i)
             case Squelched(k, text) => text == s[i..i + |text|] && Wins(m, n, i, k, i + |text|)
    requires Parses(m, n, s, i + Width(p), rest)
    ensures Parses(m, n, s, i, [p] + rest)
  {
    var ps := [p] + rest;
    assert ps[0] == p && ps[1..] == rest;
  }

  /** A piece covering `s` at `i`, in front of pieces covering the rest,
      covers `s` from `i`. */
  lemma PrependSource(s: string, i: nat, p: Piece, rest: seq<Piece>)
    requires i < |s| && i + Width(p) <= |s|
    requires match p
             case Kept(c) => c == s[i]
             case Squelched(_, text) => text == s[i..i + |text|]
    requires Source(rest) == s[i + Width(p)..]
    ensures Source([p] + rest) == s[i..]
  {
    var ps := [p] + rest;
    assert ps[0] == p && ps[1..] == rest;
    assert s[i..] == s[i..i + Width(p)] + s[i + Width(p)..];
    if p.Kept? {
      assert s[i..i + 1] == [s[i]];
    }
  }

  /** The pieces of the pass from `i`. Every input has a reading, and its
      pieces put back together give the input again. */
  function Tokenize(s: string, m: Alternatives, n: nat, i: nat := 0): (ps: seq<Piece>)
    requires i <= |s| && Sound(m, n, |s|)
    ensures Parses(m, n, s, i, ps)
    ensures Source(ps) == s[i..]
    decreases |s| - i
  {
    if i == |s| then []
    else match FirstMatch(m, n, i)
      case Some(hit) =>
        FirstMatchIsWinner(m, n, i);
        var p := Squelched(hit.alt, s[i..hit.end]);
        var rest := Tokenize(s, m, n, hit.end);
        PrependParses(m, n, s, i, p, rest);
        PrependSource(s, i, p, rest);
        [p] + rest
      case None =>
        FirstMatchIsWinner(m, n, i);
        var p := Kept(s[i]);
        var rest := Tokenize(s, m, n, i + 1);
        PrependParses(m, n, s, i, p, rest);
        PrependSource(s, i, p, rest);
        [p] + rest
  }

  /** What the first piece of a reading says about the union's match there. */
  lemma FirstMatchOfHead(m: Alternatives, n: nat, s: string, i: nat, ps: seq<Piece>)
    requires i <= |s| && ps != []
    requires Parses(m, n, s, i, ps)
    ensures i < |s|
    ensures ps[0].Kept? ==> FirstMatch(m, n, i).None? && ps[0].c == s[i]
    ensures ps[0].Squelched? ==> FirstMatch(m, n, i) == Some(Hit(ps[0].alt, i + |ps[0].text|))
  {
    FirstMatchIsWinner(m, n, i);
    if ps[0].Squelched? {
      var hit := FirstMatch(m, n, i).value;
      WinnerUnique(m, n, i, ps[0].alt, i + |ps[0].text|, hit.alt, hit.end);
    }
  }

  /** The pass renders the reading: whatever leftmost-first reading of the
      input one takes, the substituted string is its rendering. */
  lemma {:induction false} ScrubRendersParse(s: string, m: Alternatives, n: nat, i: nat, ps: seq<Piece>)
    requires i <= |s| && Sound(m, n, |s|)
    requires Parses(m, n, s, i, ps)
    ensures Scrub(s, m, n, i) == Render(ps)
    decreases |ps|
  {
    if ps != [] {
      FirstMatchOfHead(m, n, s, i, ps);
      var j := i + Width(ps[0]);
      ScrubRendersParse(s, m, n, j, ps[1..]);
      match ps[0]
      case Kept(c) =>
        assert Scrub(s, m, n, i) == [c] + Scrub(s, m, n, j);
      case Squelched(_, _) =>
        assert Scrub(s, m, n, i) == [Placeholder] + Scrub(s, m, n, j);
    }
  }

  /** There is only one leftmost-first reading of an input. */
  lemma {:induction false} ParseUnique(m: Alternatives, n: nat, s: string, i: nat, ps1: seq<Piece>, ps2: seq<Piece>)
    requires i <= |s|
    requires Parses(m, n, s, i, ps1) && Parses(m, n, s, i, ps2)
    ensures ps1 == ps2
    decreases |ps1|
  {
    if ps1 != [] && ps2 != [] {
      FirstMatchOfHead(m, n, s, i, ps1);
      FirstMatchOfHead(m, n, s, i, ps2);
      assert ps1[0] == ps2[0];
      ParseUnique(m, n, s, i + Width(ps1[0]), ps1[1..], ps2[1..]);
      assert ps1 == [ps1[0]] + ps1[1..] && ps2 == [ps2[0]] + ps2[1..];
    }
  }

  /** The pass changes nothing exactly when no alternative matches
      anywhere in the input, provided no match starts at a `?` (a match
      there would put back the same first character). */
  lemma {:induction false} ScrubUnchangedIff(s: string, m: Alternatives, n: nat, i: nat)
    requires i <= |s| && Sound(m, n, |s|)
    requires forall j: nat :: j < |s| && s[j] == Placeholder ==> NoneAt(m, n, j)
    ensures Scrub(s, m, n, i) == s[i..] <==> forall j: nat :: i <= j < |s| ==> NoneAt(m, n, j)
    decreases |s| - i
  {
    if i < |s| {
      ScrubUnchangedIff(s, m, n, i + 1);
      FirstMatchIsWinner(m, n, i);
      assert s[i..] == [s[i]] + s[i + 1..];
      var out := Scrub(s, m, n, i);
      match FirstMatch(m, n, i)
      case Some(hit) =>
        assert out[0] == Placeholder != s[i];
      case None =>
        assert out == [s[i]] + Scrub(s, m, n, i + 1);
        if out == s[i..] {
          assert Scrub(s, m, n, i + 1) == out[1..];
        }
    }
  }

  /** Some marker in `markers` matches at `j`. */
  predicate MarkerAt(markers: seq<Marker>, s: string, j: nat)
    requires j <= |s|
  {
    exists n :: 0 <= n < |markers| && MarkerEnd(markers[n], s, j).Some?
  }

  /** No marker of `markers` occurs anywhere in `s`. */
  predicate NoMarker(markers: seq<Marker>, s: string) {
    forall j :: 0 <= j < |s| ==> !MarkerAt(markers, s, j)
  }

  /** The text of the first marker, in list order, that matches at `j`. */
  function MarkerText(markers: seq<Marker>, s: string, j: nat): (r: Option<string>)
    requires j <= |s|
    ensures r.None? <==> !MarkerAt(markers, s, j)
    ensures r.Some? ==> (exists n :: 0 <= n < |markers| && MarkerEnd(markers[n], s, j) == Some(j + |r.value|)
                            && r.value in Texts(markers[n]) && OccursAt(s, r.value, j))
    decreases |markers|
  {
    if markers == [] then None
    else match MarkerEnd(markers[0], s, j)
      case Some(e) =>
        assert MarkerEnd(markers[0], s, j) == Some(j + |s[j..e]|);
        Some(s[j..e])
      case None =>
        var r := MarkerText(markers[1..], s, j);
        assert MarkerAt(markers, s, j) ==> MarkerAt(markers[1..], s, j) by {
          if MarkerAt(markers, s, j) {
            var n :| 0 <= n < |markers| && MarkerEnd(markers[n], s, j).Some?;
            assert markers[n] == markers[1..][n - 1];
          }
        }
        assert r.Some? ==> (exists n :: 0 <= n < |markers| && MarkerEnd(markers[n], s, j) == Some(j + |r.value|)
                               && r.value in Texts(markers[n]) && OccursAt(s, r.value, j)) by {
          if r.Some? {
            var n :| 0 <= n < |markers[1..]| && MarkerEnd(markers[1..][n], s, j) == Some(j + |r.value|)
                     && r.value in Texts(markers[1..][n]) && OccursAt(s, r.value, j);
            assert markers[n + 1] == markers[1..][n];
          }
        }
        assert MarkerAt(markers[1..], s, j) ==> MarkerAt(markers, s, j) by {
          if MarkerAt(markers[1..], s, j) {
            var n :| 0 <= n < |markers[1..]| && MarkerEnd(markers[1..][n], s, j).Some?;
            assert markers[n + 1] == markers[1..][n];
          }
        }
        r
  }

  /** The leftover marker found at `pos`, with its text. */
  datatype Found = Found(pos: nat, text: string)

  /** `s.match(Regexp.union(markers))` from `j`: the leftmost offset where
      some marker matches, and the first marker's text there. */
  function FirstMarker(markers: seq<Marker>, s: string, j: nat := 0): (r: Option<Found>)
    requires j <= |s|
    ensures r.None? <==> forall k :: j <= k < |s| ==> !MarkerAt(markers, s, k)
    ensures r.Some? ==> j <= r.value.pos < |s| && MarkerText(markers, s, r.value.pos) == Some(r.value.text)
    ensures r.Some? ==> forall k :: j <= k < r.value.pos ==> !MarkerAt(markers, s, k)
    decreases |s| - j
  {
    if j == |s| then None
    else match MarkerText(markers, s, j)
      case Some(text) => Some(Found(j, text))
      case None => FirstMarker(markers, s, j + 1)
  }
}
