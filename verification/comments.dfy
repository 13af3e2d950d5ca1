// The comment rules: LINE_COMMENT and BLOCK_COMMENT
// (lib/squelch/patterns.rb), and the plain depth counter that block
// comments are usually described by, as a reference to compare against.
module Comments {
  import opened Chars

  // The first offset at or after `p` that holds a line break, or the end
  // of input: where the lookahead `(?=\r|\n|$)` first succeeds.
  function LineEnd(s: string, p: nat): (r: nat)
    requires p <= |s|
    ensures p <= r <= |s|
    ensures r == |s| || IsLineBreak(s[r])
    ensures forall k :: p <= k < r ==> !IsLineBreak(s[k])
    decreases |s| - p
  {
    if p == |s| || IsLineBreak(s[p]) then p else LineEnd(s, p + 1)
  }

  // LINE_COMMENT: `#` or `--`, then lazily any text up to, and not
  // including, the first `\r` or `\n`, or the end of input.
  function LineCommentEnd(s: string, i: nat): (r: Option<nat>)
    requires i <= |s|
    ensures r.Some? <==> (i < |s| && s[i] == '#') || OccursAt(s, "--", i)
    ensures r.Some? ==> i < r.value <= |s| && (r.value == |s| || IsLineBreak(s[r.value]))
    ensures r.Some? ==> forall k :: i <= k < r.value ==> !IsLineBreak(s[k])
  {
    OccursAtTwo(s, '-', '-', i);
    if i < |s| && s[i] == '#' then Some(LineEnd(s, i + 1))
    else if OccursAt(s, "--", i) then Some(LineEnd(s, i + 2))
    else None
  }

  // `/*` starts at `p`.
  predicate OpenAt(s: string, p: int) {
    0 <= p && p + 1 < |s| && s[p] == '/' && s[p + 1] == '*'
  }

  // `*/` starts at `p`.
  predicate CloseAt(s: string, p: int) {
    0 <= p && p + 1 < |s| && s[p] == '*' && s[p + 1] == '/'
  }

  // The close `/?\*/` tried at `p`: the optional slash is greedy, so
  // `/*/` is tried before `*/`.
  function Close(s: string, p: nat): (r: Option<nat>)
    requires p <= |s|
    ensures r.Some? ==> p + 2 <= r.value <= |s| && CloseAt(s, r.value - 2)
    ensures r.Some? <==> (OpenAt(s, p) && CloseAt(s, p + 1)) || CloseAt(s, p)
  {
    if OpenAt(s, p) && CloseAt(s, p + 1) then Some(p + 3)
    else if CloseAt(s, p) then Some(p + 2)
    else None
  }

  // BLOCK_COMMENT after its opening `/*`, from `p`.
  //
  // The body `(?>[^/*]|/(?!\*)|\*(?!/)|\g<0>)*` is greedy and each item is
  // atomic. An item is one character that does not start `/*` or `*/`, or
  // a whole nested comment (`\g<0>` calls the whole rule union, but at `/*`
  // only this rule can match, so it is self-recursion). When the items run
  // out the close is tried; if it fails, the body gives back items one at a
  // time, latest first, and the close is retried where each given-back item
  // began. The recursion below follows exactly that order: an item, then the
  // rest; and if the rest fails, the close at the item's own start.
  function BlockRest(s: string, p: nat): (r: Option<nat>)
    requires p <= |s|
    ensures r.Some? ==> p + 2 <= r.value <= |s| && CloseAt(s, r.value - 2)
    decreases |s| - p
  {
    if OpenAt(s, p) then
      match BlockRest(s, p + 2)
      case Some(q) => Continue(BlockRest(s, q), s, p)
      case None => Close(s, p)
    else if p < |s| && !CloseAt(s, p) then
      Continue(BlockRest(s, p + 1), s, p)
    else
      // no item fits: end of input, or `*/` (where nothing in any union matches)
      Close(s, p)
  }

  // The rest of the match if it succeeded, or else the close retried at `p`.
  function Continue(rest: Option<nat>, s: string, p: nat): (r: Option<nat>)
    requires p <= |s|
    requires rest.Some? ==> p + 2 <= rest.value <= |s| && CloseAt(s, rest.value - 2)
    ensures r.Some? ==> p + 2 <= r.value <= |s| && CloseAt(s, r.value - 2)
    ensures rest.Some? ==> r == rest
  {
    if rest.Some? then rest else Close(s, p)
  }

  // BLOCK_COMMENT: `/*`, the body and the close.
  function BlockCommentEnd(s: string, i: nat): (r: Option<nat>)
    requires i <= |s|
    ensures r.Some? ==> OpenAt(s, i) && i + 4 <= r.value <= |s| && CloseAt(s, r.value - 2)
  {
    if OpenAt(s, i) then BlockRest(s, i + 2) else None
  }

  // The reference reading of a nested comment: scan with a depth counter,
  // `/*` opens a level, `*/` closes one, and the comment ends when the
  // depth returns to zero.
  function DepthRest(s: string, p: nat, depth: nat): (r: Option<nat>)
    requires p <= |s| && depth >= 1
    ensures r.Some? ==> p + 2 <= r.value <= |s| && CloseAt(s, r.value - 2)
    decreases |s| - p
  {
    if p == |s| then None
    else if OpenAt(s, p) then DepthRest(s, p + 2, depth + 1)
    else if CloseAt(s, p) then (if depth == 1 then Some(p + 2) else DepthRest(s, p + 2, depth - 1))
    else DepthRest(s, p + 1, depth)
  }

  function DepthCommentEnd(s: string, i: nat): (r: Option<nat>)
    requires i <= |s|
    ensures r.Some? ==> OpenAt(s, i) && i + 4 <= r.value <= |s|
  {
    if OpenAt(s, i) then DepthRest(s, i + 2, 1) else None
  }

  // `/*/`, the only text on which the optional slash of the close matters.
  ghost predicate HasSlashStarSlash(s: string) {
    exists k :: OpenAt(s, k) && CloseAt(s, k + 1)
  }

  // Away from `/*/`, the rule's body and a counter at depth `depth` agree:
  // the counter finishes the innermost open comment where the rule does,
  // and then carries on one level up.
  lemma {:induction false} DepthCounterAgrees(s: string, p: nat, depth: nat)
    requires p <= |s| && depth >= 1
    requires !HasSlashStarSlash(s)
    ensures DepthRest(s, p, depth) ==
      match BlockRest(s, p)
      case None => None
      case Some(q) => if depth == 1 then Some(q) else DepthRest(s, q, depth - 1)
    decreases |s| - p
  {
    assert !(OpenAt(s, p) && CloseAt(s, p + 1));
    if p == |s| {
    } else if OpenAt(s, p) {
      DepthCounterAgrees(s, p + 2, depth + 1);
      match BlockRest(s, p + 2)
      case None =>
      case Some(q) =>
        DepthCounterAgrees(s, q, depth);
    } else if CloseAt(s, p) {
    } else {
      DepthCounterAgrees(s, p + 1, depth);
    }
  }

  // Whenever `/*/` does not occur, BLOCK_COMMENT is exactly the depth counter.
  lemma BlockCommentIsDepthCounter(s: string, i: nat)
    requires i <= |s|
    requires !HasSlashStarSlash(s)
    ensures BlockCommentEnd(s, i) == DepthCommentEnd(s, i)
  {
    if OpenAt(s, i) {
      DepthCounterAgrees(s, i + 2, 1);
    }
  }

  // ... and `/*/*/` is where they part: the rule closes it as one
  // comment, retreating over the nested `/*/` to use its slash, while the
  // counter sees two openings and one close.
  lemma SlashStarSlashSplitsThem()
    ensures BlockCommentEnd("/*/*/", 0) == Some(5)
    ensures DepthCommentEnd("/*/*/", 0) == None
  {
    var s := "/*/*/";
    assert BlockRest(s, 5) == None;
    assert BlockRest(s, 4) == None;
    assert BlockRest(s, 2) == Some(5);
  }
}
