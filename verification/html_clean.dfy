/**
 * `cleanHtmlContent`: the chain of five steps that turns a fetched page into
 * the plain text sent to the model. It deletes every `<style>` block, then
 * every `<script>` block (each from its opening tag, matched ignoring ASCII
 * case, to the first matching close tag after it), replaces every remaining
 * tag with one space, turns each run of white space into one space, and trims
 * the ends.
 *
 * A global replace tries the expression at each position from left to right,
 * substitutes a match and resumes after it; each stage below is that scan,
 * written as a recursion over the remaining suffix.
 */
module HtmlClean {
  import opened Wrappers
  import opened Text

  const StyleTag := "style"
  const ScriptTag := "script"

  function OpenPattern(tag: string): string { "<" + tag }
  function ClosePattern(tag: string): string { "</" + tag + ">" }

  // ---------------------------------------------------------------------------
  // Stages 1 and 2: whole <style> and <script> blocks

  /**
   * `b` is exactly what `/<tag[^>]*>[\s\S]*?<\/tag>/i` matches at the start of a
   * string beginning with `b`: the opening `<tag` up to the first `>` after it,
   * then the shortest content that is followed by `</tag>`.
   */
  ghost predicate IsBlock(b: string, tag: string) {
    exists j: nat :: IsBlockClosingAt(b, tag, j)
  }

  /** `b` is such a block whose opening tag ends with the `>` at `j`. */
  ghost predicate IsBlockClosingAt(b: string, tag: string, j: nat) {
    var open, close := OpenPattern(tag), ClosePattern(tag);
    && MatchesCI(b, 0, open)
    && |open| <= j && j + 1 + |close| <= |b| && b[j] == '>'
    && (forall k :: |open| <= k < j ==> b[k] != '>')
    && MatchesCI(b, |b| - |close|, close)
    && (forall k :: j + 1 <= k < |b| - |close| ==> !MatchesCI(b, k, close))
  }

  /** The length of the block match at the start of `s`, if the expression matches there. */
  function BlockLen(s: string, tag: string): (r: Option<nat>)
    ensures r.Some? ==> 0 < r.value <= |s|
  {
    var open, close := OpenPattern(tag), ClosePattern(tag);
    if !MatchesCI(s, 0, open) then None
    else
      var gt := FindChar(s, '>', |open|);
      if gt.None? then None
      else
        var end := FindCI(s, close, gt.value + 1);
        if end.None? then None else Some(end.value + |close|)
  }

  /** Matching inside a prefix agrees with matching in the whole string. */
  lemma {:induction false} MatchesInPrefix(s: string, n: nat, k: nat, pat: string)
    requires n <= |s| && k + |pat| <= n
    ensures MatchesCI(s[..n], k, pat) == MatchesCI(s, k, pat)
    decreases |pat|
  {
    if pat != [] {
      MatchesInPrefix(s, n, k + 1, pat[1..]);
    }
  }

  /** `BlockLen` reports the close tag that follows the first `>` after the opening. */
  lemma BlockLenFromParts(s: string, tag: string, j: nat, m: nat)
    requires MatchesCI(s, 0, OpenPattern(tag))
    requires |OpenPattern(tag)| <= j < |s| && s[j] == '>'
    requires forall k :: |OpenPattern(tag)| <= k < j ==> s[k] != '>'
    requires j + 1 <= m && MatchesCI(s, m, ClosePattern(tag))
    requires forall k :: j + 1 <= k < m ==> !MatchesCI(s, k, ClosePattern(tag))
    ensures BlockLen(s, tag) == Some(m + |ClosePattern(tag)|)
  {
    FindCharIs(s, '>', |OpenPattern(tag)|, j);
    FindCIIs(s, ClosePattern(tag), j + 1, m);
  }

  /** Close-tag matches that lie inside a prefix are the same in the whole string. */
  lemma CloseMatchesInWhole(s: string, n: nat, from: nat, close: string)
    requires n <= |s| && |close| <= n
    requires MatchesCI(s[..n], n - |close|, close)
    requires forall k :: from <= k < n - |close| ==> !MatchesCI(s[..n], k, close)
    ensures MatchesCI(s, n - |close|, close)
    ensures forall k :: from <= k < n - |close| ==> !MatchesCI(s, k, close)
  {
    MatchesInPrefix(s, n, n - |close|, close);
    forall k | from <= k < n - |close|
      ensures !MatchesCI(s, k, close)
    {
      MatchesInPrefix(s, n, k, close);
    }
  }

  /** A block at the start of `s` read off in `s` itself: its first `>` and its close tag. */
  lemma BlockInWhole(s: string, n: nat, tag: string) returns (j: nat)
    requires n <= |s| && IsBlock(s[..n], tag)
    ensures |ClosePattern(tag)| <= n
    ensures MatchesCI(s, 0, OpenPattern(tag))
    ensures |OpenPattern(tag)| <= j < |s| && s[j] == '>'
    ensures forall k :: |OpenPattern(tag)| <= k < j ==> s[k] != '>'
    ensures j + 1 <= n - |ClosePattern(tag)| && MatchesCI(s, n - |ClosePattern(tag)|, ClosePattern(tag))
    ensures forall k :: j + 1 <= k < n - |ClosePattern(tag)| ==> !MatchesCI(s, k, ClosePattern(tag))
  {
    var open, close := OpenPattern(tag), ClosePattern(tag);
    var b := s[..n];
    j :| IsBlockClosingAt(b, tag, j);
    MatchesInPrefix(s, n, 0, open);
    CloseMatchesInWhole(s, n, j + 1, close);
    assert forall k :: |open| <= k <= j ==> b[k] == s[k];
  }

  /** Every block match at the start of `s` is the one `BlockLen` reports. */
  lemma BlockLenFinds(s: string, n: nat, tag: string)
    requires n <= |s| && IsBlock(s[..n], tag)
    ensures BlockLen(s, tag) == Some(n)
  {
    var j := BlockInWhole(s, n, tag);
    BlockLenFromParts(s, tag, j, n - |ClosePattern(tag)|);
  }

  /**
   * `BlockLen` is the regular expression's match at the start of `s`: what it
   * reports is a block, and any block there is the one it reports (so the match
   * is unique, and `None` means no prefix of `s` is a block).
   */
  lemma BlockLenIsRegexMatch(s: string, tag: string)
    ensures BlockLen(s, tag).Some? ==> IsBlock(s[..BlockLen(s, tag).value], tag)
    ensures forall n :: 0 <= n <= |s| && IsBlock(s[..n], tag) ==> BlockLen(s, tag) == Some(n)
  {
    var open, close := OpenPattern(tag), ClosePattern(tag);
    var r := BlockLen(s, tag);
    if r.Some? {
      var j := FindChar(s, '>', |open|).value;
      var k := FindCI(s, close, j + 1).value;
      var b := s[..r.value];
      MatchesInPrefix(s, r.value, 0, open);
      MatchesInPrefix(s, r.value, k, close);
      forall i | j + 1 <= i < |b| - |close|
        ensures !MatchesCI(b, i, close)
      {
        MatchesInPrefix(s, r.value, i, close);
      }
      assert b[j] == '>';
      assert forall i :: |open| <= i < j ==> b[i] != '>';
      assert IsBlockClosingAt(b, tag, j);
    }
    forall n | 0 <= n <= |s| && IsBlock(s[..n], tag)
      ensures BlockLen(s, tag) == Some(n)
    {
      BlockLenFinds(s, n, tag);
    }
  }

  /** Stage 1 (`tag` = "style") or stage 2 (`tag` = "script"): every block is deleted. */
  function RemoveBlocks(s: string, tag: string): (r: string)
    decreases |s|
    ensures |r| <= |s|
  {
    if s == [] then []
    else match BlockLen(s, tag)
      case Some(n) => RemoveBlocks(s[n..], tag)
      case None => [s[0]] + RemoveBlocks(s[1..], tag)
  }

  // ---------------------------------------------------------------------------
  // Stage 3: every remaining tag becomes one space

  /** Replaces each `<...>` (from a `<` to the first `>` after it) with a space. */
  function ReplaceTags(s: string): (r: string)
    decreases |s|
    ensures |r| <= |s|
  {
    if s == [] then []
    else if s[0] == '<' && FindChar(s, '>', 1).Some? then
      [' '] + ReplaceTags(s[FindChar(s, '>', 1).value + 1..])
    else [s[0]] + ReplaceTags(s[1..])
  }

  // ---------------------------------------------------------------------------
  // Stages 4 and 5: white space

  /** `s` without its leading white space (the first half of `trim`). */
  function TrimStart(s: string): (r: string)
    decreases |s|
    ensures |r| <= |s| && r == s[|s| - |r|..]
    ensures r == [] || !IsWs(r[0])
    ensures forall k :: 0 <= k < |s| - |r| ==> IsWs(s[k])
  {
    if s != [] && IsWs(s[0]) then TrimStart(s[1..]) else s
  }

  /** `s` without its trailing white space (the second half of `trim`). */
  function TrimEnd(s: string): (r: string)
    decreases |s|
    ensures |r| <= |s| && r == s[..|r|]
    ensures r == [] || !IsWs(r[|r| - 1])
    ensures forall k :: |r| <= k < |s| ==> IsWs(s[k])
  {
    if s != [] && IsWs(s[|s| - 1]) then TrimEnd(s[..|s| - 1]) else s
  }

  /** `String.prototype.trim`. */
  function Trim(s: string): (r: string)
    ensures NoEdgeWs(r)
  {
    TrimEndKeepsFront(TrimStart(s));
    TrimEnd(TrimStart(s))
  }

  /** Trimming the end leaves the first character where it was. */
  lemma TrimEndKeepsFront(t: string)
    ensures TrimEnd(t) == [] || TrimEnd(t)[0] == t[0]
  {
    var r := TrimEnd(t);
    if r != [] {
      assert r == t[..|r|];
    }
  }


  /** `.replace(/\s+/g, ' ')`: each maximal run of white space becomes one space. */
  function CollapseWs(s: string): (r: string)
    decreases |s|
    ensures |r| == 0 <==> |s| == 0
    ensures s != [] ==> (IsWs(r[0]) <==> IsWs(s[0]))
  {
    if s == [] then []
    else if IsWs(s[0]) then [' '] + CollapseWs(TrimStart(s))
    else [s[0]] + CollapseWs(s[1..])
  }

  /**
   * The whole of `cleanHtmlContent`. The cleaned text has no white space at
   * either end, never two white-space characters in a row (and only plain
   * spaces), and no complete tag.
   */
  function Clean(html: string): (r: string)
    ensures IsCleanText(r)
  {
    var x := ReplaceTags(RemoveBlocks(RemoveBlocks(html, StyleTag), ScriptTag));
    ReplaceTagsNoCompleteTag(RemoveBlocks(RemoveBlocks(html, StyleTag), ScriptTag));
    CollapseWsShape(x);
    CollapseWsKeepsNoTag(x);
    TrimKeepsShape(CollapseWs(x));
    Trim(CollapseWs(x))
  }

  // ---------------------------------------------------------------------------
  // What the cleaned text looks like

  /** No `<` is followed, anywhere later, by a `>`: not one complete tag is left. */
  predicate NoCompleteTag(s: string) {
    forall i, j :: 0 <= i < j < |s| && s[i] == '<' ==> s[j] != '>'
  }

  predicate NoEdgeWs(s: string) {
    s == [] || (!IsWs(s[0]) && !IsWs(s[|s| - 1]))
  }

  predicate NoAdjacentWs(s: string) {
    forall i :: 0 <= i < |s| - 1 ==> !(IsWs(s[i]) && IsWs(s[i + 1]))
  }

  /** The only white space left is the plain space. */
  predicate OnlySpaces(s: string) {
    forall i :: 0 <= i < |s| && IsWs(s[i]) ==> s[i] == ' '
  }

  /** The shape every cleaned text has. */
  predicate IsCleanText(s: string) {
    NoEdgeWs(s) && NoAdjacentWs(s) && OnlySpaces(s) && NoCompleteTag(s)
  }

  /** The visible characters of `s`, in order: `s` with all white space removed. */
  function Visible(s: string): string
    decreases |s|
  {
    if s == [] then [] else (if IsWs(s[0]) then [] else [s[0]]) + Visible(s[1..])
  }

  // ---------------------------------------------------------------------------
  // Small facts about the shape predicates

  lemma NoCompleteTagCons(c: char, t: string)
    ensures NoCompleteTag([c] + t) <==> (c == '<' ==> '>' !in t) && NoCompleteTag(t)
  {
    var s := [c] + t;
    if NoCompleteTag(s) {
      forall i, j | 0 <= i < j < |t| && t[i] == '<'
        ensures t[j] != '>'
      {
        assert s[i + 1] == t[i] && s[j + 1] == t[j];
      }
      if c == '<' {
        forall j | 0 <= j < |t|
          ensures t[j] != '>'
        {
          assert s[0] == '<' && s[j + 1] == t[j];
        }
      }
    }
    if (c == '<' ==> '>' !in t) && NoCompleteTag(t) {
      forall i, j | 0 <= i < j < |s| && s[i] == '<'
        ensures s[j] != '>'
      {
        assert s[j] == t[j - 1];
        if i > 0 {
          assert s[i] == t[i - 1];
        }
      }
    }
  }

  lemma NoAdjacentWsCons(c: char, t: string)
    requires NoAdjacentWs(t)
    requires IsWs(c) && t != [] ==> !IsWs(t[0])
    ensures NoAdjacentWs([c] + t)
  {
    var s := [c] + t;
    forall i | 0 <= i < |s| - 1
      ensures !(IsWs(s[i]) && IsWs(s[i + 1]))
    {
      if i > 0 {
        assert s[i] == t[i - 1] && s[i + 1] == t[i];
      }
    }
  }

  /** Every shape property survives taking a slice. */
  lemma SliceKeepsShape(s: string, i: nat, j: nat)
    requires i <= j <= |s|
    ensures NoAdjacentWs(s) ==> NoAdjacentWs(s[i..j])
    ensures OnlySpaces(s) ==> OnlySpaces(s[i..j])
    ensures NoCompleteTag(s) ==> NoCompleteTag(s[i..j])
  {
    var t := s[i..j];
    if NoCompleteTag(s) {
      forall a, b | 0 <= a < b < |t| && t[a] == '<'
        ensures t[b] != '>'
      {
        assert t[a] == s[i + a] && t[b] == s[i + b];
      }
    }
    if NoAdjacentWs(s) {
      forall a | 0 <= a < |t| - 1
        ensures !(IsWs(t[a]) && IsWs(t[a + 1]))
      {
        assert t[a] == s[i + a] && t[a + 1] == s[i + a + 1];
      }
    }
  }

  lemma {:induction false} VisibleConcat(a: string, b: string)
    ensures Visible(a + b) == Visible(a) + Visible(b)
    decreases |a|
  {
    if a != [] {
      assert (a + b)[0] == a[0];
      assert (a + b)[1..] == a[1..] + b;
      VisibleConcat(a[1..], b);
      assert Visible(a) == (if IsWs(a[0]) then [] else [a[0]]) + Visible(a[1..]);
    } else {
      assert a + b == b;
    }
  }

  lemma {:induction false} VisibleOfWs(s: string)
    requires forall k :: 0 <= k < |s| ==> IsWs(s[k])
    ensures Visible(s) == []
    decreases |s|
  {
    if s != [] {
      VisibleOfWs(s[1..]);
    }
  }

  // ---------------------------------------------------------------------------
  // Stages 1 and 2

  /** Matching one position further on in `s` is matching in `s` without its first character. */
  lemma {:induction false} MatchesAfterFirst(s: string, k: nat, pat: string)
    requires s != []
    ensures MatchesCI(s[1..], k, pat) == MatchesCI(s, k + 1, pat)
    decreases |pat|
  {
    if pat != [] && k + 1 + |pat| <= |s| {
      assert s[1..][k] == s[k + 1];
      MatchesAfterFirst(s, k + 1, pat[1..]);
    }
  }

  /**
   * Text in which the block expression does not begin anywhere passes through
   * the block stages unchanged, whatever tags it holds: only a match of
   * `<tag` starts a deletion.
   */
  lemma {:induction false} RemoveBlocksPlainPrefix(a: string, b: string, tag: string)
    requires forall k :: 0 <= k < |a| ==> !MatchesCI(a + b, k, OpenPattern(tag))
    ensures RemoveBlocks(a + b, tag) == a + RemoveBlocks(b, tag)
    decreases |a|
  {
    if a != [] {
      var s := a + b;
      assert s[0] == a[0];
      assert !MatchesCI(s, 0, OpenPattern(tag));
      assert BlockLen(s, tag).None?;
      assert s[1..] == a[1..] + b;
      forall k | 0 <= k < |a| - 1
        ensures !MatchesCI(a[1..] + b, k, OpenPattern(tag))
      {
        MatchesAfterFirst(s, k, OpenPattern(tag));
      }
      RemoveBlocksPlainPrefix(a[1..], b, tag);
      assert [a[0]] + (a[1..] + RemoveBlocks(b, tag)) == a + RemoveBlocks(b, tag);
    } else {
      assert a + b == b;
    }
  }

  /**
   * `a` holds no start of the block expression, and none can run past its end:
   * `a` is empty or its last character does not fold onto any character of
   * `<tag` (a `>`, a newline or a space, say).
   */
  ghost predicate NoOpeningIn(a: string, tag: string) {
    && (a == [] || Lower(a[|a| - 1]) !in OpenPattern(tag))
    && forall k :: 0 <= k < |a| ==> !MatchesCI(a, k, OpenPattern(tag))
  }

  /** Whatever follows such a text, the block expression still does not begin inside it. */
  lemma OpeningsStayInside(a: string, x: string, tag: string)
    requires NoOpeningIn(a, tag)
    ensures forall k :: 0 <= k < |a| ==> !MatchesCI(a + x, k, OpenPattern(tag))
  {
    var open := OpenPattern(tag);
    forall k | 0 <= k < |a|
      ensures !MatchesCI(a + x, k, open)
    {
      if k + |open| <= |a| {
        MatchesInPrefix(a + x, |a|, k, open);
        assert (a + x)[..|a|] == a;
      } else {
        var p := |a| - 1 - k;
        assert (a + x)[k + p] == a[|a| - 1];
        assert open[p] in open;
        MatchedCharIf(a + x, k, open, p);
      }
    }
  }

  /** A whole block at the front is deleted, and the scan resumes right after it. */
  lemma RemoveBlocksDropsBlock(blk: string, b: string, tag: string)
    requires IsBlock(blk, tag)
    ensures RemoveBlocks(blk + b, tag) == RemoveBlocks(b, tag)
  {
    var s := blk + b;
    assert s[..|blk|] == blk;
    BlockLenFinds(s, |blk|, tag);
    assert s[|blk|..] == b;
  }

  /**
   * An opening that starts no complete block (`<style>` with no `</style>`
   * after it, say) is not deleted: its `<` is kept and the scan moves on by
   * one character, so a later stage sees the tag.
   */
  lemma RemoveBlocksKeepsUnclosed(s: string, tag: string)
    requires s != []
    requires forall n :: 0 <= n <= |s| ==> !IsBlock(s[..n], tag)
    ensures RemoveBlocks(s, tag) == [s[0]] + RemoveBlocks(s[1..], tag)
  {
    BlockLenIsRegexMatch(s, tag);
  }

  /** A text with no complete tag holds no block, so the block stages leave it alone. */
  lemma {:induction false} RemoveBlocksTagFree(s: string, tag: string)
    requires NoCompleteTag(s)
    ensures RemoveBlocks(s, tag) == s
    decreases |s|
  {
    if s != [] {
      if s[0] == '<' {
        forall k | |OpenPattern(tag)| <= k < |s|
          ensures s[k] != '>'
        {
        }
      } else {
        assert !MatchesCI(s, 0, OpenPattern(tag));
      }
      assert BlockLen(s, tag).None?;
      NoCompleteTagCons(s[0], s[1..]);
      assert [s[0]] + s[1..] == s;
      RemoveBlocksTagFree(s[1..], tag);
    }
  }

  // ---------------------------------------------------------------------------
  // Stage 3

  /** Tag replacement adds no character but the space. */
  lemma {:induction false} ReplaceTagsChars(s: string)
    ensures forall c :: c in ReplaceTags(s) ==> c == ' ' || c in s
    decreases |s|
  {
    if s != [] {
      if s[0] == '<' && FindChar(s, '>', 1).Some? {
        var rest := s[FindChar(s, '>', 1).value + 1..];
        ReplaceTagsChars(rest);
        assert forall c :: c in rest ==> c in s;
      } else {
        ReplaceTagsChars(s[1..]);
        assert forall c :: c in s[1..] ==> c in s;
      }
    }
  }

  /** After tag replacement no complete tag is left. */
  lemma {:induction false} ReplaceTagsNoCompleteTag(s: string)
    ensures NoCompleteTag(ReplaceTags(s))
    decreases |s|
  {
    if s != [] {
      if s[0] == '<' && FindChar(s, '>', 1).Some? {
        var rest := s[FindChar(s, '>', 1).value + 1..];
        ReplaceTagsNoCompleteTag(rest);
        NoCompleteTagCons(' ', ReplaceTags(rest));
      } else {
        ReplaceTagsNoCompleteTag(s[1..]);
        if s[0] == '<' {
          assert '>' !in s[1..];
          ReplaceTagsChars(s[1..]);
        }
        NoCompleteTagCons(s[0], ReplaceTags(s[1..]));
      }
    }
  }

  /** Text without a complete tag is left exactly as it is. */
  lemma {:induction false} ReplaceTagsTagFree(s: string)
    requires NoCompleteTag(s)
    ensures ReplaceTags(s) == s
    decreases |s|
  {
    if s != [] {
      NoCompleteTagCons(s[0], s[1..]);
      assert [s[0]] + s[1..] == s;
      if s[0] == '<' {
        assert FindChar(s, '>', 1).None?;
      }
      ReplaceTagsTagFree(s[1..]);
    }
  }

  /** A tag at the front becomes one space. */
  lemma ReplaceTagsAtTag(m: string, b: string)
    requires '>' !in m
    ensures ReplaceTags("<" + m + ">" + b) == " " + ReplaceTags(b)
  {
    var s := "<" + m + ">" + b;
    forall k | 1 <= k < |m| + 1
      ensures s[k] != '>'
    {
      assert s[k] == m[k - 1];
    }
    FindCharIs(s, '>', 1, |m| + 1);
    assert s[|m| + 2..] == b;
  }

  /**
   * The text outside tags keeps its order: the text before the first tag is
   * copied, the tag becomes one space, and the scan goes on after the tag's `>`.
   */
  lemma {:induction false} ReplaceTagsSplit(a: string, m: string, b: string)
    requires '<' !in a && '>' !in m
    ensures ReplaceTags(a + "<" + m + ">" + b) == a + " " + ReplaceTags(b)
    decreases |a|
  {
    var s := a + "<" + m + ">" + b;
    if a == [] {
      assert s == "<" + m + ">" + b;
      ReplaceTagsAtTag(m, b);
    } else {
      assert s[0] == a[0];
      assert s[1..] == a[1..] + "<" + m + ">" + b;
      ReplaceTagsSplit(a[1..], m, b);
    }
  }

  // ---------------------------------------------------------------------------
  // Stages 4 and 5

  lemma {:induction false} CollapseWsChars(s: string)
    ensures forall c :: c in CollapseWs(s) ==> c == ' ' || c in s
    decreases |s|
  {
    if s != [] {
      if IsWs(s[0]) {
        var t := TrimStart(s);
        CollapseWsChars(t);
        assert forall c :: c in t ==> c in s;
      } else {
        CollapseWsChars(s[1..]);
        assert forall c :: c in s[1..] ==> c in s;
      }
    }
  }

  /** Collapsing leaves single plain spaces only. */
  lemma {:induction false} CollapseWsShape(s: string)
    ensures NoAdjacentWs(CollapseWs(s)) && OnlySpaces(CollapseWs(s))
    decreases |s|
  {
    if s != [] {
      var tail := if IsWs(s[0]) then TrimStart(s) else s[1..];
      var c := if IsWs(s[0]) then ' ' else s[0];
      CollapseWsShape(tail);
      assert CollapseWs(s) == [c] + CollapseWs(tail);
      NoAdjacentWsCons(c, CollapseWs(tail));
    }
  }

  /** Collapsing keeps the visible characters and their order. */
  lemma {:induction false} CollapseWsVisible(s: string)
    ensures Visible(CollapseWs(s)) == Visible(s)
    decreases |s|
  {
    if s != [] {
      if IsWs(s[0]) {
        var t := TrimStart(s);
        CollapseWsVisible(t);
        assert s == s[..|s| - |t|] + t;
        VisibleConcat(s[..|s| - |t|], t);
        VisibleOfWs(s[..|s| - |t|]);
      } else {
        CollapseWsVisible(s[1..]);
      }
    }
  }

  lemma {:induction false} CollapseWsKeepsNoTag(s: string)
    requires NoCompleteTag(s)
    ensures NoCompleteTag(CollapseWs(s))
    decreases |s|
  {
    if s != [] {
      if IsWs(s[0]) {
        var t := TrimStart(s);
        SliceKeepsShape(s, |s| - |t|, |s|);
        CollapseWsKeepsNoTag(t);
        NoCompleteTagCons(' ', CollapseWs(t));
      } else {
        NoCompleteTagCons(s[0], s[1..]);
        assert [s[0]] + s[1..] == s;
        CollapseWsKeepsNoTag(s[1..]);
        CollapseWsChars(s[1..]);
        NoCompleteTagCons(s[0], CollapseWs(s[1..]));
      }
    }
  }

  /** In collapsed text a white-space character is a whole run on its own. */
  lemma CollapsedRunIsOneChar(s: string)
    requires s != [] && IsWs(s[0]) && NoAdjacentWs(s)
    ensures TrimStart(s) == s[1..]
  {
    assert |s| > 1 ==> !IsWs(s[1]);
    assert TrimStart(s[1..]) == s[1..];
  }

  /** A run of white space is dropped by trimming the front, up to the first visible character. */
  lemma {:induction false} TrimStartWsThen(w: string, b: string)
    requires forall k :: 0 <= k < |w| ==> IsWs(w[k])
    requires b == [] || !IsWs(b[0])
    ensures TrimStart(w + b) == b
    decreases |w|
  {
    if w == [] {
      assert w + b == b;
    } else {
      assert (w + b)[0] == w[0];
      assert (w + b)[1..] == w[1..] + b;
      TrimStartWsThen(w[1..], b);
    }
  }

  /**
   * A run of white space between visible text becomes exactly one space: it
   * neither vanishes nor joins the words on either side.
   */
  lemma CollapseWsSplit(a: string, w: string, b: string)
    requires forall k :: 0 <= k < |a| ==> !IsWs(a[k])
    requires w != [] && forall k :: 0 <= k < |w| ==> IsWs(w[k])
    requires b == [] || !IsWs(b[0])
    ensures CollapseWs(a + w + b) == a + " " + CollapseWs(b)
  {
    var u := w + b;
    assert a + w + b == a + u;
    assert u[0] == w[0];
    CollapseWsAfterWord(a, u);
    TrimStartWsThen(w, b);
  }

  /** Text that starts with white space collapses to one space and the collapsed rest. */
  lemma CollapseWsLeadingWs(u: string)
    requires u != [] && IsWs(u[0])
    ensures CollapseWs(u) == " " + CollapseWs(TrimStart(u))
  {
  }

  /** A first character that is not white space is copied, and the scan moves on. */
  lemma CollapseWsVisibleFirst(a: string, u: string)
    requires a != [] && !IsWs(a[0])
    ensures CollapseWs(a + u) == [a[0]] + CollapseWs(a[1..] + u)
  {
    var t := a[1..] + u;
    assert a + u == [a[0]] + t;
    assert ([a[0]] + t)[1..] == t;
  }

  lemma ConsThenSpace(a: string, rest: string)
    requires a != []
    ensures [a[0]] + (a[1..] + " " + rest) == a + " " + rest
  {
  }

  /** Text without white space, then white space: the text, one space, and the collapsed rest. */
  lemma {:induction false} CollapseWsAfterWord(a: string, u: string)
    requires forall k :: 0 <= k < |a| ==> !IsWs(a[k])
    requires u != [] && IsWs(u[0])
    ensures CollapseWs(a + u) == a + " " + CollapseWs(TrimStart(u))
    decreases |a|
  {
    var rest := CollapseWs(TrimStart(u));
    if a == [] {
      assert a + u == u;
      assert a + " " + rest == " " + rest;
      CollapseWsLeadingWs(u);
    } else {
      CollapseWsVisibleFirst(a, u);
      CollapseWsAfterWord(a[1..], u);
      ConsThenSpace(a, rest);
    }
  }

  /**
   * A word before a tag is followed by exactly one space once tags are
   * replaced and white space collapsed, whatever tags and white space come
   * next: the words on the two sides never run together.
   */
  lemma TagSeparatesWords(a: string, m: string, b: string)
    requires '<' !in a && forall k :: 0 <= k < |a| ==> !IsWs(a[k])
    requires '>' !in m
    ensures CollapseWs(ReplaceTags(a + "<" + m + ">" + b))
         == a + " " + CollapseWs(TrimStart(ReplaceTags(b)))
  {
    ReplaceTagsSplit(a, m, b);
    CollapseWsAfterSpace(a, ReplaceTags(b));
  }

  /** Text without white space, a space and anything: the text, one space, and the rest collapsed from its first visible character. */
  lemma CollapseWsAfterSpace(a: string, x: string)
    requires forall k :: 0 <= k < |a| ==> !IsWs(a[k])
    ensures CollapseWs(a + " " + x) == a + " " + CollapseWs(TrimStart(x))
  {
    var u := " " + x;
    assert a + " " + x == a + u;
    TrimStartSpace(x);
    CollapseWsAfterWord(a, u);
  }


  lemma TrimStartSpace(x: string)
    ensures TrimStart(" " + x) == TrimStart(x)
  {
    assert (" " + x)[1..] == x;
  }


  /** For instance, a blank line between two words becomes one space. */
  lemma CollapseBlankLine()
    ensures CollapseWs("a\n\nb") == "a b"
  {
    var a, w, b := "a", "\n\n", "b";
    assert "a\n\nb" == a + w + b;
    assert IsWs(w[0]) && IsWs(w[1]);
    CollapseWsSplit(a, w, b);
    assert b == [b[0]] + [];
    assert CollapseWs(b) == b;
    assert a + " " + b == "a b";
  }

  /** Already-collapsed text is left alone. */
  lemma {:induction false} CollapseWsCollapsed(s: string)
    requires NoAdjacentWs(s) && OnlySpaces(s)
    ensures CollapseWs(s) == s
    decreases |s|
  {
    if s != [] {
      var tail := s[1..];
      SliceKeepsShape(s, 1, |s|);
      CollapseWsCollapsed(tail);
      if IsWs(s[0]) {
        CollapsedRunIsOneChar(s);
      }
      assert [s[0]] + tail == s;
    }
  }

  lemma TrimStartVisible(s: string)
    ensures Visible(TrimStart(s)) == Visible(s)
  {
    var t := TrimStart(s);
    assert s == s[..|s| - |t|] + t;
    VisibleConcat(s[..|s| - |t|], t);
    VisibleOfWs(s[..|s| - |t|]);
  }

  lemma TrimEndVisible(s: string)
    ensures Visible(TrimEnd(s)) == Visible(s)
  {
    var r := TrimEnd(s);
    assert s == r + s[|r|..];
    VisibleConcat(r, s[|r|..]);
    VisibleOfWs(s[|r|..]);
  }

  /** `trim` leaves no white space at either end and keeps the visible characters. */
  lemma TrimResult(s: string)
    ensures NoEdgeWs(Trim(s))
    ensures Visible(Trim(s)) == Visible(s)
  {
    var t := TrimStart(s);
    var r := TrimEnd(t);
    assert r != [] ==> r[0] == t[0];
    TrimStartVisible(s);
    TrimEndVisible(t);
  }

  /** `trim` keeps the other shape properties, and leaves already-trimmed text alone. */
  lemma TrimStartKeepsShape(s: string)
    ensures NoAdjacentWs(s) ==> NoAdjacentWs(TrimStart(s))
    ensures OnlySpaces(s) ==> OnlySpaces(TrimStart(s))
    ensures NoCompleteTag(s) ==> NoCompleteTag(TrimStart(s))
  {
    var t := TrimStart(s);
    var x := |s| - |t|;
    assert t == s[x..];
    assert s[x..] == s[x..|s|];
    SliceKeepsShape(s, x, |s|);
  }

  lemma TrimEndKeepsShape(s: string)
    ensures NoAdjacentWs(s) ==> NoAdjacentWs(TrimEnd(s))
    ensures OnlySpaces(s) ==> OnlySpaces(TrimEnd(s))
    ensures NoCompleteTag(s) ==> NoCompleteTag(TrimEnd(s))
  {
    SliceKeepsShape(s, 0, |TrimEnd(s)|);
  }

  lemma TrimKeepsShape(s: string)
    ensures NoAdjacentWs(s) ==> NoAdjacentWs(Trim(s))
    ensures OnlySpaces(s) ==> OnlySpaces(Trim(s))
    ensures NoCompleteTag(s) ==> NoCompleteTag(Trim(s))
    ensures NoEdgeWs(s) ==> Trim(s) == s
  {
    TrimStartKeepsShape(s);
    TrimEndKeepsShape(TrimStart(s));
  }

  // ---------------------------------------------------------------------------
  // The whole pipeline

  /** Cleaning a cleaned text changes nothing. */
  lemma CleanIdempotent(html: string)
    ensures Clean(Clean(html)) == Clean(html)
  {
    var t := Clean(html);
    RemoveBlocksTagFree(t, StyleTag);
    RemoveBlocksTagFree(t, ScriptTag);
    ReplaceTagsTagFree(t);
    CollapseWsCollapsed(t);
    TrimKeepsShape(t);
  }

  /** Text with no `<` is only re-spaced: its visible characters come out unchanged and in order. */
  lemma CleanPlainText(text: string)
    requires '<' !in text
    ensures Clean(text) == Trim(CollapseWs(text))
    ensures Visible(Clean(text)) == Visible(text)
  {
    assert NoCompleteTag(text);
    RemoveBlocksTagFree(text, StyleTag);
    RemoveBlocksTagFree(text, ScriptTag);
    ReplaceTagsTagFree(text);
    TrimResult(CollapseWs(text));
    CollapseWsVisible(text);
  }

  /** A block stage deletes a block that follows text in which the block expression does not begin. */
  lemma RemoveBlocksDropsInnerBlock(a: string, blk: string, b: string, tag: string)
    requires NoOpeningIn(a, tag) && IsBlock(blk, tag)
    ensures RemoveBlocks(a + blk + b, tag) == RemoveBlocks(a + b, tag)
  {
    assert a + blk + b == a + (blk + b);
    OpeningsStayInside(a, blk + b, tag);
    OpeningsStayInside(a, b, tag);
    RemoveBlocksPlainPrefix(a, blk + b, tag);
    RemoveBlocksDropsBlock(blk, b, tag);
    RemoveBlocksPlainPrefix(a, b, tag);
  }

  /** The style stage keeps a script block, and the text before it, when no `<style` begins there. */
  lemma StyleStageKeepsPrefix(a: string, blk: string, b: string)
    requires NoOpeningIn(a, StyleTag) && NoOpeningIn(a + blk, StyleTag)
    ensures RemoveBlocks(a + blk + b, StyleTag) == a + blk + RemoveBlocks(b, StyleTag)
    ensures RemoveBlocks(a + b, StyleTag) == a + RemoveBlocks(b, StyleTag)
  {
    OpeningsStayInside(a + blk, b, StyleTag);
    OpeningsStayInside(a, b, StyleTag);
    RemoveBlocksPlainPrefix(a + blk, b, StyleTag);
    RemoveBlocksPlainPrefix(a, b, StyleTag);
  }

  /** The first stage keeps a prefix in which no `<style` begins; the second deletes the script block after it. */
  lemma BlockStagesDropScriptBlock(a: string, blk: string, b: string)
    requires NoOpeningIn(a, ScriptTag) && NoOpeningIn(a, StyleTag) && NoOpeningIn(a + blk, StyleTag)
    requires IsBlock(blk, ScriptTag)
    ensures RemoveBlocks(RemoveBlocks(a + blk + b, StyleTag), ScriptTag)
         == RemoveBlocks(RemoveBlocks(a + b, StyleTag), ScriptTag)
  {
    StyleStageKeepsPrefix(a, blk, b);
    RemoveBlocksDropsInnerBlock(a, blk, RemoveBlocks(b, StyleTag), ScriptTag);
  }

  /**
   * A `<style>` block is removed without a trace, not even a space, after any
   * text in which no `<style` begins and whose last character folds onto no
   * character of `<style`, such as `<html><head>`, a `<p>`, or either followed
   * by a line break.
   */
  lemma CleanDropsStyleBlock(a: string, blk: string, b: string)
    requires NoOpeningIn(a, StyleTag) && IsBlock(blk, StyleTag)
    ensures Clean(a + blk + b) == Clean(a + b)
  {
    RemoveBlocksDropsInnerBlock(a, blk, b, StyleTag);
  }

  /**
   * A `<script>` block is removed the same way, after text in which neither
   * `<script` nor `<style` begins, provided the first stage leaves the block
   * alone: no `<style` begins before its end.
   */
  lemma CleanDropsScriptBlock(a: string, blk: string, b: string)
    requires NoOpeningIn(a, ScriptTag) && NoOpeningIn(a, StyleTag) && NoOpeningIn(a + blk, StyleTag)
    requires IsBlock(blk, ScriptTag)
    ensures Clean(a + blk + b) == Clean(a + b)
  {
    BlockStagesDropScriptBlock(a, blk, b);
  }

  /** The usual place of a style sheet: in the head of a page laid out over several lines. */
  lemma CleanDropsStyleInHead(blk: string, b: string)
    requires IsBlock(blk, StyleTag)
    ensures Clean("<html>\n<head>\n  " + blk + b) == Clean("<html>\n<head>\n  " + b)
  {
    var a := "<html>\n<head>\n  ";
    forall k | 0 <= k < |a|
      ensures !MatchesCI(a, k, OpenPattern(StyleTag))
    {
      MatchedCharIf(a, k, OpenPattern(StyleTag), 0);
      MatchedCharIf(a, k, OpenPattern(StyleTag), 1);
    }
    CleanDropsStyleBlock(a, blk, b);
  }
}
