/**
 * The spans of a search-result row (src/main.js, renderResults): one span per capture group of
 * the pattern's regex, classed "context" for the text around and between the pattern's pieces
 * and "highlight" for the text matched by a piece. The first group is cut from the left when
 * the whole match is long, keeping at least its last 16 characters, and then starts with an
 * ellipsis. Lengths count the characters of Dafny strings; where JavaScript would count UTF-16
 * code units differently (characters outside the Basic Multilingual Plane) the model differs.
 */
module ResultSpans {
  import LikeRegex
  import opened IntMath

  datatype SpanClass = Context | Highlight

  datatype Span = Span(kind: SpanClass, text: string)

  /** The class of the span of group `groupIndex`: context at even positions, highlight at
      odd ones. */
  function ClassOf(groupIndex: nat): (c: SpanClass)
    ensures c == Context <==> groupIndex % 2 == 0
    ensures c == Highlight <==> groupIndex % 2 == 1
  {
    if groupIndex % 2 == 0 then Context else Highlight
  }

  /** The classes follow the construction of the regex: a group is classed "context" exactly
      when its body is the wildcard of a `%` (or of the text before the first or after the last
      piece), and "highlight" exactly when its body is the regex of a piece, piece i / 2. */
  lemma ClassFollowsGroupBody(pieces: seq<string>, i: nat)
    requires i < 2 * |pieces| + 1
    ensures |LikeRegex.GroupBodies(pieces)| == 2 * |pieces| + 1
    ensures ClassOf(i) == Context <==> LikeRegex.GroupBodies(pieces)[i] == LikeRegex.Wildcard
    ensures ClassOf(i) == Highlight ==>
      LikeRegex.GroupBodies(pieces)[i] == LikeRegex.PieceRegex(pieces[i / 2])
  {
    LikeRegex.GroupBodyKinds(pieces, i);
    if i % 2 == 1 {
      LikeRegex.PieceRegexIsNotWildcard(pieces[i / 2]);
    }
  }

  const Ellipsis: char := '\U{2026}'

  /** The number of trailing characters of the first group that are always shown. */
  const ShownTail: nat := 16

  /** The match length up to which nothing is cut. */
  const MatchBudget: nat := 180

  /** The number of leading characters of the first group left out: the smaller of the group
      length less 16 and twice the excess of the match length over 180, neither below zero.
      It is as large as both limits allow: it keeps the last 16 characters, and it leaves out
      at most twice the number of characters by which the match exceeds 180, nothing when it
      does not. It is non-zero exactly when both limits are positive. */
  function StartIndex(groupLength: nat, matchLength: nat): (start: nat)
    ensures start <= groupLength
    ensures groupLength - start >= Min(groupLength, ShownTail)
    ensures start <= 2 * Max(0, matchLength - MatchBudget)
    ensures start == Max(0, groupLength - ShownTail) || start == 2 * Max(0, matchLength - MatchBudget)
    ensures matchLength <= MatchBudget ==> start == 0
    ensures start != 0 <==> groupLength > ShownTail && matchLength > MatchBudget
  {
    Min(Max(0, groupLength - ShownTail), 2 * Max(0, matchLength - MatchBudget))
  }

  /** The text of the first group's span: the group, or, when its start is cut off, an
      ellipsis followed by what remains. It is never longer than the group, always ends with the
      group's last 16 characters (all of them when there are fewer), is the whole group when the
      match is at most 180 characters long, and otherwise hides at most twice the excess. */
  function FirstGroupText(group: string, matchLength: nat): (shown: string)
    ensures |shown| <= |group|
    ensures var tail := Min(|group|, ShownTail);
      |shown| >= tail && shown[|shown| - tail..] == group[|group| - tail..]
    ensures matchLength <= MatchBudget ==> shown == group
    ensures shown == group || (
      && |shown| >= 1 && shown[0] == Ellipsis
      && shown[1..] == group[|group| - (|shown| - 1)..]
      && |group| - (|shown| - 1) <= 2 * Max(0, matchLength - MatchBudget))
    // the cut happens, with its ellipsis, exactly when the group is longer than the shown tail
    // and the match longer than the budget, and it is then as large as both limits allow
    ensures |group| > ShownTail && matchLength > MatchBudget ==>
      shown == [Ellipsis] + group[Min(|group| - ShownTail, 2 * (matchLength - MatchBudget))..]
    ensures !(|group| > ShownTail && matchLength > MatchBudget) ==> shown == group
  {
    var start := StartIndex(|group|, matchLength);
    var ellipsis := if start != 0 then [Ellipsis] else [];
    ellipsis + group[start..]
  }

  /** The spans of a row: one span per capture group of the match, the whole match left out,
      in order, classed by the parity of its index; every group but the first is shown whole. */
  function GroupSpans(groups: seq<string>, matchLength: nat): (spans: seq<Span>)
    ensures |spans| == |groups|
    ensures forall i :: 0 <= i < |spans| ==> spans[i].kind == ClassOf(i)
    ensures forall i :: 1 <= i < |spans| ==> spans[i].text == groups[i]
    ensures |spans| > 0 ==> spans[0].text == FirstGroupText(groups[0], matchLength)
  {
    if groups == [] then []
    else [Span(Context, FirstGroupText(groups[0], matchLength))] + LaterSpans(groups[1..], 1)
  }

  function LaterSpans(groups: seq<string>, firstIndex: nat): (spans: seq<Span>)
    ensures |spans| == |groups|
    ensures forall i :: 0 <= i < |spans| ==>
      spans[i] == Span(ClassOf(firstIndex + i), groups[i])
  {
    if groups == [] then []
    else [Span(ClassOf(firstIndex), groups[0])] + LaterSpans(groups[1..], firstIndex + 1)
  }

  /** A match of a pattern's regex returns one group per capture group: 2m + 3 for m `%`.
      Its highlighted spans are exactly those of the groups built from the pattern's pieces;
      all other spans are context. */
  lemma HighlightsArePieces(pattern: string, groups: seq<string>, matchLength: nat, i: nat)
    requires |groups| == 2 * LikeRegex.Occurrences(pattern, '%') + 3
    requires i < |groups|
    ensures |groups| == LikeRegex.CaptureGroupCount(LikeRegex.PatternRegex(pattern))
    ensures var pieces := LikeRegex.Split(pattern, '%');
      && i < |LikeRegex.GroupBodies(pieces)|
      && (GroupSpans(groups, matchLength)[i].kind == Highlight <==>
          LikeRegex.GroupBodies(pieces)[i] != LikeRegex.Wildcard)
  {
    var pieces := LikeRegex.Split(pattern, '%');
    LikeRegex.CaptureGroups(pattern);
    LikeRegex.GroupBodyKinds(pieces, i);
    ClassFollowsGroupBody(pieces, i);
  }
}
