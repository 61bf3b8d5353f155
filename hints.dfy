/**
 * getHints: every move of a tail run's card onto a play column whose top card
 * is exactly one rank higher, longest combined run first; asking again with a
 * non-empty list only advances the cursor.
 */
module Hints {
  import opened Types
  import opened Sorting
  import opened Board
  import opened Engine

  /** sequenceLengths: the run length of each play column. */
  function RunLengths(g: Game): (lens: seq<nat>)
    requires |g.columns| == ColumnCount
    ensures |lens| == PlayColumns
    ensures forall i :: 0 <= i < PlayColumns ==> lens[i] == RunLength(g.cards, g.columns[i])
  {
    seq(PlayColumns, i requires 0 <= i < PlayColumns => RunLength(g.cards, g.columns[i]))
  }

  /** The tail run of column i as cards: col.slice(col.length - run).map(getCard). */
  function TailCards(g: Game, i: nat): (tail: seq<Option<Card>>)
    requires i < |g.columns|
    ensures var col, run := g.columns[i], RunLength(g.cards, g.columns[i]);
      |tail| == run && forall j :: 0 <= j < run ==> tail[j] == GetCard(g.cards, col[|col| - run + j])
  {
    var col, run := g.columns[i], RunLength(g.cards, g.columns[i]);
    seq(run, j requires 0 <= j < run => GetCard(g.cards, col[|col| - run + j]))
  }

  /** The card the search of column i is for: a card one rank below last (findIndex), or -1. */
  function FindBelow(tail: seq<Option<Card>>, last: Card): (n: int)
    ensures -1 <= n < |tail|
    ensures n >= 0 ==> tail[n].Some? && tail[n].value.value + 1 == last.value
    ensures n >= 0 ==> forall j :: 0 <= j < n ==> !(tail[j].Some? && tail[j].value.value + 1 == last.value)
    ensures n == -1 ==> forall j :: 0 <= j < |tail| ==> !(tail[j].Some? && tail[j].value.value + 1 == last.value)
  {
    if tail == [] then -1
    else if FindBelow(tail[..|tail| - 1], last) >= 0 then FindBelow(tail[..|tail| - 1], last)
    else
      var k := |tail| - 1;
      if tail[k].Some? && tail[k].value.value + 1 == last.value then k else -1
  }

  /** The top card of play column index's run, as the reduce sees it (seq[seq.length - 1]). */
  function LastOfTail(g: Game, index: nat): (last: Option<Card>)
    requires index < |g.columns|
    ensures last.Some? ==> RunLength(g.cards, g.columns[index]) > 0
    ensures RunLength(g.cards, g.columns[index]) > 0 ==> last == ColumnCard(g.cards, g.columns, index)
  {
    var tail := TailCards(g, index);
    if tail == [] then None else tail[|tail| - 1]
  }

  /** The position n of the card column i offers to column index, when the hint filter admits it. */
  function Offer(g: Game, index: nat, i: nat): (n: int)
    requires |g.columns| == ColumnCount && index < PlayColumns && i < PlayColumns
    ensures -1 <= n < RunLength(g.cards, g.columns[i])
  {
    var last := LastOfTail(g, index);
    if i == index || last.None? then -1
    else
      var n := FindBelow(TailCards(g, i), last.value);
      if n > -1 && RunLength(g.cards, g.columns[index]) - n > 0 then n else -1
  }

  /** The hint for moving from column i, position n of its tail run, onto column index. */
  function HintAt(g: Game, index: nat, i: nat, n: nat): (h: Hint)
    requires |g.columns| == ColumnCount && index < PlayColumns && i < PlayColumns
    requires n < RunLength(g.cards, g.columns[i])
    ensures h.from == i && h.to == index
  {
    var col, run := g.columns[i], RunLength(g.cards, g.columns[i]);
    Hint(i, index, col[|col| - run + n], Some(run - n + RunLength(g.cards, g.columns[index])))
  }

  /** The forEach over the source columns 0 .. k-1 for target index, each hint unshifted onto acc. */
  function Unshifted(g: Game, acc: seq<Hint>, index: nat, k: nat): (r: seq<Hint>)
    requires |g.columns| == ColumnCount && index < PlayColumns && k <= PlayColumns
  {
    if k == 0 then acc
    else
      var prev := Unshifted(g, acc, index, k - 1);
      var n := Offer(g, index, k - 1);
      if n >= 0 then [HintAt(g, index, k - 1, n)] + prev else prev
  }

  /** The reduce over the target columns 0 .. t-1. */
  function Raw(g: Game, t: nat): (r: seq<Hint>)
    requires |g.columns| == ColumnCount && t <= PlayColumns
  {
    if t == 0 then [] else Unshifted(g, Raw(g, t - 1), t - 1, PlayColumns)
  }

  /** The sort key of a hint: its length (every computed hint has one). */
  function LengthKey(h: Hint): int
  {
    if h.length.Some? then h.length.value else 0
  }

  /** sortBy(…, "length").reverse(): the hints by non-increasing length. */
  function ComputeHints(g: Game): (hints: seq<Hint>)
    requires |g.columns| == ColumnCount
  {
    Reverse(SortBy(Raw(g, PlayColumns), LengthKey))
  }

  /**
   * getHints: with a non-empty list, advance the cursor cyclically; otherwise
   * compute the list, start the cursor at 0 and flag an empty list.
   */
  function GetHints(g: Game): (r: Game)
    requires WellFormed(g)
  {
    if g.hints != [] then g.(hintIndex := NextIndex(g.hintIndex, |g.hints|))
    else
      var hints := ComputeHints(g);
      g.(hintIndex := 0, hints := hints, noHints := if hints == [] then true else g.noHints)
  }
}
