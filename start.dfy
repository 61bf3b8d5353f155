/**
 * start(decks): a new game. The store builds decks × 4 × 13 cards with suits
 * chosen by the difficulty, shuffles them (the shuffle is a parameter here: a
 * permutation of the card positions), deals the first 54 round-robin over the
 * ten play columns and turns the top card of every play column face-up.
 */
module Opening {
  import opened Types
  import opened Board
  import opened Engine

  /** The number of decks start uses: the argument when it is given (non-zero), else the default 2. */
  function DeckCount(decks: int): int
  {
    if decks != 0 then decks else 2
  }

  /** The suit of a new card for the difficulty and the position of its suit in CardColors. */
  function ColorFor(d: Difficulty, colorIndex: nat): (c: Color)
    requires colorIndex < 4
    ensures d == Easy ==> c == Spades
    ensures d == Medium ==> (c == Spades <==> colorIndex % 2 == 1) && (c == Hearts <==> colorIndex % 2 == 0)
    ensures d == Hard ==> c == CardColors[colorIndex]
  {
    match d
    case Easy => Spades
    case Medium => if colorIndex % 2 != 0 then Spades else Hearts
    case Hard => CardColors[colorIndex]
  }

  /** The k-th card built: the k-th of the loops over decks, suits and values, all flags clear. */
  function NewCard(d: Difficulty, k: nat): (c: Card)
    ensures c.id == k + 1 && c.value == k % 13 && !c.dealt && !c.turned
    ensures c.color == ColorFor(d, (k / 13) % 4)
  {
    Card(k + 1, k % 13, ColorFor(d, (k / 13) % 4), false, false)
  }

  /** The card pushed for value v of suit position colorIndex in deck number deck. */
  lemma NewCardAt(d: Difficulty, deck: nat, colorIndex: nat, v: nat)
    requires colorIndex < 4 && v < 13
    ensures NewCard(d, 52 * deck + 13 * colorIndex + v)
         == Card(52 * deck + 13 * colorIndex + v + 1, v, ColorFor(d, colorIndex), false, false)
  {
    var k := 52 * deck + 13 * colorIndex + v;
    assert k == 13 * (4 * deck + colorIndex) + v;
    assert k / 13 == 4 * deck + colorIndex && k % 13 == v;
    assert (4 * deck + colorIndex) % 4 == colorIndex;
  }

  /** The cards the loops of start push, in push order; card k gets the id k + 1. */
  function BuildCards(d: Difficulty, count: nat): (r: seq<Card>)
    ensures |r| == 52 * count
    ensures forall k :: 0 <= k < |r| ==> r[k] == NewCard(d, k)
  {
    seq(52 * count, k requires 0 <= k => NewCard(d, k))
  }

  /** perm lists each of the positions 0 .. n-1 exactly once. */
  predicate IsPermutation(perm: seq<nat>, n: nat)
  {
    && |perm| == n
    && (forall i :: 0 <= i < |perm| ==> perm[i] < n)
    && (forall i, j :: 0 <= i < j < |perm| ==> perm[i] != perm[j])
  }

  /** The cards in shuffled order: position i holds the card built at perm[i]. */
  function Shuffle(cards: seq<Card>, perm: seq<nat>): (r: seq<Card>)
    requires IsPermutation(perm, |cards|)
    ensures |r| == |cards| && forall i :: 0 <= i < |r| ==> r[i] == cards[perm[i]]
  {
    seq(|perm|, i requires 0 <= i < |perm| => cards[perm[i]])
  }

  /** The first deal: for i in 0 .. n-1 in turn, card i goes onto column i % 10 and is marked dealt. */
  function DealOpening(cards: seq<Card>, columns: seq<seq<Id>>, n: nat): (r: Layout)
    requires n <= |cards| && |columns| == ColumnCount
    ensures |r.cards| == |cards| && |r.columns| == ColumnCount
  {
    if n == 0 then Layout(cards, columns)
    else
      var prev := DealOpening(cards, columns, n - 1);
      var i := n - 1;
      Layout(prev.cards[i := prev.cards[i].(dealt := true)],
             prev.columns[i % 10 := prev.columns[i % 10] + [prev.cards[i].id]])
  }

  /** The callback of the first deal: for c in 0 .. n-1 in turn, the top card of column c is turned face-up. */
  function TurnTops(cards: seq<Card>, columns: seq<seq<Id>>, n: nat): (r: seq<Card>)
    requires n <= |columns|
    ensures |r| == |cards|
  {
    if n == 0 then cards
    else
      var prev := TurnTops(cards, columns, n - 1);
      var top := ColumnCard(prev, columns, n - 1);
      if top.Some? then MarkTurned(prev, top.value.id, true) else prev
  }

  /** The number of cards start deals before the first deal from the stock. */
  const OpeningDeal: nat := 54

  /** The whole of start after the reset, for the given difficulty. */
  function StartWith(reset: Game, d: Difficulty, decks: int, perm: seq<nat>): (r: Game)
    requires |reset.columns| == ColumnCount
    requires DeckCount(decks) >= 2 && IsPermutation(perm, 52 * DeckCount(decks))
  {
    var count := DeckCount(decks);
    var cards := Shuffle(BuildCards(d, count), perm);
    var dealt := DealOpening(cards, reset.columns, OpeningDeal);
    reset.(decks := count, difficulty := d,
           cards := TurnTops(dealt.cards, dealt.columns, PlayColumns), columns := dealt.columns)
  }

  /**
   * start as written: the reset puts the difficulty back to EASY before the
   * loops read it, so every game is built with one suit.
   */
  function StartAsWritten(g: Game, decks: int, perm: seq<nat>): (r: Game)
    requires DeckCount(decks) >= 2 && IsPermutation(perm, 52 * DeckCount(decks))
  {
    StartWith(Fresh(), Fresh().difficulty, decks, perm)
  }

  /** start as intended: the reset keeps the chosen difficulty, and the suits follow it. */
  function Start(g: Game, decks: int, perm: seq<nat>): (r: Game)
    requires DeckCount(decks) >= 2 && IsPermutation(perm, 52 * DeckCount(decks))
  {
    StartWith(Fresh().(difficulty := g.difficulty), g.difficulty, decks, perm)
  }
}
