/**
 * The read-only queries of the Spider store: card lookup by id, the column
 * holding a card, a column's top card, and the length of the run at the tail
 * of a column. Also the board invariant the store's actions keep.
 */
module Board {
  import opened Types

  /** Position of the first card with this id (cards.find), or -1. */
  function FindCard(cards: seq<Card>, id: Id): (k: int)
    ensures -1 <= k < |cards|
    ensures k >= 0 ==> cards[k].id == id && forall j :: 0 <= j < k ==> cards[j].id != id
    ensures k == -1 ==> forall j :: 0 <= j < |cards| ==> cards[j].id != id
  {
    FindFrom(cards, id, 0)
  }

  /** The scan of cards.find from position i on. */
  function FindFrom(cards: seq<Card>, id: Id, i: nat): (k: int)
    requires i <= |cards|
    ensures -1 <= k < |cards|
    ensures k >= 0 ==> i <= k && cards[k].id == id && forall j :: i <= j < k ==> cards[j].id != id
    ensures k == -1 ==> forall j :: i <= j < |cards| ==> cards[j].id != id
    decreases |cards| - i
  {
    if i == |cards| then -1
    else if cards[i].id == id then i
    else FindFrom(cards, id, i + 1)
  }

  /** getCard: the card with this id; the empty id finds nothing. */
  function GetCard(cards: seq<Card>, id: Id): (c: Option<Card>)
    ensures c.Some? <==> id != NoId && FindCard(cards, id) >= 0
    ensures c.Some? ==> c.value == cards[FindCard(cards, id)] && c.value.id == id
  {
    if id == NoId then None
    else
      var k := FindCard(cards, id);
      if k < 0 then None else Some(cards[k])
  }

  /** col.indexOf(id): the first position of id in the column, or -1. */
  function IndexOfId(col: seq<Id>, id: Id): (k: int)
    ensures -1 <= k < |col|
    ensures k >= 0 ==> col[k] == id && forall j :: 0 <= j < k ==> col[j] != id
    ensures k == -1 <==> id !in col
  {
    if col == [] then -1
    else if col[0] == id then 0
    else
      var k := IndexOfId(col[1..], id);
      assert col == [col[0]] + col[1..];
      if k < 0 then -1 else k + 1
  }

  /** getCardColumnIndex: the first column that includes id, or -1. */
  function CardColumnIndex(columns: seq<seq<Id>>, id: Id): (i: int)
    ensures -1 <= i < |columns|
    ensures i >= 0 ==> id in columns[i] && forall j :: 0 <= j < i ==> id !in columns[j]
    ensures i == -1 <==> forall j :: 0 <= j < |columns| ==> id !in columns[j]
  {
    if columns == [] then -1
    else
      var n := |columns| - 1;
      var i := CardColumnIndex(columns[..n], id);
      if i >= 0 then i
      else if id in columns[n] then n
      else -1
  }

  /** getColumnCard: the card whose id is last in the column. */
  function ColumnCard(cards: seq<Card>, columns: seq<seq<Id>>, index: nat): (c: Option<Card>)
    requires index < |columns|
    ensures c.Some? ==> columns[index] != [] && c == GetCard(cards, columns[index][|columns[index]| - 1])
    ensures columns[index] != [] ==> c == GetCard(cards, columns[index][|columns[index]| - 1])
  {
    var col := columns[index];
    if col == [] then None else GetCard(cards, col[|col| - 1])
  }

  /**
   * The run condition between a card and the card beneath it: the one beneath
   * exists, is face-up, has the same colour and exactly the next higher rank.
   */
  predicate Stacks(beneath: Option<Card>, above: Card)
  {
    beneath.Some? && beneath.value.turned && beneath.value.color == above.color
    && beneath.value.value == above.value + 1
  }

  /** The card at position j of col continues the run onto the card at j - 1. */
  predicate LinkedAt(cards: seq<Card>, col: seq<Id>, j: int)
    requires 0 < j < |col|
  {
    var above := GetCard(cards, col[j]);
    above.Some? && Stacks(GetCard(cards, col[j - 1]), above.value)
  }

  /** How many consecutive links the run continues below position j. */
  function ChainBelow(cards: seq<Card>, col: seq<Id>, j: nat): (n: nat)
    requires j < |col|
    ensures n <= j
  {
    if j == 0 || !LinkedAt(cards, col, j) then 0
    else 1 + ChainBelow(cards, col, j - 1)
  }

  /**
   * getColumnSequenceLength on one column: 0 when the top card is missing;
   * otherwise the top card (face-up or not) and every card beneath it while
   * the run continues.
   */
  function RunLength(cards: seq<Card>, col: seq<Id>): (r: nat)
    ensures r <= |col|
  {
    if col == [] || GetCard(cards, col[|col| - 1]).None? then 0
    else 1 + ChainBelow(cards, col, |col| - 1)
  }

  /** The id of the first card of col's tail run, or the empty id when the run is empty. */
  function RunStart(cards: seq<Card>, col: seq<Id>): Id
  {
    var run := RunLength(cards, col);
    if run > 0 then col[|col| - run] else NoId
  }

  lemma {:induction false} ChainBelowMeaning(cards: seq<Card>, col: seq<Id>, j: nat)
    requires j < |col|
    ensures forall i :: j - ChainBelow(cards, col, j) < i <= j ==> LinkedAt(cards, col, i)
    ensures ChainBelow(cards, col, j) < j ==> !LinkedAt(cards, col, j - ChainBelow(cards, col, j))
  {
    if j > 0 && LinkedAt(cards, col, j) {
      ChainBelowMeaning(cards, col, j - 1);
    }
  }

  /**
   * The run is the longest tail of the column in which every card continues
   * the run onto the card beneath it (face-up, same colour, one rank higher),
   * provided the top card exists.
   */
  lemma RunLengthMeaning(cards: seq<Card>, col: seq<Id>)
    ensures var r := RunLength(cards, col);
      && (r == 0 <==> col == [] || GetCard(cards, col[|col| - 1]).None?)
      && (forall j :: |col| - r < j < |col| ==> LinkedAt(cards, col, j))
      && (0 < r < |col| ==> !LinkedAt(cards, col, |col| - r))
  {
    if col != [] && GetCard(cards, col[|col| - 1]).Some? {
      ChainBelowMeaning(cards, col, |col| - 1);
    }
  }

  /** If the last k positions are linked, the run is at least k long. */
  lemma {:induction false} RunLengthAtLeast(cards: seq<Card>, col: seq<Id>, k: nat)
    requires 0 < k <= |col| && GetCard(cards, col[|col| - 1]).Some?
    requires forall j :: |col| - k < j < |col| ==> LinkedAt(cards, col, j)
    ensures k <= RunLength(cards, col)
  {
    RunLengthMeaning(cards, col);
  }

  // ---------------------------------------------------------------------------
  // Where ids are placed, and the board invariant

  /** The ids in all columns together, with multiplicity. */
  function Placed(columns: seq<seq<Id>>): multiset<Id>
  {
    if columns == [] then multiset{}
    else Placed(columns[..|columns| - 1]) + multiset(columns[|columns| - 1])
  }

  lemma {:induction false} PlacedHas(columns: seq<seq<Id>>, c: nat)
    requires c < |columns|
    ensures multiset(columns[c]) <= Placed(columns)
  {
    var n := |columns| - 1;
    if c < n {
      assert columns[..n][c] == columns[c];
      PlacedHas(columns[..n], c);
    }
  }

  /** Two different columns hold disjoint parts of Placed. */
  lemma {:induction false} PlacedHasTwo(columns: seq<seq<Id>>, a: nat, b: nat)
    requires a < b < |columns|
    ensures multiset(columns[a]) + multiset(columns[b]) <= Placed(columns)
  {
    var n := |columns| - 1;
    assert columns[..n][a] == columns[a];
    if b < n {
      assert columns[..n][b] == columns[b];
      PlacedHasTwo(columns[..n], a, b);
    } else {
      PlacedHas(columns[..n], a);
    }
  }

  lemma {:induction false} PlacedUpdate(columns: seq<seq<Id>>, k: nat, c: seq<Id>)
    requires k < |columns|
    ensures Placed(columns[k := c]) == Placed(columns) - multiset(columns[k]) + multiset(c)
  {
    var n := |columns| - 1;
    var u := columns[k := c];
    assert Placed(u) == Placed(u[..n]) + multiset(u[n]);
    assert Placed(columns) == Placed(columns[..n]) + multiset(columns[n]);
    if k < n {
      assert u[..n] == columns[..n][k := c];
      PlacedUpdate(columns[..n], k, c);
      PlacedHas(columns[..n], k);
      assert u[n] == columns[n];
      MultisetSwap(Placed(columns[..n]), multiset(columns[n]), multiset(columns[k]), multiset(c));
    } else {
      assert u[..n] == columns[..n];
    }
  }

  /** Taking x out of a and putting y in commutes with adding b. */
  lemma MultisetSwap<T>(a: multiset<T>, b: multiset<T>, x: multiset<T>, y: multiset<T>)
    requires x <= a
    ensures (a - x + y) + b == (a + b) - x + y
  {
  }

  /** The ids of the cards are distinct and none is the empty id. */
  predicate IdsDistinct(cards: seq<Card>)
  {
    && (forall i, j :: 0 <= i < j < |cards| ==> cards[i].id != cards[j].id)
    && (forall i :: 0 <= i < |cards| ==> cards[i].id != NoId)
  }

  /** With distinct ids, getCard finds each card at its own position. */
  lemma FindDistinct(cards: seq<Card>, p: nat)
    requires IdsDistinct(cards) && p < |cards|
    ensures FindCard(cards, cards[p].id) == p
  {
  }

  /**
   * The board invariant: 11 columns; distinct card ids; every id occurs in at
   * most one column and at most once there, names a card, and is there exactly
   * when that card is dealt; an undealt card is face-down.
   */
  ghost predicate BoardOk(cards: seq<Card>, columns: seq<seq<Id>>)
  {
    && |columns| == 11
    && IdsDistinct(cards)
    && (forall id :: Placed(columns)[id] <= 1)
    && (forall id :: id in Placed(columns) ==> GetCard(cards, id).Some?)
    && (forall k :: 0 <= k < |cards| ==> (cards[k].dealt <==> cards[k].id in Placed(columns)))
    && (forall k :: 0 <= k < |cards| ==> !cards[k].dealt ==> !cards[k].turned)
  }

  /** Under the invariant, every id in a column names a card and lies in no other column. */
  lemma PlacedOnce(cards: seq<Card>, columns: seq<seq<Id>>, c: nat, i: nat)
    requires BoardOk(cards, columns) && c < |columns| && i < |columns[c]|
    ensures GetCard(cards, columns[c][i]).Some?
    ensures CardColumnIndex(columns, columns[c][i]) == c
    ensures IndexOfId(columns[c], columns[c][i]) == i
  {
    var id := columns[c][i];
    PlacedHas(columns, c);
    assert id in multiset(columns[c]);
    forall d | 0 <= d < |columns| && d != c ensures id !in columns[d] {
      if d < c { PlacedHasTwo(columns, d, c); } else { PlacedHasTwo(columns, c, d); }
    }
    var k := IndexOfId(columns[c], id);
    assert k <= i by {
      assert id in columns[c][..i + 1];
    }
    CountAtTwo(columns[c], k, i);
  }

  lemma CountAtTwo(col: seq<Id>, k: nat, i: nat)
    requires k <= i < |col|
    ensures k < i && col[k] == col[i] ==> multiset(col)[col[i]] >= 2
  {
    if k < i && col[k] == col[i] {
      assert col == col[..k] + [col[k]] + col[k + 1..i] + [col[i]] + col[i + 1..];
    }
  }

  /** A column of a valid board is empty exactly when its run length is 0; otherwise the run counts its top card. */
  lemma RunLengthOfPlayColumn(cards: seq<Card>, columns: seq<seq<Id>>, c: nat)
    requires BoardOk(cards, columns) && c < |columns|
    ensures RunLength(cards, columns[c]) == 0 <==> columns[c] == []
    ensures columns[c] != [] ==> 1 <= RunLength(cards, columns[c]) <= |columns[c]|
  {
    if columns[c] != [] {
      PlacedOnce(cards, columns, c, |columns[c]| - 1);
    }
  }
}
