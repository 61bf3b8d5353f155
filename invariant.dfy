/**
 * The board invariant (Board.BoardOk) is kept by every fresh move and by the
 * deal: ids stay in at most one column, every placed id names a dealt card and
 * every undealt card stays face-down.
 */
module Invariant {
  import opened Seqs
  import opened Types
  import opened Board
  import opened Engine
  import opened MoveFacts

  /** Two card lists with the same ids, position by position. */
  predicate SameIds(a: seq<Card>, b: seq<Card>)
  {
    |a| == |b| && forall k :: 0 <= k < |a| ==> a[k].id == b[k].id
  }

  /** Lookups by id only see the ids. */
  lemma GetCardSameIds(a: seq<Card>, b: seq<Card>, id: Id)
    requires SameIds(a, b)
    ensures FindCard(a, id) == FindCard(b, id)
    ensures GetCard(a, id).Some? <==> GetCard(b, id).Some?
  {
    var i, j := FindCard(a, id), FindCard(b, id);
    if i >= 0 && j >= 0 {
      assert !(i < j) && !(j < i);
    }
  }

  /** Moving a suffix from one column to another keeps the ids placed, with their multiplicities. */
  lemma {:induction false} PlacedRelocated(columns: seq<seq<Id>>, index: nat, cardIndex: nat, to: nat)
    requires index < |columns| && cardIndex <= |columns[index]| && to < |columns|
    ensures Placed(Relocated(columns, index, cardIndex, to)) == Placed(columns)
  {
    var col := columns[index];
    var c1 := columns[index := col[..cardIndex]];
    assert col == col[..cardIndex] + col[cardIndex..];
    assert multiset(col) == multiset(col[..cardIndex]) + multiset(col[cardIndex..]);
    PlacedUpdate(columns, index, col[..cardIndex]);
    PlacedHas(columns, index);
    PlacedUpdate(c1, to, c1[to] + col[cardIndex..]);
    PlacedHas(c1, to);
    assert multiset(c1[to] + col[cardIndex..]) == multiset(c1[to]) + multiset(col[cardIndex..]);
  }

  /** Turning a dealt card face-up keeps the invariant. */
  lemma TurnKeepsBoard(cards: seq<Card>, columns: seq<seq<Id>>, id: Id)
    requires BoardOk(cards, columns) && id in Placed(columns)
    ensures BoardOk(MarkTurned(cards, id, true), columns)
  {
    var r := MarkTurned(cards, id, true);
    assert SameIds(cards, r);
    forall id' ensures GetCard(cards, id').Some? <==> GetCard(r, id').Some? {
      GetCardSameIds(cards, r, id');
    }
  }

  /** Moving a suffix to another column, and turning the card it uncovers face-up, keeps the invariant. */
  lemma ShiftKeepsBoard(cards: seq<Card>, columns: seq<seq<Id>>, index: nat, cardIndex: nat, to: nat, exposed: Option<Card>)
    requires BoardOk(cards, columns)
    requires index < |columns| && cardIndex <= |columns[index]| && to < |columns|
    requires exposed.Some? ==> 0 < cardIndex && exposed.value.id == columns[index][cardIndex - 1]
    ensures BoardOk(if exposed.Some? then MarkTurned(cards, exposed.value.id, true) else cards,
                    Relocated(columns, index, cardIndex, to))
  {
    var cols := Relocated(columns, index, cardIndex, to);
    PlacedRelocated(columns, index, cardIndex, to);
    assert BoardOk(cards, cols);
    if exposed.Some? {
      PlacedHas(columns, index);
      assert columns[index][cardIndex - 1] in multiset(columns[index]);
      TurnKeepsBoard(cards, cols, exposed.value.id);
    }
  }

  /** An allowed fresh move, carried out, keeps the invariant. */
  lemma CarriedKeepsBoard(g: Game, m: Move)
    requires WellFormed(g) && MoveArgsOk(g, m, false) && Allowed(g, m)
    requires BoardOk(g.cards, g.columns)
    ensures BoardOk(Carried(g, m).cards, Carried(g, m).columns)
  {
    var index := CardColumnIndex(g.columns, m.uuid);
    ShiftKeepsBoard(g.cards, g.columns, index, IndexOfId(g.columns[index], m.uuid), m.to, Exposed(g, m));
  }

  /** Every fresh move keeps the invariant, the removal of a completed run included. */
  lemma {:induction false} MoveKeepsBoard(g: Game, m: Move)
    requires WellFormed(g) && MoveArgsOk(g, m, false)
    requires BoardOk(g.cards, g.columns)
    ensures BoardOk(MoveCard(g, m, false).cards, MoveCard(g, m, false).columns)
    decreases if m.to < Tray then 1 else 0
  {
    if m.to == m.from {
      return;
    }
    var index := CardColumnIndex(g.columns, m.uuid);
    if index < 0 {
      MoveOfUnplacedCard(g, m);
    } else if !Allowed(g, m) {
      MoveRejected(g, m);
    } else {
      MoveAllowed(g, m);
      CarriedKeepsBoard(g, m);
      var c := Carried(g, m);
      if m.to < Tray && RunLength(c.cards, c.columns[m.to]) == RunSize {
        MoveKeepsBoard(c, ExtractMove(c, m.to));
      }
    }
  }

  // ---------------------------------------------------------------------------
  // dealMore

  /** The columns side of the deal: packed[c] pushed onto column c, for c in 0 .. n-1. */
  function DealColumns(columns: seq<seq<Id>>, packed: seq<Id>, n: nat): (r: seq<seq<Id>>)
    requires n <= |columns| && n <= |packed|
    ensures |r| == |columns|
  {
    if n == 0 then columns
    else
      var prev := DealColumns(columns, packed, n - 1);
      prev[n - 1 := prev[n - 1] + [packed[n - 1]]]
  }

  /** The cards side of the deal: the card of packed[c] marked dealt and face-up, for c in 0 .. n-1. */
  function DealCards(cards: seq<Card>, packed: seq<Id>, n: nat): (r: seq<Card>)
    requires n <= |packed|
  {
    if n == 0 then cards else MarkDealt(DealCards(cards, packed, n - 1), packed[n - 1], true)
  }

  /** The deal updates the cards and the columns independently. */
  lemma {:induction false} DealRowSides(cards: seq<Card>, columns: seq<seq<Id>>, packed: seq<Id>, n: nat)
    requires n <= |columns| && n <= |packed|
    ensures DealRow(cards, columns, packed, n) == Layout(DealCards(cards, packed, n), DealColumns(columns, packed, n))
  {
    if n > 0 {
      DealRowSides(cards, columns, packed, n - 1);
    }
  }

  /** The cards after the ids packed[..n] have been marked dealt and face-up. */
  lemma {:induction false} DealCardsMeaning(cards: seq<Card>, packed: seq<Id>, n: nat)
    requires n <= |packed| && IdsDistinct(cards)
    requires forall i :: 0 <= i < n ==> GetCard(cards, packed[i]).Some?
    ensures var r := DealCards(cards, packed, n);
      && SameIds(cards, r)
      && forall k :: 0 <= k < |cards| ==>
           r[k] == if cards[k].id in packed[..n] then cards[k].(dealt := true, turned := true) else cards[k]
  {
    if n > 0 {
      DealCardsMeaning(cards, packed, n - 1);
      var prev := DealCards(cards, packed, n - 1);
      var id := packed[n - 1];
      GetCardSameIds(cards, prev, id);
      var j := FindCard(cards, id);
      forall k | 0 <= k < |cards|
        ensures cards[k].id in packed[..n] <==> cards[k].id in packed[..n - 1] || cards[k].id == id
        ensures k != j ==> cards[k].id != id
      {
        PrefixHas(packed, n, cards[k].id);
      }
    }
  }

  /** The columns after the deal hold the ids they held, and packed[..n] besides. */
  lemma {:induction false} DealColumnsPlaced(columns: seq<seq<Id>>, packed: seq<Id>, n: nat)
    requires n <= |columns| && n <= |packed|
    ensures Placed(DealColumns(columns, packed, n)) == Placed(columns) + multiset(packed[..n])
  {
    if n > 0 {
      DealColumnsPlaced(columns, packed, n - 1);
      var prev := DealColumns(columns, packed, n - 1);
      assert packed[..n] == packed[..n - 1] + [packed[n - 1]];
      PlacedPush(prev, DealColumns(columns, packed, n), n - 1, packed[n - 1], Placed(columns), packed[..n - 1]);
    }
  }

  /** One more id on column c adds it to the placed ids. */
  lemma PlacedPush(columns: seq<seq<Id>>, after: seq<seq<Id>>, c: nat, p: Id, base: multiset<Id>, added: seq<Id>)
    requires c < |columns| && after == columns[c := columns[c] + [p]]
    requires Placed(columns) == base + multiset(added)
    ensures Placed(after) == base + multiset(added + [p])
  {
    PlacedUpdate(columns, c, columns[c] + [p]);
    PlacedHas(columns, c);
    assert multiset(columns[c] + [p]) == multiset(columns[c]) + multiset{p};
    assert multiset(added + [p]) == multiset(added) + multiset{p};
  }

  /** The undealt cards have distinct ids, and are cards of the game. */
  lemma DeckIds(cards: seq<Card>)
    requires IdsDistinct(cards)
    ensures IdsDistinct(Deck(cards))
    ensures forall i :: 0 <= i < |Deck(cards)| ==> Deck(cards)[i] in cards
  {
    DeckDistinct(cards);
    DeckMembers(cards);
  }

  lemma DeckMembers(cards: seq<Card>)
    ensures forall i :: 0 <= i < |Deck(cards)| ==> Deck(cards)[i] in cards
  {
    var d := Deck(cards);
    forall i | 0 <= i < |d| ensures d[i] in cards {
      assert d[i] in multiset(d);
    }
  }

  /** Every undealt card lies in the deck. */
  lemma {:induction false} DeckComplete(cards: seq<Card>)
    ensures forall k :: 0 <= k < |cards| && !cards[k].dealt ==> cards[k] in Deck(cards)
  {
    if cards != [] {
      var n := |cards| - 1;
      var d, last := Deck(cards[..n]), if cards[n].dealt then [] else [cards[n]];
      assert Deck(cards) == d + last by {
        DeckSnoc(cards);
      }
      DeckComplete(cards[..n]);
      forall k | 0 <= k < |cards| && !cards[k].dealt ensures cards[k] in d + last {
        if k < n {
          assert cards[..n][k] == cards[k];
          assert cards[k] in d;
        } else {
          assert cards[k] in last;
        }
      }
    }
  }

  /** The deck (cards.filter(getNotDealt)) holds exactly the undealt cards of the game. */
  lemma DeckMeaning(cards: seq<Card>)
    ensures forall c :: c in Deck(cards) <==> c in cards && !c.dealt
  {
    DeckMembers(cards);
    DeckComplete(cards);
  }

  lemma {:induction false} DeckDistinct(cards: seq<Card>)
    requires IdsDistinct(cards)
    ensures IdsDistinct(Deck(cards))
  {
    if cards != [] {
      var n := |cards| - 1;
      var x := cards[n];
      var d := Deck(cards[..n]);
      DeckSnoc(cards);
      DistinctPrefix(cards, n);
      DeckDistinct(cards[..n]);
      LastIdFresh(cards);
      if !x.dealt {
        DistinctSnoc(d, x);
      }
    }
  }

  /** The last card's id is not the id of any card in the deck of the cards before it. */
  lemma LastIdFresh(cards: seq<Card>)
    requires IdsDistinct(cards) && cards != []
    ensures var n := |cards| - 1; var d := Deck(cards[..n]);
      forall i :: 0 <= i < |d| ==> d[i].id != cards[n].id
  {
    var n := |cards| - 1;
    var p := cards[..n];
    var d := Deck(p);
    DeckMembers(p);
    forall i | 0 <= i < |d| ensures d[i].id != cards[n].id {
      var k :| 0 <= k < |p| && p[k] == d[i];
      assert cards[k] == d[i];
    }
  }

  /** The deck of a non-empty card list: the deck of all but the last card, then the last card if undealt. */
  lemma DeckSnoc(cards: seq<Card>)
    requires cards != []
    ensures var n := |cards| - 1;
      Deck(cards) == Deck(cards[..n]) + (if cards[n].dealt then [] else [cards[n]])
  {
  }

  /**
   * The deck keeps card order, as filter does: of two undealt cards, the one
   * lying earlier in cards comes earlier in the deck. With DeckMeaning and
   * DeckDistinct this fixes the deck completely.
   */
  lemma {:induction false} DeckOrder(cards: seq<Card>)
    requires IdsDistinct(cards)
    ensures var d := Deck(cards);
      forall i, j :: 0 <= i < j < |d| ==> 0 <= FindCard(cards, d[i].id) < FindCard(cards, d[j].id)
  {
    if cards != [] {
      var n := |cards| - 1;
      var p := cards[..n];
      var d := Deck(p);
      DeckSnoc(cards);
      DistinctPrefix(cards, n);
      DeckOrder(p);
      DeckMembers(p);
      forall i | 0 <= i < |d| ensures FindCard(cards, d[i].id) == FindCard(p, d[i].id) < n {
        var k :| 0 <= k < |p| && p[k] == d[i];
        assert cards[k] == d[i];
        FindDistinct(cards, k);
        FindDistinct(p, k);
      }
      FindDistinct(cards, n);
      var r := Deck(cards);
      forall i, j | 0 <= i < j < |r| ensures 0 <= FindCard(cards, r[i].id) < FindCard(cards, r[j].id) {
        assert r[i] == d[i];
        if j < |d| {
          assert r[j] == d[j];
        } else {
          assert r[j] == cards[n];
        }
      }
    }
  }

  lemma DistinctPrefix(cards: seq<Card>, n: nat)
    requires IdsDistinct(cards) && n <= |cards|
    ensures IdsDistinct(cards[..n])
  {
    var p := cards[..n];
    forall i, j | 0 <= i < j < |p| ensures p[i].id != p[j].id {
      assert p[i] == cards[i] && p[j] == cards[j];
    }
    forall i | 0 <= i < |p| ensures p[i].id != NoId {
      assert p[i] == cards[i];
    }
  }

  /** One more card whose id is new keeps the ids distinct. */
  lemma DistinctSnoc(d: seq<Card>, x: Card)
    requires IdsDistinct(d) && x.id != NoId
    requires forall i :: 0 <= i < |d| ==> d[i].id != x.id
    ensures IdsDistinct(d + [x])
  {
    var r := d + [x];
    forall i, j | 0 <= i < j < |r| ensures r[i].id != r[j].id {
      assert r[i] == d[i];
      if j < |d| {
        assert r[j] == d[j];
      }
    }
  }

  /** The ids packed[..n] are distinct and name undealt cards. */
  predicate Dealable(cards: seq<Card>, packed: seq<Id>, n: nat)
    requires n <= |packed|
  {
    && (forall a, b :: 0 <= a < b < n ==> packed[a] != packed[b])
    && (forall i :: 0 <= i < n ==> GetCard(cards, packed[i]).Some? && !GetCard(cards, packed[i]).value.dealt)
  }

  /** Placing distinct undealt ids and marking their cards dealt and face-up keeps the invariant. */
  lemma DealtBoard(cards: seq<Card>, columns: seq<seq<Id>>, packed: seq<Id>, n: nat, r: seq<Card>, after: seq<seq<Id>>)
    requires BoardOk(cards, columns) && n <= |packed| && Dealable(cards, packed, n)
    requires SameIds(cards, r)
    requires forall k :: 0 <= k < |cards| ==>
      r[k] == if cards[k].id in packed[..n] then cards[k].(dealt := true, turned := true) else cards[k]
    requires |after| == 11 && Placed(after) == Placed(columns) + multiset(packed[..n])
    ensures BoardOk(r, after)
  {
    DealtOnce(cards, columns, packed, n, after);
    DealtFound(cards, columns, packed, n, r, after);
    DealtFlags(cards, columns, packed, n, r, after);
  }

  lemma DealtFound(cards: seq<Card>, columns: seq<seq<Id>>, packed: seq<Id>, n: nat, r: seq<Card>, after: seq<seq<Id>>)
    requires BoardOk(cards, columns) && n <= |packed| && Dealable(cards, packed, n)
    requires SameIds(cards, r)
    requires Placed(after) == Placed(columns) + multiset(packed[..n])
    ensures forall id :: id in Placed(after) ==> GetCard(r, id).Some?
  {
    forall id | id in Placed(after) ensures GetCard(r, id).Some? {
      GetCardSameIds(cards, r, id);
    }
  }

  lemma DealtFlags(cards: seq<Card>, columns: seq<seq<Id>>, packed: seq<Id>, n: nat, r: seq<Card>, after: seq<seq<Id>>)
    requires forall k :: 0 <= k < |cards| ==> (cards[k].dealt <==> cards[k].id in Placed(columns))
    requires forall k :: 0 <= k < |cards| ==> !cards[k].dealt ==> !cards[k].turned
    requires IdsDistinct(cards) && SameIds(cards, r) && n <= |packed|
    requires forall k :: 0 <= k < |cards| ==>
      r[k] == if cards[k].id in packed[..n] then cards[k].(dealt := true, turned := true) else cards[k]
    requires Placed(after) == Placed(columns) + multiset(packed[..n])
    ensures IdsDistinct(r)
    ensures forall k :: 0 <= k < |r| ==> (r[k].dealt <==> r[k].id in Placed(after))
    ensures forall k :: 0 <= k < |r| ==> !r[k].dealt ==> !r[k].turned
  {
    forall k | 0 <= k < |r| ensures r[k].dealt <==> r[k].id in Placed(after) {
      var id := cards[k].id;
      assert r[k].id == id;
      assert id in Placed(after) <==> id in Placed(columns) || id in multiset(packed[..n]);
    }
  }

  /** The placed ids stay single when distinct undealt ids are added. */
  lemma DealtOnce(cards: seq<Card>, columns: seq<seq<Id>>, packed: seq<Id>, n: nat, after: seq<seq<Id>>)
    requires BoardOk(cards, columns) && n <= |packed| && Dealable(cards, packed, n)
    requires Placed(after) == Placed(columns) + multiset(packed[..n])
    ensures forall id :: Placed(after)[id] <= 1
  {
    forall id ensures Placed(after)[id] <= 1 {
      if id in multiset(packed[..n]) {
        var i :| 0 <= i < n && packed[i] == id;
        var k := FindCard(cards, id);
        assert !cards[k].dealt;
        assert id !in Placed(columns);
        DistinctCount(packed[..n], i);
      }
    }
  }

  /** dealMore keeps the invariant. */
  lemma DealKeepsBoard(g: Game)
    requires |g.columns| == ColumnCount && BoardOk(g.cards, g.columns)
    requires |Deck(g.cards)| == 0 || |Deck(g.cards)| >= PlayColumns
    ensures BoardOk(DealMore(g).cards, DealMore(g).columns)
  {
    var deck := Deck(g.cards);
    var packed := Ids(deck);
    if packed != [] {
      DeckDealable(g.cards, PlayColumns);
      DealRowSides(g.cards, g.columns, packed, PlayColumns);
      DealCardsMeaning(g.cards, packed, PlayColumns);
      DealColumnsPlaced(g.columns, packed, PlayColumns);
      DealtBoard(g.cards, g.columns, packed, PlayColumns,
                 DealCards(g.cards, packed, PlayColumns), DealColumns(g.columns, packed, PlayColumns));
    }
  }

  /**
   * dealMore with at least ten undealt cards: the first ten of them, in card
   * order, go one onto each play column, those cards and no others become
   * dealt and face-up, and one deal record is pushed; with none, nothing
   * changes.
   */
  lemma DealMoreEffect(g: Game)
    requires |g.columns| == ColumnCount && IdsDistinct(g.cards)
    requires |Deck(g.cards)| == 0 || |Deck(g.cards)| >= PlayColumns
    ensures Deck(g.cards) == [] ==> DealMore(g) == g
    ensures var r, deck := DealMore(g), Deck(g.cards);
      deck != [] ==>
        && r.moves == g.moves + [DealMove]
        && r.columns[Tray] == g.columns[Tray]
        && (forall c :: 0 <= c < PlayColumns ==> r.columns[c] == g.columns[c] + [deck[c].id])
        && |r.cards| == |g.cards|
        && forall k :: 0 <= k < |g.cards| ==>
             r.cards[k] == if g.cards[k].id in Ids(deck)[..PlayColumns] then g.cards[k].(dealt := true, turned := true) else g.cards[k]
  {
    var deck := Deck(g.cards);
    var packed := Ids(deck);
    if packed != [] {
      DeckDealable(g.cards, PlayColumns);
      DealRowEffect(g.cards, g.columns, packed);
    }
  }

  /** Dealing a row of distinct undealt ids: each lands on its column and exactly its card becomes dealt and face-up. */
  lemma DealRowEffect(cards: seq<Card>, columns: seq<seq<Id>>, packed: seq<Id>)
    requires |columns| == ColumnCount && PlayColumns <= |packed| && IdsDistinct(cards)
    requires Dealable(cards, packed, PlayColumns)
    ensures var l := DealRow(cards, columns, packed, PlayColumns);
      && l.columns[Tray] == columns[Tray]
      && (forall c :: 0 <= c < PlayColumns ==> l.columns[c] == columns[c] + [packed[c]])
      && |l.cards| == |cards|
      && forall k :: 0 <= k < |cards| ==>
           l.cards[k] == if cards[k].id in packed[..PlayColumns] then cards[k].(dealt := true, turned := true) else cards[k]
  {
    DealRowSides(cards, columns, packed, PlayColumns);
    DealCardsMeaning(cards, packed, PlayColumns);
  }

  /** The first n undealt cards can be dealt. */
  lemma DeckDealable(cards: seq<Card>, n: nat)
    requires IdsDistinct(cards) && n <= |Deck(cards)|
    ensures Dealable(cards, Ids(Deck(cards)), n)
  {
    var deck := Deck(cards);
    DeckIds(cards);
    forall i | 0 <= i < n
      ensures GetCard(cards, Ids(deck)[i]).Some? && !GetCard(cards, Ids(deck)[i]).value.dealt
    {
      assert Ids(deck)[i] == deck[i].id;
      MemberFound(cards, deck[i]);
    }
  }

  /** With distinct ids, a card of the list is what its id looks up. */
  lemma MemberFound(cards: seq<Card>, c: Card)
    requires IdsDistinct(cards) && c in cards
    ensures GetCard(cards, c.id) == Some(c)
  {
    var k :| 0 <= k < |cards| && cards[k] == c;
    assert FindCard(cards, c.id) == k;
  }

  /** A list of distinct ids holds each of them once. */
  lemma {:induction false} DistinctCount(ids: seq<Id>, i: nat)
    requires i < |ids| && forall a, b :: 0 <= a < b < |ids| ==> ids[a] != ids[b]
    ensures multiset(ids)[ids[i]] == 1
  {
    var n := |ids| - 1;
    assert ids == ids[..n] + [ids[n]];
    if i < n {
      DistinctCount(ids[..n], i);
    } else {
      assert ids[n] !in ids[..n];
    }
  }
}
