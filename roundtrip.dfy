/**
 * Undo after a deal or a fresh move gives the state back: reverseMove replays
 * the top record the other way round (a deal record is taken back by
 * undo(true)).
 */
module RoundTrip {
  import opened Seqs
  import opened Types
  import opened Board
  import opened Engine
  import opened MoveFacts
  import opened Invariant

  /** The cards side of taking back a row: the card of packed[c] marked undealt and face-down, for c in 0 .. n-1. */
  function Undealt(cards: seq<Card>, packed: seq<Id>, n: nat): (r: seq<Card>)
    requires n <= |packed|
  {
    if n == 0 then cards else MarkDealt(Undealt(cards, packed, n - 1), packed[n - 1], false)
  }

  /** When the top id of column c is packed[c], taking back the row marks exactly those cards. */
  lemma {:induction false} TakeBackSides(cards: seq<Card>, columns: seq<seq<Id>>, packed: seq<Id>, n: nat)
    requires n <= |columns| && n <= |packed|
    requires forall c :: 0 <= c < n ==> columns[c] != [] && columns[c][|columns[c]| - 1] == packed[c]
    ensures TakeBackRow(cards, columns, n).cards == Undealt(cards, packed, n)
  {
    if n > 0 {
      TakeBackSides(cards, columns, packed, n - 1);
      var prev := TakeBackRow(cards, columns, n - 1);
      var col := prev.columns[n - 1];
      assert col == columns[n - 1];
      assert col != [] && col[|col| - 1] == packed[n - 1];
      assert TakeBackRow(cards, columns, n).cards == MarkDealt(prev.cards, packed[n - 1], false);
    }
  }

  /** The cards after the ids packed[..n] have been marked undealt and face-down. */
  lemma {:induction false} UndealtMeaning(cards: seq<Card>, packed: seq<Id>, n: nat)
    requires n <= |packed| && IdsDistinct(cards)
    requires forall i :: 0 <= i < n ==> GetCard(cards, packed[i]).Some?
    ensures var r := Undealt(cards, packed, n);
      && SameIds(cards, r)
      && forall k :: 0 <= k < |cards| ==>
           r[k] == if cards[k].id in packed[..n] then cards[k].(dealt := false, turned := false) else cards[k]
  {
    if n > 0 {
      UndealtMeaning(cards, packed, n - 1);
      var prev := Undealt(cards, packed, n - 1);
      var id := packed[n - 1];
      GetCardSameIds(cards, prev, id);
      var j := FindCard(cards, id);
      forall k | 0 <= k < |cards|
        ensures cards[k].id in packed[..n] <==> cards[k].id in packed[..n - 1] || cards[k].id == id
        ensures k != j ==> cards[k].id != id
      {
        PrefixHas(packed, n, cards[k].id);
      }
    }
  }

  /** Taking back a dealt row restores the cards and the columns. */
  lemma DealRowThenTakeBack(cards: seq<Card>, columns: seq<seq<Id>>, packed: seq<Id>)
    requires |columns| == ColumnCount && PlayColumns <= |packed| && IdsDistinct(cards)
    requires Dealable(cards, packed, PlayColumns)
    requires forall i :: 0 <= i < PlayColumns ==> !GetCard(cards, packed[i]).value.turned
    ensures var l := DealRow(cards, columns, packed, PlayColumns);
      TakeBackRow(l.cards, l.columns, PlayColumns) == Layout(cards, columns)
  {
    var l := DealRow(cards, columns, packed, PlayColumns);
    var t := TakeBackRow(l.cards, l.columns, PlayColumns);
    TakeBackColumns(cards, columns, packed);
    TakeBackCards(cards, columns, packed);
    assert t == Layout(t.cards, t.columns);
  }

  /** Taking back a dealt row restores the columns. */
  lemma TakeBackColumns(cards: seq<Card>, columns: seq<seq<Id>>, packed: seq<Id>)
    requires |columns| == ColumnCount && PlayColumns <= |packed|
    ensures var l := DealRow(cards, columns, packed, PlayColumns);
      TakeBackRow(l.cards, l.columns, PlayColumns).columns == columns
  {
    var l := DealRow(cards, columns, packed, PlayColumns);
    var t := TakeBackRow(l.cards, l.columns, PlayColumns);
    forall c | 0 <= c < |columns| ensures t.columns[c] == columns[c] {
      if c < PlayColumns {
        SnocDropLast(columns[c], packed[c]);
      }
    }
  }

  /** Taking back a dealt row of face-down undealt cards restores the cards. */
  lemma TakeBackCards(cards: seq<Card>, columns: seq<seq<Id>>, packed: seq<Id>)
    requires |columns| == ColumnCount && PlayColumns <= |packed| && IdsDistinct(cards)
    requires Dealable(cards, packed, PlayColumns)
    requires forall i :: 0 <= i < PlayColumns ==> !GetCard(cards, packed[i]).value.turned
    ensures var l := DealRow(cards, columns, packed, PlayColumns);
      TakeBackRow(l.cards, l.columns, PlayColumns).cards == cards
  {
    var n := PlayColumns;
    var l := DealRow(cards, columns, packed, n);
    DealRowSides(cards, columns, packed, n);
    var mid := DealCards(cards, packed, n);
    DealCardsMeaning(cards, packed, n);
    forall i | 0 <= i < n ensures GetCard(mid, packed[i]).Some? {
      GetCardSameIds(cards, mid, packed[i]);
    }
    TakeBackFormula(mid, l.columns, packed, n);
    DealThenUndeal(cards, mid, TakeBackRow(mid, l.columns, n).cards, packed, n);
  }

  /** Taking back a row whose tops are packed[..n] marks exactly those cards undealt and face-down. */
  lemma TakeBackFormula(cards: seq<Card>, columns: seq<seq<Id>>, packed: seq<Id>, n: nat)
    requires n <= |columns| && n <= |packed| && IdsDistinct(cards)
    requires forall i :: 0 <= i < n ==> GetCard(cards, packed[i]).Some?
    requires forall c :: 0 <= c < n ==> columns[c] != [] && columns[c][|columns[c]| - 1] == packed[c]
    ensures var r := TakeBackRow(cards, columns, n).cards;
      forall k :: 0 <= k < |cards| ==>
        r[k] == if cards[k].id in packed[..n] then cards[k].(dealt := false, turned := false) else cards[k]
  {
    TakeBackSides(cards, columns, packed, n);
    UndealtMeaning(cards, packed, n);
  }

  /** Marking distinct face-down undealt cards dealt and then undealt gives the cards back. */
  lemma DealThenUndeal(cards: seq<Card>, mid: seq<Card>, back: seq<Card>, packed: seq<Id>, n: nat)
    requires n <= |packed| && |mid| == |cards| && |back| == |cards| && IdsDistinct(cards)
    requires forall i :: 0 <= i < n ==> GetCard(cards, packed[i]).Some?
    requires forall i :: 0 <= i < n ==> !GetCard(cards, packed[i]).value.dealt
    requires forall i :: 0 <= i < n ==> !GetCard(cards, packed[i]).value.turned
    requires forall k :: 0 <= k < |cards| ==>
      mid[k] == if cards[k].id in packed[..n] then cards[k].(dealt := true, turned := true) else cards[k]
    requires forall k :: 0 <= k < |cards| ==>
      back[k] == if mid[k].id in packed[..n] then mid[k].(dealt := false, turned := false) else mid[k]
    ensures back == cards
  {
    forall k | 0 <= k < |cards| ensures back[k] == cards[k] {
      if cards[k].id in packed[..n] {
        var i :| 0 <= i < n && packed[i] == cards[k].id;
        assert FindCard(cards, packed[i]) == k;
      }
    }
  }

  /** A deal followed by reverseMove: the dealt cards return to the stock, and the state is as before. */
  lemma DealThenUndo(g: Game)
    requires WellFormed(g) && BoardOk(g.cards, g.columns)
    requires |Deck(g.cards)| >= PlayColumns
    ensures ReverseMove(DealMore(g)) == g
  {
    var packed := Ids(Deck(g.cards));
    DeckDealable(g.cards, PlayColumns);
    forall i | 0 <= i < PlayColumns ensures !GetCard(g.cards, packed[i]).value.turned {
      var k := FindCard(g.cards, packed[i]);
      assert !g.cards[k].dealt;
    }
    DealRowThenTakeBack(g.cards, g.columns, packed);
    var l := DealRow(g.cards, g.columns, packed, PlayColumns);
    assert packed != [];
    var d := g.(cards := l.cards, columns := l.columns, moves := g.moves + [DealMove]);
    assert DealMore(g) == d;
    UndoDealRecord(g, l);
  }

  /** reverseMove on a deal record on top is undo(true): the row is taken back and the record popped. */
  lemma UndoDealRecord(g: Game, l: Layout)
    requires WellFormed(g) && |l.columns| == ColumnCount
    requires TakeBackRow(l.cards, l.columns, PlayColumns) == Layout(g.cards, g.columns)
    ensures var d := g.(cards := l.cards, columns := l.columns, moves := g.moves + [DealMove]);
      WellFormed(d) && ReverseMove(d) == g
  {
    var d := g.(cards := l.cards, columns := l.columns, moves := g.moves + [DealMove]);
    assert WellFormed(d) by {
      assert MovesOk(g.moves + [DealMove]);
    }
    assert ReverseMove(d) == Undo(d, true);
    SnocDropLast(g.moves, DealMove);
  }

  // ---------------------------------------------------------------------------
  // moveCard then reverseMove

  /** A suffix taken from within a column's run is still a run on top of any other column. */
  lemma RunOfLanded(cards: seq<Card>, a: seq<Id>, b: seq<Id>, k: nat)
    requires k < |b| && |b| - k <= RunLength(cards, b)
    ensures |b| - k <= RunLength(cards, a + b[k..])
  {
    var s := a + b[k..];
    RunLengthMeaning(cards, b);
    assert s[|s| - 1] == b[|b| - 1];
    forall j | |s| - (|b| - k) < j < |s| ensures LinkedAt(cards, s, j) {
      var i := j - |a| + k;
      assert s[j] == b[i] && s[j - 1] == b[i - 1];
      assert LinkedAt(cards, b, i);
    }
    RunLengthAtLeast(cards, s, |b| - k);
  }

  /** The ranking context moveCard takes back on undo: that of the record below the top, or the default. */
  function ContextBelow(moves: seq<Move>): MoveContext
  {
    if moves == [] then DefaultMoveContext else ContextOf(moves[|moves| - 1])
  }

  /** The fresh moves that reverseMove takes back exactly. */
  predicate Reversible(g: Game, m: Move)
    requires WellFormed(g) && MoveArgsOk(g, m, false)
  {
    var from := CardColumnIndex(g.columns, m.uuid);
    && 0 <= from < PlayColumns && m.from == from && m.to < PlayColumns && m.to != from
    && m.turned.None?
    && Allowed(g, m)
    && FaceDownExposed(g, m.to, |g.columns[m.to]|).None?
    && RunLength(g.cards, g.columns[from]) != RunSize
    && RunLength(Carried(g, m).cards, Carried(g, m).columns[m.to]) != RunSize
  }

  /** Turning a face-down card up and then down again gives back the cards. */
  lemma TurnBack(cards: seq<Card>, id: Id)
    requires GetCard(cards, id).Some? && !GetCard(cards, id).value.turned
    ensures MarkTurned(MarkTurned(cards, id, true), id, false) == cards
  {
    var k := FindCard(cards, id);
    var up := MarkTurned(cards, id, true);
    assert SameIds(cards, up);
    GetCardSameIds(cards, up, id);
    assert up[k := up[k].(turned := false)] == cards;
  }

  /**
   * reverseMove on a state whose top record m put `suffix` on top of `below` in
   * column m.to: the card the record noted is turned face-down again (giving
   * cards0), the suffix goes back onto column m.from and the record is popped,
   * the ranking context taken from the record below.
   */
  lemma ReverseLanded(c: Game, m: Move, below: seq<Id>, suffix: seq<Id>, cards0: seq<Card>)
    requires WellFormed(c) && c.moves != [] && c.moves[|c.moves| - 1] == m && !m.isDeal
    requires 0 <= m.from < PlayColumns && 0 <= m.to < PlayColumns && m.from != m.to
    requires cards0 == if m.turned.Some? then MarkTurned(c.cards, m.turned.value, false) else c.cards
    requires c.columns[m.to] == below + suffix && suffix != []
    requires CardColumnIndex(c.columns, m.uuid) == m.to && IndexOfId(c.columns[m.to], m.uuid) == |below|
    requires |suffix| <= RunLength(cards0, below + suffix)
    requires FaceDownExposed(c.(cards := cards0), m.to, |below|).None?
    requires RunLength(cards0, c.columns[m.from] + suffix) != RunSize
    ensures var ctx := ContextBelow(c.moves[..|c.moves| - 1]);
      ReverseMove(c) == c.(cards := cards0, columns := c.columns[m.to := below][m.from := c.columns[m.from] + suffix],
                           moves := c.moves[..|c.moves| - 1],
                           vacancies := ctx.vacancies, vacancyIndex := ctx.vacancyIndex, lastMoved := ctx.lastMoved)
  {
    var s := Swapped(m);
    assert ReverseMove(c) == MoveCard(c, s, true);
    var r1 := Rollback(c);
    RollbackLanded(c, m, cards0);
    assert MoveCard(c, s, true) == Relocate(c, r1, s, true);
    RelocateLanded(c, r1, m, below, suffix);
    LandBack(c, r1.(columns := r1.columns[m.to := below]), m, suffix);
  }

  /** Rolling back the top record m turns the card it noted face-down again and restores the context below. */
  lemma RollbackLanded(c: Game, m: Move, cards0: seq<Card>)
    requires WellFormed(c) && c.moves != [] && c.moves[|c.moves| - 1] == m
    requires cards0 == if m.turned.Some? then MarkTurned(c.cards, m.turned.value, false) else c.cards
    ensures var ctx := ContextBelow(c.moves[..|c.moves| - 1]);
      Rollback(c) == c.(cards := cards0, moves := c.moves[..|c.moves| - 1],
                        vacancies := ctx.vacancies, vacancyIndex := ctx.vacancyIndex, lastMoved := ctx.lastMoved)
  {
  }

  /** After the rollback, the swapped record lifts the suffix it put onto column m.to. */
  lemma RelocateLanded(c: Game, r1: Game, m: Move, below: seq<Id>, suffix: seq<Id>)
    requires WellFormed(c) && c.moves != [] && !m.isDeal
    requires 0 <= m.from < PlayColumns && 0 <= m.to < PlayColumns
    requires r1 == Rollback(c)
    requires c.columns[m.to] == below + suffix && suffix != []
    requires CardColumnIndex(c.columns, m.uuid) == m.to && IndexOfId(c.columns[m.to], m.uuid) == |below|
    requires |suffix| <= RunLength(r1.cards, below + suffix)
    requires FaceDownExposed(r1, m.to, |below|).None?
    ensures WellFormed(r1.(columns := r1.columns[m.to := below]))
    ensures Relocate(c, r1, Swapped(m), true) == Land(c, r1.(columns := r1.columns[m.to := below]), Swapped(m), true, suffix)
  {
    var s := Swapped(m);
    var col := below + suffix;
    assert col[..|below|] == below;
    assert col[|below|..] == suffix;
    assert Lift(r1, m.to, |below|) == r1.(columns := r1.columns[m.to := below]);
  }

  /** The suffix lands on column m.from; its run is not complete there, so nothing follows. */
  lemma LandBack(c: Game, g2: Game, m: Move, suffix: seq<Id>)
    requires WellFormed(c) && WellFormed(g2) && !m.isDeal
    requires 0 <= m.from < PlayColumns && (g2.moves == [] || |g2.moves| < |c.moves|)
    requires RunLength(g2.cards, g2.columns[m.from] + suffix) != RunSize
    ensures Land(c, g2, Swapped(m), true, suffix) == g2.(columns := g2.columns[m.from := g2.columns[m.from] + suffix])
  {
  }

  /**
   * A fresh move of a run onto another play column, followed by reverseMove,
   * gives back the board and the record stack, a card the move turned up
   * being turned face-down again; the ranking context becomes the one of the
   * record below (or the default one).
   */
  lemma MoveThenUndo(g: Game, m: Move)
    requires WellFormed(g) && BoardOk(g.cards, g.columns) && MoveArgsOk(g, m, false)
    requires !m.isDeal && Reversible(g, m)
    ensures WellFormed(MoveCard(g, m, false))
    ensures var ctx := ContextBelow(g.moves);
      ReverseMove(MoveCard(g, m, false))
      == g.(vacancies := ctx.vacancies, vacancyIndex := ctx.vacancyIndex, lastMoved := ctx.lastMoved)
  {
    var cardIndex := IndexOfId(g.columns[m.from], m.uuid);
    MoveAllowed(g, m);
    CarriedKeepsBoard(g, m);
    var exposed := Exposed(g, m);
    var flip := if exposed.Some? then Some(exposed.value.id) else None;
    UndoRelocation(g, m, cardIndex, Carried(g, m), flip);
  }

  /**
   * reverseMove after the suffix of column m.from from cardIndex was moved
   * onto column m.to, and the card flip (if any) uncovered was turned up and
   * noted in the record.
   */
  lemma UndoRelocation(g: Game, m: Move, cardIndex: nat, c: Game, flip: Option<Id>)
    requires WellFormed(g) && !m.isDeal && m.turned.None?
    requires 0 <= m.from < PlayColumns && 0 <= m.to < PlayColumns && m.from != m.to
    requires cardIndex < |g.columns[m.from]| && g.columns[m.from][cardIndex] == m.uuid
    requires |g.columns[m.from]| - cardIndex <= RunLength(g.cards, g.columns[m.from])
    requires FaceDownExposed(g, m.to, |g.columns[m.to]|).None?
    requires RunLength(g.cards, g.columns[m.from]) != RunSize
    requires flip.Some? ==> GetCard(g.cards, flip.value).Some? && !GetCard(g.cards, flip.value).value.turned
    requires c == g.(columns := Relocated(g.columns, m.from, cardIndex, m.to),
                     cards := if flip.Some? then MarkTurned(g.cards, flip.value, true) else g.cards,
                     moves := g.moves + [m.(turned := flip)])
    requires WellFormed(c) && BoardOk(c.cards, c.columns)
    ensures var ctx := ContextBelow(g.moves);
      ReverseMove(c) == g.(vacancies := ctx.vacancies, vacancyIndex := ctx.vacancyIndex, lastMoved := ctx.lastMoved)
  {
    var below := g.columns[m.to];
    var suffix := g.columns[m.from][cardIndex..];
    if flip.Some? {
      TurnBack(g.cards, flip.value);
    }
    LandedShape(g.columns, m.from, cardIndex, m.to);
    PlacedOnce(c.cards, c.columns, m.to, |below|);
    RunOfLanded(g.cards, below, g.columns[m.from], cardIndex);
    assert c.moves[..|c.moves| - 1] == g.moves;
    ReverseLanded(c, m.(turned := flip), below, suffix, g.cards);
    RelocatedBack(g.columns, m.from, cardIndex, m.to);
  }

  /** The two columns a relocation touches, as a prefix and a suffix. */
  lemma LandedShape(columns: seq<seq<Id>>, index: nat, cardIndex: nat, to: nat)
    requires index < |columns| && to < |columns| && index != to && cardIndex < |columns[index]|
    ensures var r, below, suffix := Relocated(columns, index, cardIndex, to), columns[to], columns[index][cardIndex..];
      && r[to] == below + suffix && r[index] == columns[index][..cardIndex]
      && r[to][|below|] == columns[index][cardIndex]
      && (below + suffix)[..|below|] == below
      && r[index] + suffix == columns[index]
  {
    var r, below, suffix := Relocated(columns, index, cardIndex, to), columns[to], columns[index][cardIndex..];
    assert (below + suffix)[..|below|] == below;
    assert columns[index][..cardIndex] + suffix == columns[index];
  }

  /** Moving the suffix back where it came from restores the columns. */
  lemma RelocatedBack(columns: seq<seq<Id>>, index: nat, cardIndex: nat, to: nat)
    requires index < |columns| && to < |columns| && index != to && cardIndex <= |columns[index]|
    ensures var r := Relocated(columns, index, cardIndex, to);
      r[to := columns[to]][index := r[index] + columns[index][cardIndex..]] == columns
  {
    var r := Relocated(columns, index, cardIndex, to);
    assert r[index] + columns[index][cardIndex..] == columns[index];
  }
}
