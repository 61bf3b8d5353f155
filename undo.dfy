/**
 * The board invariant (Board.BoardOk) under the undo path of moveCard: undoing
 * a deal or a move keeps it, except where the store throws after a splice (a
 * move back that uncovers a face-down card once the stack is empty), which
 * leaves the spliced ids in no column.
 */
module UndoFacts {
  import opened Types
  import opened Board
  import opened Engine
  import opened MoveFacts
  import opened Invariant
  import OpeningFacts

  /** Changing only turned flags, with every undealt card left face-down, keeps the invariant. */
  lemma FlagsKeepBoard(cards: seq<Card>, r: seq<Card>, columns: seq<seq<Id>>)
    requires BoardOk(cards, columns) && |r| == |cards|
    requires forall k :: 0 <= k < |r| ==> r[k].id == cards[k].id && r[k].dealt == cards[k].dealt
    requires forall k :: 0 <= k < |r| ==> !r[k].dealt ==> !r[k].turned
    ensures BoardOk(r, columns)
  {
    assert SameIds(cards, r);
    forall id ensures GetCard(cards, id).Some? <==> GetCard(r, id).Some? {
      GetCardSameIds(cards, r, id);
    }
  }

  /** Turning any card face-down keeps the invariant. */
  lemma TurnDownKeepsBoard(cards: seq<Card>, columns: seq<seq<Id>>, id: Id)
    requires BoardOk(cards, columns)
    ensures BoardOk(MarkTurned(cards, id, false), columns)
  {
    var r := MarkTurned(cards, id, false);
    if GetCard(cards, id).Some? {
      var j := FindCard(cards, id);
      assert r == cards[j := cards[j].(turned := false)];
      FlagsKeepBoard(cards, r, columns);
    }
  }

  /** Taking the top id off a column removes exactly one copy of it from the placed ids. */
  lemma TopOffPlaced(columns: seq<seq<Id>>, c: nat)
    requires c < |columns| && columns[c] != []
    ensures var col := columns[c]; var x := col[|col| - 1];
      && x in Placed(columns)
      && Placed(columns[c := col[..|col| - 1]]) == Placed(columns) - multiset{x}
  {
    var col := columns[c];
    var n := |col| - 1;
    PlacedUpdate(columns, c, col[..n]);
    PlacedHas(columns, c);
    assert col == col[..n] + [col[n]];
    TakeLast(Placed(columns), multiset(col[..n]), col[n]);
  }

  /** Taking rest + {x} out of p and putting rest back takes out x alone. */
  lemma TakeLast(p: multiset<Id>, rest: multiset<Id>, x: Id)
    requires rest + multiset{x} <= p
    ensures x in p && p - (rest + multiset{x}) + rest == p - multiset{x}
  {
    forall y ensures (p - (rest + multiset{x}) + rest)[y] == (p - multiset{x})[y] {
    }
  }

  /** The flags once card j, of id x, is undealt and face-down, and one copy of x leaves the placed ids. */
  lemma UndealFlags(cards: seq<Card>, j: nat, before: multiset<Id>, after: multiset<Id>)
    requires IdsDistinct(cards) && j < |cards|
    requires forall k :: 0 <= k < |cards| ==> (cards[k].dealt <==> cards[k].id in before)
    requires forall k :: 0 <= k < |cards| ==> !cards[k].dealt ==> !cards[k].turned
    requires before[cards[j].id] <= 1 && after == before - multiset{cards[j].id}
    ensures var r := cards[j := cards[j].(dealt := false, turned := false)];
      && (forall k :: 0 <= k < |r| ==> (r[k].dealt <==> r[k].id in after))
      && (forall k :: 0 <= k < |r| ==> !r[k].dealt ==> !r[k].turned)
  {
    var r := cards[j := cards[j].(dealt := false, turned := false)];
    forall k | 0 <= k < |r| ensures r[k].dealt <==> r[k].id in after {
      if k != j {
        assert cards[k].id != cards[j].id;
      }
    }
  }

  /** The invariant on fewer placed ids, for cards with the same ids whose flags agree with them. */
  lemma RebuildBoard(cards: seq<Card>, r: seq<Card>, columns: seq<seq<Id>>, after: seq<seq<Id>>)
    requires BoardOk(cards, columns) && SameIds(cards, r) && |after| == |columns|
    requires Placed(after) <= Placed(columns)
    requires forall k :: 0 <= k < |r| ==> (r[k].dealt <==> r[k].id in Placed(after))
    requires forall k :: 0 <= k < |r| ==> !r[k].dealt ==> !r[k].turned
    ensures BoardOk(r, after)
  {
    forall id ensures GetCard(cards, id).Some? <==> GetCard(r, id).Some? {
      GetCardSameIds(cards, r, id);
    }
    forall id ensures Placed(after)[id] <= 1 {
      assert Placed(after)[id] <= Placed(columns)[id];
    }
  }

  /** Undealing the card of a placed id that leaves the columns keeps the invariant. */
  lemma UndealKeepsBoard(cards: seq<Card>, columns: seq<seq<Id>>, after: seq<seq<Id>>, x: Id)
    requires BoardOk(cards, columns) && |after| == |columns|
    requires x in Placed(columns) && Placed(after) == Placed(columns) - multiset{x}
    ensures BoardOk(MarkDealt(cards, x, false), after)
  {
    var r := MarkDealt(cards, x, false);
    var j := FindCard(cards, x);
    assert r == cards[j := cards[j].(dealt := false, turned := false)];
    UndealFlags(cards, j, Placed(columns), Placed(after));
    RebuildBoard(cards, r, columns, after);
  }

  /** Taking the top id off a column, its card undealt and face-down, keeps the invariant. */
  lemma TakeOffKeepsBoard(cards: seq<Card>, columns: seq<seq<Id>>, c: nat)
    requires BoardOk(cards, columns) && c < |columns| && columns[c] != []
    ensures var col := columns[c];
      BoardOk(MarkDealt(cards, col[|col| - 1], false), columns[c := col[..|col| - 1]])
  {
    var col := columns[c];
    TopOffPlaced(columns, c);
    UndealKeepsBoard(cards, columns, columns[c := col[..|col| - 1]], col[|col| - 1]);
  }

  /** Every column giving back its top id, as the undo of a deal does column by column, keeps the invariant. */
  lemma {:induction false} TakeBackKeepsBoard(cards: seq<Card>, columns: seq<seq<Id>>, n: nat)
    requires BoardOk(cards, columns) && n <= |columns|
    ensures BoardOk(TakeBackRow(cards, columns, n).cards, TakeBackRow(cards, columns, n).columns)
  {
    if n > 0 {
      TakeBackKeepsBoard(cards, columns, n - 1);
      var prev := TakeBackRow(cards, columns, n - 1);
      if prev.columns[n - 1] != [] {
        TakeOffKeepsBoard(prev.cards, prev.columns, n - 1);
      }
    }
  }

  /** Popping the top record and turning its noted card face-down keeps the invariant. */
  lemma RollbackKeepsBoard(g: Game)
    requires WellFormed(g) && BoardOk(g.cards, g.columns)
    ensures BoardOk(Rollback(g).cards, Rollback(g).columns)
  {
    var top := Top(g.moves);
    if top.Some? && top.value.turned.Some? {
      TurnDownKeepsBoard(g.cards, g.columns, top.value.turned.value);
    }
  }

  /**
   * Cutting a column short before one of its ids, with the card flags other
   * than turned as they were, breaks the invariant: that id's card is dealt
   * but in no column.
   */
  lemma SpliceBreaksBoard(cards: seq<Card>, cards': seq<Card>, columns: seq<seq<Id>>, index: nat, cardIndex: nat)
    requires BoardOk(cards, columns) && index < |columns| && cardIndex < |columns[index]|
    requires |cards'| == |cards|
    requires forall k :: 0 <= k < |cards| ==> cards'[k].id == cards[k].id && cards'[k].dealt == cards[k].dealt
    ensures !BoardOk(cards', columns[index := columns[index][..cardIndex]])
  {
    var col := columns[index];
    var id := col[cardIndex];
    var after := columns[index := col[..cardIndex]];
    PlacedOnce(cards, columns, index, cardIndex);
    PlacedUpdate(columns, index, col[..cardIndex]);
    PlacedHas(columns, index);
    assert id !in col[..cardIndex];
    assert id in multiset(col);
    assert id !in Placed(after);
    var k := FindCard(cards, id);
    assert cards'[k].id == id && cards'[k].dealt;
  }

  /**
   * The undo of m ends in the store's throw after a splice: the move back
   * uncovers a face-down card once the stack is empty, directly or in the undo
   * a completed run sets off.
   */
  predicate DropsRun(g: Game, m: Move)
    requires WellFormed(g) && MoveArgsOk(g, m, true)
    decreases |g.moves|, 1
  {
    !m.isDeal && RelocateDrops(g, Rollback(g), m)
  }

  /** The same, for the undo of m once its record is rolled back (g0 before, g1 after the rollback). */
  predicate RelocateDrops(g0: Game, g1: Game, m: Move)
    requires WellFormed(g0) && MoveArgsOk(g0, m, true) && !m.isDeal
    requires WellFormed(g1) && (g1.moves == [] || |g1.moves| < |g0.moves|)
    decreases |g0.moves|, 0
  {
    && Moves(g1, m)
    && (SpliceFails(g1, m) || (Chains(Landed(g1, m), m) && DropsRun(Landed(g1, m), Below(Landed(g1, m)))))
  }

  /** Whether the undo of m, after the rollback, moves the suffix at all (the card is in a column and the move is not refused). */
  predicate Moves(g1: Game, m: Move)
    requires |g1.columns| == ColumnCount
  {
    var index := CardColumnIndex(g1.columns, m.uuid);
    index >= 0 &&
      var col := g1.columns[index];
      !(index != Tray && |col| - IndexOfId(col, m.uuid) > RunLength(g1.cards, col))
  }

  /** The ids that move: the card's column from the card on. */
  function Suffix(g1: Game, m: Move): seq<Id>
    requires |g1.columns| == ColumnCount && Moves(g1, m)
  {
    var col := g1.columns[CardColumnIndex(g1.columns, m.uuid)];
    col[IndexOfId(col, m.uuid)..]
  }

  /** The splice throws: it uncovers a face-down card and the stack is empty. */
  predicate SpliceFails(g1: Game, m: Move)
    requires |g1.columns| == ColumnCount && Moves(g1, m)
  {
    var index := CardColumnIndex(g1.columns, m.uuid);
    LiftFails(g1, index, IndexOfId(g1.columns[index], m.uuid))
  }

  /** The state after the splice. */
  function Lifted(g1: Game, m: Move): (g2: Game)
    requires WellFormed(g1) && Moves(g1, m)
    ensures WellFormed(g2) && |g2.moves| == |g1.moves|
  {
    var index := CardColumnIndex(g1.columns, m.uuid);
    Lift(g1, index, IndexOfId(g1.columns[index], m.uuid))
  }

  /** The state after the splice and the landing, before the callback. */
  function Landed(g1: Game, m: Move): (g3: Game)
    requires WellFormed(g1) && 0 <= m.to < ColumnCount && Moves(g1, m)
    ensures WellFormed(g3) && |g3.moves| == |g1.moves|
  {
    var g2 := Lifted(g1, m);
    g2.(columns := g2.columns[m.to := g2.columns[m.to] + Suffix(g1, m)])
  }

  /** Whether the landing completes a run that sets off the undo of the record below. */
  predicate Chains(g3: Game, m: Move)
    requires |g3.columns| == ColumnCount && 0 <= m.to < ColumnCount
  {
    m.to < Tray && RunLength(g3.cards, g3.columns[m.to]) == RunSize && g3.moves != []
  }

  /** The undo that reverseMove replays for the top record. */
  function Below(g: Game): (m: Move)
    requires WellFormed(g) && g.moves != []
    ensures MoveArgsOk(g, m, true)
  {
    Swapped(g.moves[|g.moves| - 1])
  }

  /** The splice and the landing keep the invariant. */
  lemma LandedKeepsBoard(g1: Game, m: Move)
    requires WellFormed(g1) && 0 <= m.to < ColumnCount && Moves(g1, m)
    requires BoardOk(g1.cards, g1.columns)
    ensures BoardOk(Landed(g1, m).cards, Landed(g1, m).columns)
  {
    var index := CardColumnIndex(g1.columns, m.uuid);
    var cardIndex := IndexOfId(g1.columns[index], m.uuid);
    var exposed := FaceDownExposed(g1, index, cardIndex);
    ShiftKeepsBoard(g1.cards, g1.columns, index, cardIndex, m.to, exposed);
    assert Landed(g1, m).columns == Relocated(g1.columns, index, cardIndex, m.to);
    assert Landed(g1, m).cards == if exposed.Some? then MarkTurned(g1.cards, exposed.value.id, true) else g1.cards;
  }

  /** The splice alone, of a suffix holding at least the card, breaks the invariant. */
  lemma LiftedBreaksBoard(g1: Game, m: Move)
    requires WellFormed(g1) && Moves(g1, m)
    requires BoardOk(g1.cards, g1.columns)
    ensures !BoardOk(Lifted(g1, m).cards, Lifted(g1, m).columns)
  {
    var index := CardColumnIndex(g1.columns, m.uuid);
    SpliceBreaksBoard(g1.cards, Lifted(g1, m).cards, g1.columns, index, IndexOfId(g1.columns[index], m.uuid));
  }

  /** An undo keeps the invariant exactly when it does not end in the throw after a splice. */
  lemma {:induction false} UndoKeepsBoard(g: Game, m: Move)
    requires WellFormed(g) && MoveArgsOk(g, m, true) && BoardOk(g.cards, g.columns)
    ensures BoardOk(MoveCard(g, m, true).cards, MoveCard(g, m, true).columns) <==> !DropsRun(g, m)
    decreases |g.moves|, 1
  {
    if m.isDeal {
      TakeBackKeepsBoard(g.cards, g.columns, PlayColumns);
    } else {
      RollbackKeepsBoard(g);
      RelocateBackKeepsBoard(g, Rollback(g), m);
    }
  }

  /** The undo of m after its rollback, when it moves nothing: only the history and the highlight change. */
  lemma RelocateBackIdle(g0: Game, g1: Game, m: Move)
    requires WellFormed(g0) && MoveArgsOk(g0, m, true) && !m.isDeal
    requires WellFormed(g1) && (g1.moves == [] || |g1.moves| < |g0.moves|)
    requires !Moves(g1, m)
    ensures Relocate(g0, g1, m, true).cards == g1.cards && Relocate(g0, g1, m, true).columns == g1.columns
  {
  }

  /** The undo of m after its rollback, when it moves the suffix: the splice, then the landing unless the splice throws. */
  lemma RelocateBackSplices(g0: Game, g1: Game, m: Move)
    requires WellFormed(g0) && MoveArgsOk(g0, m, true) && !m.isDeal
    requires WellFormed(g1) && (g1.moves == [] || |g1.moves| < |g0.moves|)
    requires Moves(g1, m)
    ensures Relocate(g0, g1, m, true) ==
      if SpliceFails(g1, m) then Lifted(g1, m) else Land(g0, Lifted(g1, m), m, true, Suffix(g1, m))
  {
    assert Relocate(g0, g1, m, true) == Shift(g0, g1, m, true, CardColumnIndex(g1.columns, m.uuid));
  }

  /** The landing of the undo: the landed state, or, when a run completes, the undo of the record below. */
  lemma LandBack(g0: Game, g1: Game, m: Move)
    requires WellFormed(g0) && MoveArgsOk(g0, m, true) && !m.isDeal
    requires WellFormed(g1) && (g1.moves == [] || |g1.moves| < |g0.moves|)
    requires Moves(g1, m) && !SpliceFails(g1, m)
    ensures Chains(Landed(g1, m), m) ==> |Landed(g1, m).moves| < |g0.moves|
    ensures Land(g0, Lifted(g1, m), m, true, Suffix(g1, m)) ==
      if Chains(Landed(g1, m), m) then MoveCard(Landed(g1, m), Below(Landed(g1, m)), true) else Landed(g1, m)
  {
    var g3 := Landed(g1, m);
    if Chains(g3, m) {
      assert Land(g0, Lifted(g1, m), m, true, Suffix(g1, m)) == Complete(g0, g3, m, true);
    }
  }

  /** The same, once the record is rolled back. */
  lemma {:induction false} RelocateBackKeepsBoard(g0: Game, g1: Game, m: Move)
    requires WellFormed(g0) && MoveArgsOk(g0, m, true) && !m.isDeal
    requires WellFormed(g1) && (g1.moves == [] || |g1.moves| < |g0.moves|)
    requires BoardOk(g1.cards, g1.columns)
    ensures BoardOk(Relocate(g0, g1, m, true).cards, Relocate(g0, g1, m, true).columns) <==> !RelocateDrops(g0, g1, m)
    decreases |g0.moves|, 0
  {
    if !Moves(g1, m) {
      RelocateBackIdle(g0, g1, m);
    } else {
      RelocateBackSplices(g0, g1, m);
      if SpliceFails(g1, m) {
        LiftedBreaksBoard(g1, m);
      } else {
        LandBack(g0, g1, m);
        LandedKeepsBoard(g1, m);
        var g3 := Landed(g1, m);
        if Chains(g3, m) {
          UndoKeepsBoard(g3, Below(g3));
        }
      }
    }
  }

  /** reverseMove keeps the invariant exactly when its undo does not end in the throw after a splice. */
  lemma ReverseMoveKeepsBoard(g: Game)
    requires WellFormed(g) && BoardOk(g.cards, g.columns)
    ensures BoardOk(ReverseMove(g).cards, ReverseMove(g).columns) <==> g.moves == [] || !DropsRun(g, Below(g))
  {
    if g.moves != [] {
      UndoKeepsBoard(g, Below(g));
    }
  }

  /**
   * A valid board on which reverseMove drops a run: card 2 lies on the
   * face-down card 1 in column 0, and the only record says it came from
   * column 1.
   */
  function DropBoard(): (g: Game)
    ensures WellFormed(g) && g.moves != []
  {
    Fresh().(cards := [Card(1, 0, Spades, true, false), Card(2, 1, Spades, true, true)],
             columns := Fresh().columns[0 := [1, 2]],
             moves := [Move(1, 0, 2, None, [], 0, NoId, None, false)])
  }

  /** The board of DropBoard is valid. */
  lemma DropBoardValid()
    ensures BoardOk(DropBoard().cards, DropBoard().columns)
  {
    var g := DropBoard();
    OpeningFacts.PlacedEmpty(Fresh().columns);
    PlacedUpdate(Fresh().columns, 0, [1, 2]);
    assert Placed(g.columns) == multiset{1, 2};
    assert GetCard(g.cards, 1).Some? && GetCard(g.cards, 2).Some?;
  }

  /** Undoing the record of DropBoard uncovers the face-down card 1 on an empty stack. */
  lemma DropBoardSplice()
    ensures DropsRun(DropBoard(), Below(DropBoard()))
  {
    var g := DropBoard();
    var g1 := Rollback(g);
    assert g1.cards == g.cards && g1.moves == [];
    assert 2 in g1.columns[0];
    assert CardColumnIndex(g1.columns, 2) == 0;
    assert IndexOfId(g1.columns[0], 2) == 1;
    assert GetCard(g1.cards, 2).Some? && GetCard(g1.cards, 1) == Some(g.cards[0]);
    assert RunLength(g1.cards, [1, 2]) >= 1;
  }

  /** The throw after a splice does happen on a valid board, and reverseMove then breaks the invariant. */
  lemma DropBoardDrops()
    ensures BoardOk(DropBoard().cards, DropBoard().columns)
    ensures !BoardOk(ReverseMove(DropBoard()).cards, ReverseMove(DropBoard()).columns)
  {
    DropBoardValid();
    DropBoardSplice();
    ReverseMoveKeepsBoard(DropBoard());
  }
}
