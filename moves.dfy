/**
 * What moveCard does outside an undo: the shape of each of its outcomes (a
 * card in no column, a rejected move, a relocation, the automatic removal of a
 * completed run) and the fields it never touches.
 */
module MoveFacts {
  import opened Seqs
  import opened Types
  import opened Board
  import opened Engine

  /** The fields only reset, start, onCardPressed and the undo path of moveCard write. */
  predicate SameContext(g: Game, r: Game)
  {
    && r.decks == g.decks && r.difficulty == g.difficulty
    && r.vacancies == g.vacancies && r.vacancyIndex == g.vacancyIndex && r.lastMoved == g.lastMoved
    && r.hints == g.hints && r.hintIndex == g.hintIndex && r.noHints == g.noHints
  }

  /**
   * A move outside an undo keeps the state well-formed and leaves the ranking
   * context, the deck count, the difficulty and the hint cache as they were.
   */
  lemma {:induction false} MoveKeepsContext(g: Game, m: Move)
    requires WellFormed(g) && MoveArgsOk(g, m, false)
    ensures WellFormed(MoveCard(g, m, false)) && SameContext(g, MoveCard(g, m, false))
    decreases if m.to < Tray then 1 else 0
  {
    if m.to == m.from {
      return;
    }
    var g1 := Opened(g, m, false);
    var index := CardColumnIndex(g1.columns, m.uuid);
    if index >= 0 {
      assert MovesOk(g1.moves) by {
        assert g1.moves == g.moves + [m];
      }
      var col := g1.columns[index];
      var cardIndex := IndexOfId(col, m.uuid);
      var run := RunLength(g1.cards, col);
      if !(index != Tray && |col| - cardIndex > run) && !LiftFails(g1, index, cardIndex) {
        var g2 := Lift(g1, index, cardIndex);
        var g3 := g2.(columns := g2.columns[m.to := g2.columns[m.to] + col[cardIndex..]]);
        assert MoveCard(g, m, false) == Relocate(g, g1, m, false);
        assert Relocate(g, g1, m, false) == Shift(g, g1, m, false, index);
        assert Shift(g, g1, m, false, index) == Land(g, g2, m, false, col[cardIndex..]);
        if m.to < Tray && RunLength(g3.cards, g3.columns[m.to]) == RunSize {
          assert Land(g, g2, m, false, col[cardIndex..]) == Complete(g, g3, m, false);
          assert Complete(g, g3, m, false) == MoveCard(g3, ExtractMove(g3, m.to), false);
          MoveKeepsContext(g3, ExtractMove(g3, m.to));
        }
      }
    }
  }

  /** The columns after the suffix of column index from position cardIndex has been moved onto column `to`. */
  function Relocated(columns: seq<seq<Id>>, index: nat, cardIndex: nat, to: nat): (r: seq<seq<Id>>)
    requires index < |columns| && cardIndex <= |columns[index]| && to < |columns|
    ensures |r| == |columns|
  {
    var c1 := columns[index := columns[index][..cardIndex]];
    c1[to := c1[to] + columns[index][cardIndex..]]
  }

  /** A relocation between two different columns: the source keeps its prefix, the target gains the suffix, nothing else changes. */
  lemma RelocatedColumns(columns: seq<seq<Id>>, index: nat, cardIndex: nat, to: nat)
    requires index < |columns| && cardIndex <= |columns[index]| && to < |columns| && index != to
    ensures var r := Relocated(columns, index, cardIndex, to);
      && r[index] == columns[index][..cardIndex]
      && r[to] == columns[to] + columns[index][cardIndex..]
      && forall c :: 0 <= c < |columns| && c != index && c != to ==> r[c] == columns[c]
  {
  }

  /** A fresh move from a column onto itself is ignored. */
  lemma MoveOntoItself(g: Game, m: Move)
    requires WellFormed(g) && MoveArgsOk(g, m, false) && m.to == m.from
    ensures MoveCard(g, m, false) == g
  {
  }

  /** The card moveCard would move, in no column: the pushed record is popped and nothing else changes. */
  lemma MoveOfUnplacedCard(g: Game, m: Move)
    requires WellFormed(g) && MoveArgsOk(g, m, false) && m.to != m.from
    requires CardColumnIndex(g.columns, m.uuid) < 0
    ensures MoveCard(g, m, false) == g
  {
    assert (g.moves + [m])[..|g.moves|] == g.moves;
  }

  /**
   * A fresh move of a suffix longer than its column's tail run (from a play
   * column) is refused: the first card of the run is highlighted (nothing when
   * the run is empty), and the record is pushed and popped again.
   */
  lemma MoveRejected(g: Game, m: Move)
    requires WellFormed(g) && MoveArgsOk(g, m, false) && m.to != m.from
    requires var index := CardColumnIndex(g.columns, m.uuid);
      && 0 <= index < Tray
      && |g.columns[index]| - IndexOfId(g.columns[index], m.uuid) > RunLength(g.cards, g.columns[index])
    ensures MoveCard(g, m, false) == g.(highlighted := RunStart(g.cards, g.columns[CardColumnIndex(g.columns, m.uuid)]))
  {
    var col := g.columns[CardColumnIndex(g.columns, m.uuid)];
    var h := RunStart(g.cards, col);
    FreshMoveOpens(g, m);
    RelocateRefused(g, m);
    assert Undo(g.(moves := g.moves + [m]).(highlighted := h), false) == g.(highlighted := h) by {
      SnocDropLast(g.moves, m);
    }
  }

  /** A fresh move between two different columns pushes its record and goes on to the relocation. */
  lemma FreshMoveOpens(g: Game, m: Move)
    requires WellFormed(g) && MoveArgsOk(g, m, false) && m.to != m.from
    ensures MoveCard(g, m, false) == Relocate(g, g.(moves := g.moves + [m]), m, false)
  {
  }

  /** The branch of a fresh moveCard that refuses a suffix longer than its play column's tail run. */
  lemma RelocateRefused(g: Game, m: Move)
    requires WellFormed(g) && MoveArgsOk(g, m, false)
    requires var index := CardColumnIndex(g.columns, m.uuid);
      && 0 <= index < Tray
      && |g.columns[index]| - IndexOfId(g.columns[index], m.uuid) > RunLength(g.cards, g.columns[index])
    ensures var g1 := g.(moves := g.moves + [m]);
      Relocate(g, g1, m, false) == Undo(g1.(highlighted := RunStart(g.cards, g.columns[CardColumnIndex(g.columns, m.uuid)])), false)
  {
  }

  /** The card a relocation from column index uncovers, when it is face-down. */
  function Exposed(g: Game, m: Move): (c: Option<Card>)
    requires |g.columns| == ColumnCount && CardColumnIndex(g.columns, m.uuid) >= 0
  {
    var index := CardColumnIndex(g.columns, m.uuid);
    FaceDownExposed(g, index, IndexOfId(g.columns[index], m.uuid))
  }

  /** The move is allowed: the card is in a column and its suffix lies within that column's run (or it is in the tray). */
  predicate Allowed(g: Game, m: Move)
    requires |g.columns| == ColumnCount
  {
    var index := CardColumnIndex(g.columns, m.uuid);
    && index >= 0
    && (index == Tray || |g.columns[index]| - IndexOfId(g.columns[index], m.uuid) <= RunLength(g.cards, g.columns[index]))
  }

  /** The state right after an allowed fresh move has been carried out, before any completed run is removed. */
  function Carried(g: Game, m: Move): (r: Game)
    requires WellFormed(g) && MoveArgsOk(g, m, false) && Allowed(g, m)
  {
    var index := CardColumnIndex(g.columns, m.uuid);
    var exposed := Exposed(g, m);
    g.(columns := Relocated(g.columns, index, IndexOfId(g.columns[index], m.uuid), m.to),
       cards := if exposed.Some? then MarkTurned(g.cards, exposed.value.id, true) else g.cards,
       moves := g.moves + [if exposed.Some? then m.(turned := Some(exposed.value.id)) else m])
  }

  /**
   * An allowed fresh move carries the suffix from the card on to column m.to,
   * turns a face-down card it uncovers face-up and notes it in the pushed
   * record; when no completed run forms on m.to that is the whole effect, and
   * otherwise the completed run is then moved to the tray.
   */
  lemma MoveAllowed(g: Game, m: Move)
    requires WellFormed(g) && MoveArgsOk(g, m, false) && m.to != m.from && Allowed(g, m)
    ensures var c := Carried(g, m);
      && WellFormed(c)
      && (m.to < Tray && RunLength(c.cards, c.columns[m.to]) == RunSize ==>
            |c.columns[m.to]| >= RunSize && MoveCard(g, m, false) == MoveCard(c, ExtractMove(c, m.to), false))
      && (!(m.to < Tray && RunLength(c.cards, c.columns[m.to]) == RunSize) ==> MoveCard(g, m, false) == c)
  {
    var g1 := Opened(g, m, false);
    var index := CardColumnIndex(g.columns, m.uuid);
    var col := g.columns[index];
    var cardIndex := IndexOfId(col, m.uuid);
    assert MovesOk(g1.moves) by {
      assert g1.moves == g.moves + [m];
    }
    var g2 := Lift(g1, index, cardIndex);
    var g3 := g2.(columns := g2.columns[m.to := g2.columns[m.to] + col[cardIndex..]]);
    assert g3 == Carried(g, m);
    assert MoveCard(g, m, false) == Relocate(g, g1, m, false);
    assert Relocate(g, g1, m, false) == Shift(g, g1, m, false, index);
    assert Shift(g, g1, m, false, index) == Land(g, g2, m, false, col[cardIndex..]);
    if m.to < Tray && RunLength(g3.cards, g3.columns[m.to]) == RunSize {
      assert Land(g, g2, m, false, col[cardIndex..]) == Complete(g, g3, m, false);
    }
  }

  /**
   * On a valid board, a play column whose tail run is complete gives its
   * thirteen cards to the tray: the automatic move is allowed, and carrying
   * it out (the run moved, a face-down card it uncovers turned up, its record
   * pushed) is all that happens, since the tray is not a play column.
   */
  lemma RunExtracted(g: Game, t: nat)
    requires WellFormed(g) && BoardOk(g.cards, g.columns) && t < Tray && RunLength(g.cards, g.columns[t]) == RunSize
    ensures |g.columns[t]| >= RunSize
    ensures var m := ExtractMove(g, t); Allowed(g, m) && MoveCard(g, m, false) == Carried(g, m)
  {
    ExtractAdmitted(g, t);
    MoveAllowed(g, ExtractMove(g, t));
  }

  /**
   * The columns after the automatic move: the column keeps all but its run,
   * the tray gains the run in order, and the other play columns are untouched.
   */
  lemma RunCarried(g: Game, t: nat)
    requires WellFormed(g) && BoardOk(g.cards, g.columns) && t < Tray && RunLength(g.cards, g.columns[t]) == RunSize
    ensures |g.columns[t]| >= RunSize
    ensures var m, col := ExtractMove(g, t), g.columns[t];
      && Allowed(g, m)
      && Carried(g, m).columns[t] == col[..|col| - RunSize]
      && Carried(g, m).columns[Tray] == g.columns[Tray] + col[|col| - RunSize..]
      && (forall c :: 0 <= c < Tray && c != t ==> Carried(g, m).columns[c] == g.columns[c])
  {
    var k := |g.columns[t]| - RunSize;
    ExtractAdmitted(g, t);
    CarriedColumns(g, ExtractMove(g, t), t, k);
    RelocatedColumns(g.columns, t, k, Tray);
  }

  /** The automatic move of a complete run names the run's first card, in column t at position |col| - RunSize. */
  lemma ExtractAdmitted(g: Game, t: nat)
    requires WellFormed(g) && BoardOk(g.cards, g.columns) && t < Tray && RunLength(g.cards, g.columns[t]) == RunSize
    ensures |g.columns[t]| >= RunSize
    ensures var m, col := ExtractMove(g, t), g.columns[t];
      && CardColumnIndex(g.columns, m.uuid) == t && IndexOfId(col, m.uuid) == |col| - RunSize
      && MoveArgsOk(g, m, false) && m.to != m.from && Allowed(g, m)
  {
    PlacedOnce(g.cards, g.columns, t, |g.columns[t]| - RunSize);
  }

  /** The columns after an allowed move: the relocation of the suffix from the card's position. */
  lemma CarriedColumns(g: Game, m: Move, index: nat, k: nat)
    requires WellFormed(g) && MoveArgsOk(g, m, false) && Allowed(g, m)
    requires index == CardColumnIndex(g.columns, m.uuid) && k == IndexOfId(g.columns[index], m.uuid)
    ensures k <= |g.columns[index]| && Carried(g, m).columns == Relocated(g.columns, index, k, m.to)
  {
  }
}
