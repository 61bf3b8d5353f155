/**
 * The Spider store as an object: its fields are the store state, its methods
 * the actions. Each action changes the fields step by step as the store does
 * and ends in the state the Engine (or Opening, or Hints) function of the same
 * name describes; the properties of those functions are proved in the lemma
 * modules.
 */
module Store {
  import opened Types
  import opened Sorting
  import opened Board
  import opened Vacancies
  import opened Engine
  import Opening
  import Hints
  import HintFacts

  class Spider {
    var cards: seq<Card>
    var decks: int
    var columns: seq<seq<Id>>
    var difficulty: Difficulty
    var vacancies: seq<Vacancy>
    var lastMoved: Id
    var vacancyIndex: int
    var moves: seq<Move>
    var highlighted: Id
    var hints: seq<Hint>
    var hintIndex: int
    var noHints: bool

    /** The fields as one value. */
    function State(): Game
      reads this
    {
      Game(cards, decks, columns, difficulty, vacancies, lastMoved, vacancyIndex,
           moves, highlighted, hints, hintIndex, noHints)
    }

    /** The store as created: the default state. */
    constructor ()
      ensures State() == Fresh()
    {
      cards, decks, columns, difficulty := [], 2, seq(ColumnCount, _ => []), Easy;
      vacancies, lastMoved, vacancyIndex := [], NoId, 0;
      moves, highlighted := [], NoId;
      hints, hintIndex, noHints := [], 0, false;
    }

    /**
     * getColumnSequenceLength(index): count the top card, then walk down while
     * the card beneath continues the run.
     */
    method GetColumnSequenceLength(index: nat) returns (output: nat)
      requires index < |columns|
      ensures output == RunLength(cards, columns[index])
    {
      var column := columns[index];
      output := 0;
      var card := ColumnCard(cards, columns, index);
      if card.None? {
        return;
      }
      output := output + 1;
      var current := card.value;
      var nextCard := GetCard(cards, if |column| >= 2 then column[|column| - 2] else NoId);
      while nextCard.Some? && nextCard.value.turned && current.color == nextCard.value.color
        && nextCard.value.value == current.value + 1
        invariant 1 <= output <= |column|
        invariant GetCard(cards, column[|column| - output]) == Some(current)
        invariant nextCard == if output < |column| then GetCard(cards, column[|column| - 1 - output]) else None
        invariant RunLength(cards, column) == output + ChainBelow(cards, column, |column| - output)
        decreases |column| - output
      {
        output := output + 1;
        current := nextCard.value;
        nextCard := GetCard(cards, if output < |column| then column[|column| - 1 - output] else NoId);
      }
    }

    /** resetHints. */
    method ResetHints()
      modifies this
      ensures State() == Engine.ResetHints(old(State()))
    {
      hints, hintIndex, noHints := [], 0, false;
    }

    /** undo(isDeal): returns the popped record, if any. */
    method Undo(isDeal: bool) returns (popped: Option<Move>)
      requires |columns| == ColumnCount
      modifies this
      ensures State() == Engine.Undo(old(State()), isDeal)
      ensures popped == Top(old(moves))
    {
      if isDeal {
        TakeBackDealtRow();
      }
      popped := Top(moves);
      if moves != [] {
        moves := moves[..|moves| - 1];
      }
    }

    /** The deal branch of undo: each play column in turn gives back its top card, undealt and face-down. */
    method TakeBackDealtRow()
      requires |columns| == ColumnCount
      modifies this
      ensures Layout(cards, columns) == TakeBackRow(old(cards), old(columns), PlayColumns)
      ensures State() == old(State()).(cards := cards, columns := columns)
    {
      var cs, cols := cards, columns;
      var c := 0;
      while c < PlayColumns
        invariant 0 <= c <= PlayColumns && |cols| == ColumnCount
        invariant Layout(cs, cols) == TakeBackRow(cards, columns, c)
      {
        var col := cols[c];
        if col != [] {
          var id := col[|col| - 1];
          cols := cols[c := col[..|col| - 1]];
          cs := MarkDealt(cs, id, false);
        }
        c := c + 1;
      }
      cards, columns := cs, cols;
    }

    /** dealMore. */
    method DealMore()
      requires |columns| == ColumnCount
      requires |Deck(cards)| == 0 || |Deck(cards)| >= PlayColumns
      modifies this
      ensures State() == Engine.DealMore(old(State()))
    {
      var packed := Ids(Deck(cards));
      if |packed| > 0 {
        DealRowOf(packed);
        moves := moves + [DealMove];
      }
    }

    /** The loop of dealMore: play column i in turn gains the card packed[i], marked dealt and face-up. */
    method DealRowOf(packed: seq<Id>)
      requires |columns| == ColumnCount && |packed| >= PlayColumns
      modifies this
      ensures Layout(cards, columns) == DealRow(old(cards), old(columns), packed, PlayColumns)
      ensures State() == old(State()).(cards := cards, columns := columns)
    {
      var cs, cols := cards, columns;
      var i := 0;
      while i < PlayColumns
        invariant 0 <= i <= PlayColumns && |cols| == ColumnCount
        invariant Layout(cs, cols) == DealRow(cards, columns, packed, i)
      {
        cols := cols[i := cols[i] + [packed[i]]];
        cs := MarkDealt(cs, packed[i], true);
        i := i + 1;
      }
      cards, columns := cs, cols;
    }

    /** reverseMove. */
    method ReverseMove()
      requires WellFormed(State())
      modifies this
      ensures State() == Engine.ReverseMove(old(State()))
      decreases 0, |moves|, 2, 0
    {
      if moves != [] {
        MoveCard(Swapped(moves[|moves| - 1]), true);
      }
    }

    /** moveCard(m, isUndo): its opening; the rest is Relocate. */
    method MoveCard(m: Move, isUndo: bool)
      requires WellFormed(State()) && MoveArgsOk(State(), m, isUndo)
      modifies this
      ensures State() == Engine.MoveCard(old(State()), m, isUndo)
      decreases (if isUndo then 0 else 1), (if isUndo then |moves| else 0), (if m.to < Tray then 1 else 0), 2
    {
      if m.to == m.from && !m.isDeal && !isUndo {
        return;
      }
      ghost var g0 := State();
      if isUndo {
        if m.isDeal {
          var _ := Undo(true);
          return;
        }
        var rollback := RollBack();
        Relocate(g0, m, isUndo, rollback);
      } else {
        moves := moves + [m];
        Relocate(g0, m, isUndo, None);
      }
    }

    /**
     * The opening of moveCard on the undo path: pop the record, turn its
     * recorded card face-down again, and take the context of the new top record.
     */
    method RollBack() returns (rollback: Option<Move>)
      requires WellFormed(State())
      modifies this
      ensures State() == Rollback(old(State()))
      ensures rollback == Top(old(moves))
    {
      ghost var g0 := State();
      rollback := Undo(false);
      ghost var g1 := State();
      if rollback.Some? && rollback.value.turned.Some? {
        cards := MarkTurned(cards, rollback.value.turned.value, false);
      }
      ghost var g2 := State();
      assert g2 == g1.(cards := g2.cards);
      var ctx := if moves == [] then DefaultMoveContext else ContextOf(moves[|moves| - 1]);
      vacancies, vacancyIndex, lastMoved := ctx.vacancies, ctx.vacancyIndex, ctx.lastMoved;
      assert State() == WithContext(g2, ctx);
    }

    /** The body of moveCard after its opening; g0 is the state before the opening. */
    method Relocate(ghost g0: Game, m: Move, isUndo: bool, rollback: Option<Move>)
      requires WellFormed(g0) && MoveArgsOk(g0, m, isUndo) && !(isUndo && m.isDeal)
      requires State() == Opened(g0, m, isUndo)
      requires rollback == if isUndo then Top(g0.moves) else None
      modifies this
      ensures State() == Engine.Relocate(g0, old(State()), m, isUndo)
      decreases (if isUndo then 0 else 1), (if isUndo then |g0.moves| else 0), (if m.to < Tray then 1 else 0), 1
    {
      ghost var g1 := State();
      var index := CardColumnIndex(columns, m.uuid);
      if index > -1 {
        var col := columns[index];
        var cardIndex := IndexOfId(col, m.uuid);
        var shouldMove := col[cardIndex..];
        var run := GetColumnSequenceLength(index);
        if index == Tray || |shouldMove| <= run {
          var toMove := col[cardIndex..];
          var completed := Splice(index, cardIndex);
          if !completed {
            return;
          }
          Land(g0, m, isUndo, toMove);
        } else {
          highlighted := RunStart(cards, col);
          var _ := Undo(false);
        }
      } else {
        if rollback.Some? {
          moves := moves + [rollback.value];
        } else {
          var _ := Undo(false);
        }
      }
    }

    /**
     * The splice of moveCard: the column keeps its first cardIndex ids and a
     * face-down card exposed by that is turned face-up and noted in the top
     * record. With no record to note it in, the store throws after the flip;
     * completed is then false.
     */
    method Splice(index: nat, cardIndex: nat) returns (completed: bool)
      requires index < |columns| && cardIndex <= |columns[index]|
      modifies this
      ensures State() == Lift(old(State()), index, cardIndex)
      ensures completed == !LiftFails(old(State()), index, cardIndex)
    {
      columns := columns[index := columns[index][..cardIndex]];
      completed := true;
      if |columns[index]| > 0 {
        var prevCard := GetCard(cards, columns[index][|columns[index]| - 1]);
        if prevCard.Some? && !prevCard.value.turned {
          cards := MarkTurned(cards, prevCard.value.id, true);
          if moves == [] {
            // the write to the top record throws: the action stops here
            completed := false;
            return;
          }
          moves := moves[|moves| - 1 := moves[|moves| - 1].(turned := Some(prevCard.value.id))];
        }
      }
    }

    /** The stutter of moveCard, one id at a time, then its callback. */
    method Land(ghost g0: Game, m: Move, isUndo: bool, toMove: seq<Id>)
      requires WellFormed(g0) && MoveArgsOk(g0, m, isUndo) && !(isUndo && m.isDeal)
      requires WellFormed(State())
      requires isUndo ==> moves == [] || |moves| < |g0.moves|
      modifies this
      ensures State() == Engine.Land(g0, old(State()), m, isUndo, toMove)
      decreases (if isUndo then 0 else 1), (if isUndo then |g0.moves| else 0), (if m.to < Tray then 1 else 0), 0
    {
      ghost var base := columns;
      var i := 0;
      assert toMove[..0] == [] && base[m.to] + [] == base[m.to];
      while i < |toMove|
        invariant 0 <= i <= |toMove| && |columns| == |base|
        invariant columns == base[m.to := base[m.to] + toMove[..i]]
        invariant State() == old(State()).(columns := columns)
      {
        assert toMove[..i + 1] == toMove[..i] + [toMove[i]];
        assert columns[m.to] + [toMove[i]] == base[m.to] + toMove[..i + 1];
        columns := columns[m.to := columns[m.to] + [toMove[i]]];
        i := i + 1;
      }
      assert toMove[..i] == toMove;
      if m.to < Tray {
        var length := GetColumnSequenceLength(m.to);
        if length == RunSize {
          if isUndo {
            // reverseMove on an empty stack throws before changing anything
            if moves != [] {
              ReverseMove();
            }
          } else {
            MoveCard(ExtractMove(State(), m.to), false);
          }
        }
      }
    }
  
    /** onCardPressed(uuid). */
    method OnCardPressed(uuid: Id)
      requires WellFormed(State())
      modifies this
      ensures State() == PressCard(old(State()), uuid)
    {
      ResetHints();
      var card := GetCard(cards, uuid);
      if card.Some? && card.value.turned {
        var found := CollectFound(card.value, uuid);
        PressWith(card.value, uuid, found);
      }
    }

    /** The vacancies found for a face-up card: cycle over the remembered ranking or rank afresh. */
    method PressWith(card: Card, uuid: Id, found: seq<Vacancy>)
      requires WellFormed(State()) && IndicesBelow(found, PlayColumns)
      modifies this
      ensures State() == Press(old(State()), card, uuid, found)
    {
      if |found| > 0 {
        var sortedVacancies := SortVacancies(found, card.color);
        RankedIndicesBelow(found, card.color, PlayColumns);
        if lastMoved == uuid && VacancyMap(vacancies) == VacancyMap(sortedVacancies) {
          EqualMapsBounds(vacancies, sortedVacancies, PlayColumns);
          CycleTo(uuid);
        } else {
          ChooseFrom(uuid, sortedVacancies);
        }
      }
    }

    /** The forEach of onCardPressed over the play columns, collecting the vacancies the card may land on. */
    method CollectFound(card: Card, uuid: Id) returns (found: seq<Vacancy>)
      requires |columns| == ColumnCount
      ensures found == Found(State(), card, uuid)
    {
      var columnIndex := CardColumnIndex(columns, uuid);
      found := [];
      var index := 0;
      while index < PlayColumns
        invariant 0 <= index <= PlayColumns
        invariant found == CollectVacancies(cards, columns, card, uuid, columnIndex, index)
      {
        var lastCard := ReferenceCard(cards, columns, uuid, columnIndex, index);
        CollectVacanciesStep(cards, columns, card, uuid, columnIndex, index);
        if Accepts(lastCard, card) {
          var sequence := GetColumnSequenceLength(index);
          var color := if lastCard.Some? then lastCard.value.color else card.color;
          found := found + [Vacancy(index, sequence, color, card.value)];
        }
        index := index + 1;
      }
    }

    /** The same card pressed over the same columns: advance the cursor and move there. */
    method CycleTo(uuid: Id)
      requires WellFormed(State()) && vacancies != [] && IndicesBelow(vacancies, PlayColumns)
      modifies this
      ensures State() == Cycle(old(State()), uuid)
    {
      vacancyIndex := NextIndex(vacancyIndex, |vacancies|);
      MoveCard(PressMove(State(), uuid, vacancies[vacancyIndex].index), false);
    }

    /** A fresh ranking: remember it and move to its first column other than the card's own. */
    method ChooseFrom(uuid: Id, ranked: seq<Vacancy>)
      requires WellFormed(State()) && ranked != [] && IndicesBelow(ranked, PlayColumns)
      modifies this
      ensures State() == Choose(old(State()), uuid, ranked)
    {
      var columnIndex := CardColumnIndex(columns, uuid);
      lastMoved := uuid;
      vacancies := ranked;
      vacancyIndex := FirstChoice(ranked, columnIndex);
      if vacancyIndex < |vacancies| {
        MoveCard(PressMove(State(), uuid, vacancies[vacancyIndex].index), false);
      }
    }

    /**
     * getHints: with a list, advance the cursor; otherwise the sequenceLengths
     * map, the map of the play columns to their tail runs, the reduce over the
     * target columns, then sortBy on length and reverse.
     */
    method GetHints()
      requires WellFormed(State())
      modifies this
      ensures State() == Hints.GetHints(old(State()))
    {
      if |hints| > 0 {
        hintIndex := NextIndex(hintIndex, |hints|);
        return;
      }
      var lens := SequenceLengths();
      var tails := TailRuns();
      var acc: seq<Hint> := [];
      var index := 0;
      while index < PlayColumns
        invariant 0 <= index <= PlayColumns && State() == old(State())
        invariant acc == Hints.Raw(State(), index)
      {
        var run := tails[index];
        var last := if run == [] then None else run[|run| - 1];
        if last.Some? {
          acc := UnshiftOffers(State(), columns, lens, tails, index, last.value, acc);
        } else {
          HintFacts.UnshiftedIdle(State(), acc, index, PlayColumns);
        }
        index := index + 1;
      }
      hintIndex, hints := 0, Reverse(SortBy(acc, Hints.LengthKey));
      if |hints| == 0 {
        noHints := true;
      }
    }

    /** sequenceLengths: getColumnSequenceLength of each play column in turn. */
    method SequenceLengths() returns (lens: seq<nat>)
      requires |columns| == ColumnCount
      ensures lens == Hints.RunLengths(State())
    {
      lens := [];
      var i := 0;
      while i < PlayColumns
        invariant 0 <= i <= PlayColumns && |lens| == i
        invariant forall j :: 0 <= j < i ==> lens[j] == RunLength(cards, columns[j])
      {
        var n := GetColumnSequenceLength(i);
        lens := lens + [n];
        i := i + 1;
      }
    }

    /** The map of each play column to the cards of its tail run. */
    method TailRuns() returns (tails: seq<seq<Option<Card>>>)
      requires |columns| == ColumnCount
      ensures |tails| == PlayColumns && forall i :: 0 <= i < PlayColumns ==> tails[i] == Hints.TailCards(State(), i)
    {
      tails := [];
      var i := 0;
      while i < PlayColumns
        invariant 0 <= i <= PlayColumns && |tails| == i
        invariant forall j :: 0 <= j < i ==> tails[j] == Hints.TailCards(State(), j)
      {
        var col, cs := columns[i], cards;
        var run := GetColumnSequenceLength(i);
        var tail := seq(run, j requires 0 <= j < run => GetCard(cs, col[|col| - run + j]));
        tails := tails + [tail];
        i := i + 1;
      }
    }

    /**
     * The findIndex over the other columns' tail runs for target index, whose
     * tail ends in last, and the forEach that unshifts each admitted hint.
     */
    static method UnshiftOffers(ghost g: Game, cols: seq<seq<Id>>, lens: seq<nat>, tails: seq<seq<Option<Card>>>,
                                index: nat, last: Card, acc0: seq<Hint>)
      returns (acc: seq<Hint>)
      requires |g.columns| == ColumnCount && cols == g.columns && index < PlayColumns
      requires lens == Hints.RunLengths(g)
      requires |tails| == PlayColumns && forall i :: 0 <= i < PlayColumns ==> tails[i] == Hints.TailCards(g, i)
      requires Hints.LastOfTail(g, index) == Some(last)
      ensures acc == Hints.Unshifted(g, acc0, index, PlayColumns)
    {
      acc := acc0;
      var i := 0;
      while i < PlayColumns
        invariant 0 <= i <= PlayColumns
        invariant acc == Hints.Unshifted(g, acc0, index, i)
      {
        var n := if i == index then -1 else Hints.FindBelow(tails[i], last);
        if n > -1 && lens[index] - n > 0 {
          HintFacts.UnshiftedAdmits(g, cols, acc0, index, i, lens, tails, last, n, acc);
          acc := [Hint(i, index, cols[i][|cols[i]| - lens[i] + n], Some(lens[i] - n + lens[index]))] + acc;
          assert acc == Hints.Unshifted(g, acc0, index, i + 1);
        } else {
          HintFacts.UnshiftedSkips(g, acc0, index, i, lens, tails, last, n);
          assert acc == Hints.Unshifted(g, acc0, index, i + 1);
        }
        i := i + 1;
      }
    }

    /** reset: the default state. */
    method Reset()
      modifies this
      ensures State() == Fresh()
    {
      cards, decks, columns, difficulty := [], 2, seq(ColumnCount, _ => []), Easy;
      vacancies, lastMoved, vacancyIndex := [], NoId, 0;
      moves, highlighted := [], NoId;
      hints, hintIndex, noHints := [], 0, false;
    }

    /**
     * start(decks), with the shuffle given as a permutation. The reset here
     * keeps the chosen difficulty, so that the suits follow it.
     */
    method Start(decks: int, perm: seq<nat>)
      requires Opening.DeckCount(decks) >= 2
      requires Opening.IsPermutation(perm, 52 * Opening.DeckCount(decks))
      modifies this
      ensures State() == Opening.Start(old(State()), decks, perm)
    {
      var chosen := difficulty;
      Reset();
      difficulty := chosen;
      if decks != 0 {
        this.decks := decks;
      }
      var built := BuildCards();
      cards := Opening.Shuffle(built, perm);
      DealOpening();
      TurnTops();
    }

    /** The first deal of start: card i onto column i % 10, marked dealt, for i in 0 .. 53. */
    method DealOpening()
      requires |columns| == ColumnCount && |cards| >= Opening.OpeningDeal
      modifies this
      ensures Layout(cards, columns) == Opening.DealOpening(old(cards), old(columns), Opening.OpeningDeal)
      ensures State() == old(State()).(cards := cards, columns := columns)
    {
      var i := 0;
      while i < Opening.OpeningDeal
        invariant 0 <= i <= Opening.OpeningDeal && |cards| == |old(cards)| && |columns| == ColumnCount
        invariant Layout(cards, columns) == Opening.DealOpening(old(cards), old(columns), i)
        invariant State() == old(State()).(cards := cards, columns := columns)
      {
        columns := columns[i % 10 := columns[i % 10] + [cards[i].id]];
        cards := cards[i := cards[i].(dealt := true)];
        i := i + 1;
      }
    }

    /** The callback of the first deal: the top card of each play column is turned face-up. */
    method TurnTops()
      requires |columns| == ColumnCount
      modifies this
      ensures State() == old(State()).(cards := cards)
      ensures cards == Opening.TurnTops(old(cards), columns, PlayColumns)
    {
      var c := 0;
      while c < PlayColumns
        invariant 0 <= c <= PlayColumns
        invariant State() == old(State()).(cards := cards)
        invariant cards == Opening.TurnTops(old(cards), columns, c)
      {
        var card := ColumnCard(cards, columns, c);
        if card.Some? {
          cards := MarkTurned(cards, card.value.id, true);
        }
        c := c + 1;
      }
    }

    /** The loops of start over decks, suits and values, pushing one new card each. */
    method BuildCards() returns (built: seq<Card>)
      requires decks >= 0
      ensures built == Opening.BuildCards(difficulty, decks)
    {
      built := [];
      var deck := 0;
      while deck < decks
        invariant 0 <= deck <= decks
        invariant |built| == 52 * deck
        invariant forall k :: 0 <= k < |built| ==> built[k] == Opening.NewCard(difficulty, k)
      {
        var colorIndex := 0;
        while colorIndex < 4
          invariant 0 <= colorIndex <= 4
          invariant |built| == 52 * deck + 13 * colorIndex
          invariant forall k :: 0 <= k < |built| ==> built[k] == Opening.NewCard(difficulty, k)
        {
          var value := 0;
          while value < 13
            invariant 0 <= value <= 13
            invariant |built| == 52 * deck + 13 * colorIndex + value
            invariant forall k :: 0 <= k < |built| ==> built[k] == Opening.NewCard(difficulty, k)
          {
            Opening.NewCardAt(difficulty, deck, colorIndex, value);
            built := built + [Card(|built| + 1, value, Opening.ColorFor(difficulty, colorIndex), false, false)];
            value := value + 1;
          }
          colorIndex := colorIndex + 1;
        }
        deck := deck + 1;
      }
    }
  }
}
