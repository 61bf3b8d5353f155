/**
 * The state of the Spider store as a value, and every action of the store as a
 * function from the old state to the new one. The timer fan-out (stutter) runs
 * its actions in order and then its callback, so each action here is that
 * sequence of updates applied one after the other.
 */
module Engine {
  import opened Types
  import opened Sorting
  import opened Board
  import opened Vacancies

  /** The store state: columns 0-9 are the play columns, column 10 the tray of completed runs. */
  datatype Game = Game(
    cards: seq<Card>, decks: int, columns: seq<seq<Id>>, difficulty: Difficulty,
    vacancies: seq<Vacancy>, lastMoved: Id, vacancyIndex: int,
    moves: seq<Move>, highlighted: Id,
    hints: seq<Hint>, hintIndex: int, noHints: bool)

  const ColumnCount: nat := 11
  const PlayColumns: nat := 10
  const Tray: nat := 10

  /**
   * Every move record that is not a deal names two existing columns, and every
   * record's vacancy index is at least -1 (deal records carry -1).
   */
  predicate MovesOk(moves: seq<Move>)
  {
    forall k :: 0 <= k < |moves| ==>
      && moves[k].vacancyIndex >= -1
      && (!moves[k].isDeal ==> 0 <= moves[k].from < ColumnCount && 0 <= moves[k].to < ColumnCount)
  }

  /**
   * What the actions need to be defined: 11 columns, well-formed records, and
   * cursors that are never below -1 (vacancies) or 0 (hints), so that the
   * remainders the store computes are never negative and Dafny's % is the
   * JavaScript one.
   */
  predicate WellFormed(g: Game)
  {
    |g.columns| == ColumnCount && MovesOk(g.moves) && g.vacancyIndex >= -1 && g.hintIndex >= 0
  }

  /** The state a reset store holds. */
  function Fresh(): (g: Game)
    ensures WellFormed(g) && g.cards == [] && g.moves == [] && g.decks == 2
    ensures forall c :: 0 <= c < |g.columns| ==> g.columns[c] == []
  {
    Game([], 2, seq(ColumnCount, _ => []), Easy, [], NoId, 0, [], NoId, [], 0, false)
  }

  /** resetHints: the hint cache is emptied, nothing else changes. */
  function ResetHints(g: Game): (r: Game)
    ensures r.hints == [] && r.hintIndex == 0 && !r.noHints
    ensures r.(hints := g.hints, hintIndex := g.hintIndex, noHints := g.noHints) == g
  {
    g.(hints := [], hintIndex := 0, noHints := false)
  }

  /** moveContext: the vacancy-ranking context of the state. */
  function Context(g: Game): (c: MoveContext)
    ensures c.vacancies == g.vacancies && c.vacancyIndex == g.vacancyIndex && c.lastMoved == g.lastMoved
    ensures g.(vacancies := c.vacancies, vacancyIndex := c.vacancyIndex, lastMoved := c.lastMoved) == g
  {
    MoveContext(g.vacancies, g.vacancyIndex, g.lastMoved)
  }

  /** The state with its ranking context set to c; putting back its own context changes nothing. */
  function WithContext(g: Game, c: MoveContext): (r: Game)
    ensures Context(r) == c
    ensures r.(vacancies := g.vacancies, vacancyIndex := g.vacancyIndex, lastMoved := g.lastMoved) == g
    ensures c == Context(g) ==> r == g
  {
    g.(vacancies := c.vacancies, vacancyIndex := c.vacancyIndex, lastMoved := c.lastMoved)
  }

  function Top(moves: seq<Move>): (m: Option<Move>)
    ensures m.Some? <==> moves != []
    ensures m.Some? ==> m.value == moves[|moves| - 1]
  {
    if moves == [] then None else Some(moves[|moves| - 1])
  }

  /** The record reverseMove replays: the same record with from and to exchanged. */
  function Swapped(m: Move): (s: Move)
    ensures s.from == m.to && s.to == m.from && s.(from := m.from, to := m.to) == m
  {
    m.(from := m.to, to := m.from)
  }

  // ---------------------------------------------------------------------------
  // Card flags

  /** Sets turned on the card getCard(id) finds, if any. */
  function MarkTurned(cards: seq<Card>, id: Id, turned: bool): (r: seq<Card>)
    ensures |r| == |cards|
    ensures GetCard(cards, id).None? ==> r == cards
    ensures GetCard(cards, id).Some? ==> r == cards[FindCard(cards, id) := cards[FindCard(cards, id)].(turned := turned)]
  {
    var k := FindCard(cards, id);
    if id == NoId || k < 0 then cards else cards[k := cards[k].(turned := turned)]
  }

  /** Sets both dealt and turned on the card getCard(id) finds, if any. */
  function MarkDealt(cards: seq<Card>, id: Id, dealt: bool): (r: seq<Card>)
    ensures |r| == |cards|
    ensures GetCard(cards, id).None? ==> r == cards
    ensures GetCard(cards, id).Some? ==>
      r == cards[FindCard(cards, id) := cards[FindCard(cards, id)].(dealt := dealt, turned := dealt)]
  {
    var k := FindCard(cards, id);
    if id == NoId || k < 0 then cards else cards[k := cards[k].(dealt := dealt, turned := dealt)]
  }

  // ---------------------------------------------------------------------------
  // undo and the deal

  datatype Layout = Layout(cards: seq<Card>, columns: seq<seq<Id>>)

  /** Pops the top id of each of the columns 0 .. n-1 in turn and clears the flags of its card. */
  function TakeBackRow(cards: seq<Card>, columns: seq<seq<Id>>, n: nat): (r: Layout)
    requires n <= |columns|
    ensures |r.columns| == |columns| && |r.cards| == |cards|
    ensures forall c :: n <= c < |columns| ==> r.columns[c] == columns[c]
    ensures forall c :: 0 <= c < n ==>
      r.columns[c] == if columns[c] == [] then [] else columns[c][..|columns[c]| - 1]
  {
    if n == 0 then Layout(cards, columns)
    else
      var prev := TakeBackRow(cards, columns, n - 1);
      var col := prev.columns[n - 1];
      if col == [] then prev
      else Layout(MarkDealt(prev.cards, col[|col| - 1], false), prev.columns[n - 1 := col[..|col| - 1]])
  }

  /**
   * undo(isDeal): with isDeal the play columns give back their top cards, which
   * become undealt and face-down; then the top record, if any, is popped.
   */
  function Undo(g: Game, isDeal: bool): (r: Game)
    requires |g.columns| == ColumnCount
    ensures |r.columns| == ColumnCount
    ensures r.moves == if g.moves == [] then [] else g.moves[..|g.moves| - 1]
    ensures !isDeal ==> r == g.(moves := r.moves)
    ensures r.(cards := g.cards, columns := g.columns, moves := g.moves) == g
  {
    var g1 := if isDeal then
        var l := TakeBackRow(g.cards, g.columns, PlayColumns);
        g.(cards := l.cards, columns := l.columns)
      else g;
    if g1.moves == [] then g1 else g1.(moves := g1.moves[..|g1.moves| - 1])
  }

  /** deck: the cards not dealt yet, in card order. */
  function Deck(cards: seq<Card>): (r: seq<Card>)
    ensures multiset(r) <= multiset(cards)
    ensures forall i :: 0 <= i < |r| ==> !r[i].dealt
  {
    if cards == [] then []
    else
      var n := |cards| - 1;
      assert cards == cards[..n] + [cards[n]];
      Deck(cards[..n]) + (if cards[n].dealt then [] else [cards[n]])
  }

  function Ids(cards: seq<Card>): (r: seq<Id>)
    ensures |r| == |cards| && forall i :: 0 <= i < |cards| ==> r[i] == cards[i].id
  {
    if cards == [] then [] else [cards[0].id] + Ids(cards[1..])
  }

  /** Appends packed[c] to column c and marks it dealt and face-up, for c in 0 .. n-1 in turn. */
  function DealRow(cards: seq<Card>, columns: seq<seq<Id>>, packed: seq<Id>, n: nat): (r: Layout)
    requires n <= |columns| && n <= |packed|
    ensures |r.columns| == |columns| && |r.cards| == |cards|
    ensures forall c :: n <= c < |columns| ==> r.columns[c] == columns[c]
    ensures forall c :: 0 <= c < n ==> r.columns[c] == columns[c] + [packed[c]]
  {
    if n == 0 then Layout(cards, columns)
    else
      var prev := DealRow(cards, columns, packed, n - 1);
      Layout(MarkDealt(prev.cards, packed[n - 1], true),
             prev.columns[n - 1 := prev.columns[n - 1] + [packed[n - 1]]])
  }

  /** The record a deal pushes. */
  const DealMove: Move := DefaultMove.(isDeal := true)

  /**
   * dealMore: one undealt card onto each play column, then one deal record.
   * With no undealt card nothing happens. A stock of 1 to 9 cards, where the
   * store pushes undefined ids onto the last columns, is not modelled.
   */
  function DealMore(g: Game): (r: Game)
    requires |g.columns| == ColumnCount
    requires |Deck(g.cards)| == 0 || |Deck(g.cards)| >= PlayColumns
  {
    var packed := Ids(Deck(g.cards));
    if packed == [] then g
    else
      var l := DealRow(g.cards, g.columns, packed, PlayColumns);
      g.(cards := l.cards, columns := l.columns, moves := g.moves + [DealMove])
  }

  // ---------------------------------------------------------------------------
  // moveCard

  /**
   * The opening of moveCard on the undo path: pop the record being reversed,
   * turn its recorded card face-down again, and take the ranking context from
   * the new top record (or the default context on an empty stack).
   */
  function Rollback(g: Game): (r: Game)
    requires WellFormed(g)
    ensures WellFormed(r)
    ensures r.moves == if g.moves == [] then [] else g.moves[..|g.moves| - 1]
    ensures r.columns == g.columns
  {
    var rollback := Top(g.moves);
    var g1 := Undo(g, false);
    var cards := if rollback.Some? && rollback.value.turned.Some?
      then MarkTurned(g1.cards, rollback.value.turned.value, false) else g1.cards;
    var ctx := if g1.moves == [] then DefaultMoveContext else ContextOf(g1.moves[|g1.moves| - 1]);
    WithContext(g1.(cards := cards), ctx)
  }

  /** The card exposed when the column keeps only its first cardIndex ids, if it is there and face-down. */
  function FaceDownExposed(g: Game, index: nat, cardIndex: nat): (c: Option<Card>)
    requires index < |g.columns| && cardIndex <= |g.columns[index]|
    ensures c.Some? ==> cardIndex > 0 && !c.value.turned
    ensures c.Some? ==> c == GetCard(g.cards, g.columns[index][cardIndex - 1])
  {
    if cardIndex == 0 then None
    else
      var prev := GetCard(g.cards, g.columns[index][cardIndex - 1]);
      if prev.Some? && !prev.value.turned then prev else None
  }

  /**
   * The exposed card is face-down but there is no record to note it in: the
   * store's write to the top record throws there, after the splice and the flip.
   */
  predicate LiftFails(g: Game, index: nat, cardIndex: nat)
    requires index < |g.columns| && cardIndex <= |g.columns[index]|
  {
    FaceDownExposed(g, index, cardIndex).Some? && g.moves == []
  }

  /**
   * The splice of moveCard: the column keeps its first cardIndex ids; a
   * face-down card exposed by that is turned face-up and its id is noted in the
   * top record.
   */
  function Lift(g: Game, index: nat, cardIndex: nat): (r: Game)
    requires index < |g.columns| && cardIndex <= |g.columns[index]|
    ensures r.columns == g.columns[index := g.columns[index][..cardIndex]]
    ensures |r.moves| == |g.moves| && (MovesOk(g.moves) ==> MovesOk(r.moves))
    ensures r.(cards := g.cards, columns := g.columns, moves := g.moves) == g
  {
    var g1 := g.(columns := g.columns[index := g.columns[index][..cardIndex]]);
    var prev := FaceDownExposed(g, index, cardIndex);
    if prev.None? then g1
    else
      var cards := MarkTurned(g1.cards, prev.value.id, true);
      if g1.moves == [] then g1.(cards := cards)
      else
        var last := |g1.moves| - 1;
        g1.(cards := cards, moves := g1.moves[last := g1.moves[last].(turned := Some(prev.value.id))])
  }

  /**
   * What moveCard needs of its argument: a deal record is only ever undone;
   * otherwise the destination is a column; a fresh move also carries a vacancy
   * index of at least -1 and a source that is a column, unless the card is in
   * no column (then the pushed record is popped at once).
   */
  predicate MoveArgsOk(g: Game, m: Move, isUndo: bool)
  {
    if isUndo then m.isDeal || 0 <= m.to < ColumnCount
    else
      && !m.isDeal && 0 <= m.to < ColumnCount && m.vacancyIndex >= -1
      && (0 <= m.from < ColumnCount || m.from == CardColumnIndex(g.columns, m.uuid))
  }

  /** The record of the automatic move of a completed run from column `from` to the tray. */
  function ExtractMove(g: Game, from: nat): (m: Move)
    requires from < |g.columns| && |g.columns[from]| >= RunSize
    ensures m.from == from && m.to == Tray && !m.isDeal && m.turned.None? && m.length.None?
    ensures m.uuid == g.columns[from][|g.columns[from]| - RunSize]
    ensures ContextOf(m) == Context(g)
  {
    var col := g.columns[from];
    Move(from, Tray, col[|col| - RunSize], None, g.vacancies, g.vacancyIndex, g.lastMoved, None, false)
  }

  /** The opening of moveCard: the record is pushed, or, when undoing, the top record is rolled back. */
  function Opened(g: Game, m: Move, isUndo: bool): (r: Game)
    requires WellFormed(g)
    ensures r.columns == g.columns
    ensures isUndo ==> r == Rollback(g)
    ensures !isUndo ==> r == g.(moves := g.moves + [m])
    ensures |r.columns| == ColumnCount && r.vacancyIndex >= -1 && r.hintIndex >= 0
    ensures MoveArgsOk(g, m, isUndo) && CardColumnIndex(r.columns, m.uuid) >= 0 ==> MovesOk(r.moves)
    ensures isUndo ==> r.moves == [] || |r.moves| < |g.moves|
  {
    if isUndo then Rollback(g) else g.(moves := g.moves + [m])
  }

  /**
   * moveCard(m, isUndo). A fresh move from a column to itself is ignored.
   * Undoing a deal is undo(true). Otherwise the record is pushed (or, when
   * undoing, the top record is rolled back) and the move is carried out.
   */
  function MoveCard(g: Game, m: Move, isUndo: bool): (r: Game)
    requires WellFormed(g)
    requires MoveArgsOk(g, m, isUndo)
    decreases (if isUndo then 0 else 1), (if isUndo then |g.moves| else 0), (if m.to < Tray then 1 else 0), 4
  {
    if m.to == m.from && !m.isDeal && !isUndo then g
    else if isUndo && m.isDeal then Undo(g, true)
    else Relocate(g, Opened(g, m, isUndo), m, isUndo)
  }

  /**
   * The body of moveCard after its opening (g0 is the state before it, g1 the
   * state after it). The suffix of the card's column starting at the card is
   * moved when the card's column is the tray or the suffix lies within the
   * column's tail run; otherwise the column's run start is highlighted and a
   * record is popped. A card in no column restores the history: the rolled
   * back record is pushed again, or the pushed one is popped.
   */
  function Relocate(g0: Game, g1: Game, m: Move, isUndo: bool): (r: Game)
    requires WellFormed(g0) && MoveArgsOk(g0, m, isUndo) && !(isUndo && m.isDeal)
    requires |g1.columns| == ColumnCount && g1.vacancyIndex >= -1 && g1.hintIndex >= 0
    requires CardColumnIndex(g1.columns, m.uuid) >= 0 ==> MovesOk(g1.moves)
    requires isUndo ==> g1.moves == [] || |g1.moves| < |g0.moves|
    decreases (if isUndo then 0 else 1), (if isUndo then |g0.moves| else 0), (if m.to < Tray then 1 else 0), 3
  {
    var index := CardColumnIndex(g1.columns, m.uuid);
    if index < 0 then
      if isUndo && g0.moves != [] then g1.(moves := g1.moves + [g0.moves[|g0.moves| - 1]]) else Undo(g1, false)
    else
      var col := g1.columns[index];
      var run := RunLength(g1.cards, col);
      if index != Tray && |col| - IndexOfId(col, m.uuid) > run then
        Undo(g1.(highlighted := RunStart(g1.cards, col)), false)
      else Shift(g0, g1, m, isUndo, index)
  }

  /**
   * The moving branch of moveCard: the splice of the card's column index (which
   * throws when it exposes a face-down card with no record to note it in), then
   * the stutter of the suffix onto m.to.
   */
  function Shift(g0: Game, g1: Game, m: Move, isUndo: bool, index: nat): (r: Game)
    requires WellFormed(g0) && MoveArgsOk(g0, m, isUndo) && !(isUndo && m.isDeal)
    requires WellFormed(g1) && (isUndo ==> g1.moves == [] || |g1.moves| < |g0.moves|)
    requires index == CardColumnIndex(g1.columns, m.uuid)
    decreases (if isUndo then 0 else 1), (if isUndo then |g0.moves| else 0), (if m.to < Tray then 1 else 0), 2
  {
    var col := g1.columns[index];
    var cardIndex := IndexOfId(col, m.uuid);
    if LiftFails(g1, index, cardIndex) then Lift(g1, index, cardIndex)
    else Land(g0, Lift(g1, index, cardIndex), m, isUndo, col[cardIndex..])
  }

  /**
   * The stutter of moveCard and its callback: the ids land on column m.to in
   * order; then, if that play column's run is complete, the callback follows.
   */
  function Land(g0: Game, g2: Game, m: Move, isUndo: bool, toMove: seq<Id>): (r: Game)
    requires WellFormed(g0) && MoveArgsOk(g0, m, isUndo) && !(isUndo && m.isDeal)
    requires WellFormed(g2)
    requires isUndo ==> g2.moves == [] || |g2.moves| < |g0.moves|
    decreases (if isUndo then 0 else 1), (if isUndo then |g0.moves| else 0), (if m.to < Tray then 1 else 0), 1
  {
    var g3 := g2.(columns := g2.columns[m.to := g2.columns[m.to] + toMove]);
    if m.to < Tray && RunLength(g3.cards, g3.columns[m.to]) == RunSize then Complete(g0, g3, m, isUndo)
    else g3
  }

  /**
   * The callback of moveCard on a completed run of play column m.to: the run
   * goes to the tray, or, when undoing, the move before is undone as well.
   */
  function Complete(g0: Game, g3: Game, m: Move, isUndo: bool): (r: Game)
    requires WellFormed(g0) && MoveArgsOk(g0, m, isUndo) && !(isUndo && m.isDeal)
    requires WellFormed(g3) && m.to < Tray && RunLength(g3.cards, g3.columns[m.to]) == RunSize
    requires isUndo ==> g3.moves == [] || |g3.moves| < |g0.moves|
    decreases (if isUndo then 0 else 1), (if isUndo then |g0.moves| else 0), (if m.to < Tray then 1 else 0), 0
  {
    if isUndo then
      // reverseMove on an empty stack throws before changing anything
      if g3.moves == [] then g3
      else MoveCard(g3, Swapped(g3.moves[|g3.moves| - 1]), true)
    else
      MoveCard(g3, ExtractMove(g3, m.to), false)
  }

  /** reverseMove: replays the top record with from and to exchanged, as an undo. An empty stack throws. */
  function ReverseMove(g: Game): (r: Game)
    requires WellFormed(g)
  {
    if g.moves == [] then g else MoveCard(g, Swapped(g.moves[|g.moves| - 1]), true)
  }

  // ---------------------------------------------------------------------------
  // onCardPressed

  /** The record onCardPressed passes to moveCard: the card, its column, the destination and the context. */
  function PressMove(g: Game, uuid: Id, to: int): (m: Move)
    ensures m.uuid == uuid && m.to == to && m.from == CardColumnIndex(g.columns, uuid)
    ensures ContextOf(m) == Context(g) && !m.isDeal && m.turned.None? && m.length.None?
  {
    Move(CardColumnIndex(g.columns, uuid), to, uuid, None, g.vacancies, g.vacancyIndex, g.lastMoved, None, false)
  }

  /** The vacancies a turned card offers, among the play columns, in column order. */
  function Found(g: Game, card: Card, uuid: Id): (vs: seq<Vacancy>)
    requires |g.columns| == ColumnCount
    ensures IndicesBelow(vs, PlayColumns)
  {
    CollectVacanciesSpec(g.cards, g.columns, card, uuid, CardColumnIndex(g.columns, uuid), PlayColumns);
    CollectVacancies(g.cards, g.columns, card, uuid, CardColumnIndex(g.columns, uuid), PlayColumns)
  }

  /** The press repeats the last one: the same card, and the same destination columns. */
  predicate Repeats(g: Game, uuid: Id, ranked: seq<Vacancy>)
  {
    g.lastMoved == uuid && VacancyMap(g.vacancies) == VacancyMap(ranked)
  }

  /** A cursor advanced by one over a list of n entries, wrapping to the first after the last. */
  function NextIndex(i: int, n: nat): (r: nat)
    requires n > 0
    ensures r < n
    ensures -1 <= i < n - 1 ==> r == i + 1
    ensures i == n - 1 ==> r == 0
  {
    (i + 1) % n
  }

  /** A repeated press: advance the cursor over the remembered ranking and move to the column it lands on. */
  function Cycle(g: Game, uuid: Id): (r: Game)
    requires WellFormed(g) && g.vacancies != [] && IndicesBelow(g.vacancies, PlayColumns)
  {
    var vi := NextIndex(g.vacancyIndex, |g.vacancies|);
    var g1 := g.(vacancyIndex := vi);
    MoveCard(g1, PressMove(g1, uuid, g1.vacancies[vi].index), false)
  }

  /** The cursor a fresh ranking starts at: skip the first entry when it is the card's own column. */
  function FirstChoice(ranked: seq<Vacancy>, columnIndex: int): (i: nat)
    requires ranked != []
    ensures i == 0 || i == 1
    ensures i == 1 <==> ranked[0].index == columnIndex
  {
    if ranked[0].index == columnIndex then 1 else 0
  }

  /** A fresh press: store the ranking and the card, and move to the chosen vacancy if there is one. */
  function Choose(g: Game, uuid: Id, ranked: seq<Vacancy>): (r: Game)
    requires WellFormed(g) && ranked != [] && IndicesBelow(ranked, PlayColumns)
  {
    var vi := FirstChoice(ranked, CardColumnIndex(g.columns, uuid));
    var g1 := g.(lastMoved := uuid, vacancies := ranked, vacancyIndex := vi);
    if vi < |ranked| then MoveCard(g1, PressMove(g1, uuid, ranked[vi].index), false)
    else g1
  }

  /**
   * onCardPressed(uuid): the hint cache is reset; a known face-up card collects
   * its vacancies over the play columns and, when there are any, either cycles
   * (the same card pressed again over the same columns) or ranks them afresh.
   */
  function PressCard(g: Game, uuid: Id): (r: Game)
    requires WellFormed(g)
  {
    var g0 := ResetHints(g);
    var card := GetCard(g0.cards, uuid);
    if card.None? || !card.value.turned then g0
    else Press(g0, card.value, uuid, Found(g0, card.value, uuid))
  }

  /** The vacancies found for a face-up card: nothing happens without any; otherwise cycle or rank afresh. */
  function Press(g: Game, card: Card, uuid: Id, found: seq<Vacancy>): (r: Game)
    requires WellFormed(g) && IndicesBelow(found, PlayColumns)
  {
    if found == [] then g
    else
      var ranked := SortVacancies(found, card.color);
      RankedIndicesBelow(found, card.color, PlayColumns);
      if Repeats(g, uuid, ranked) then
        EqualMapsBounds(g.vacancies, ranked, PlayColumns);
        Cycle(g, uuid)
      else Choose(g, uuid, ranked)
  }
}
