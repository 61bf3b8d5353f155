# Spider Solitaire store, modelled in Dafny

This project models the game engine of a Spider Solitaire web app. The engine
is one Pinia store. Its state is:

- the cards, each with an id, a value, a suit and two flags (`dealt`, `turned`);
- eleven columns of card ids: ten play columns and a tray for completed runs;
- the move records that undo replays;
- the remembered ranking of destinations for a pressed card, with its cursor;
- the hint list, with its cursor.

Its actions are:

- `start(decks)` builds, shuffles and deals a new game;
- `dealMore` puts one card from the stock on each play column;
- `onCardPressed` sends a card to the best destination, and pressing it again
  sends it on to the next one;
- `moveCard` carries a run from one column to another, turns up the card it
  uncovers, and sends a completed run of thirteen to the tray;
- `reverseMove` and `undo` take back the last move or deal;
- `getHints` lists every useful move, longest combined run first, and
  `resetHints` clears that list.

The model has two layers:

- **The specification layer.** The state is the value `Engine.Game`, and every
  action is a function from the old state to the new one. These live in
  `Engine`, `Opening` (start) and `Hints`. The read-only getters live in
  `Board` and `Vacancies`.
- **The object layer.** `Store.Spider` is a class with the store's fields. Its
  methods change those fields step by step, as the store does, with loops
  where the store loops. Each method ends in exactly the state the matching
  function gives. There is one exception: `Store.Spider.Start` ends in
  `Opening.Start`, which keeps the chosen difficulty. The store's own start
  loses it, and that behaviour is `Opening.StartAsWritten` (see Findings).

The lemma modules prove the properties of those functions:

- `MoveFacts`: the outcomes of a move;
- `Invariant`: the board invariant `Board.BoardOk` under fresh moves and deals;
- `UndoFacts`: the board invariant under undo;
- `RoundTrip`: undo after a deal or a move;
- `PressFacts`: card presses;
- `OpeningFacts`: the opening layout;
- `HintFacts`: what the hint list holds and its order.

How the model encodes things:

- **Card values.** A value is its position in `CARD_VALUES`, 0 to 12. "Exactly
  one rank higher" is therefore `+ 1`.
- **Ids.** A card's uuid is a natural number. The card built k-th gets id
  k + 1, and 0 stands for the empty id.
- **Shuffle.** The shuffle is a permutation given as a parameter.
- **Timers.** Each `stutter` timer fan-out runs synchronously: its actions in
  order, then its callback.
- **Throws.** Where the store throws, the model keeps the state reached up to
  that point.

## Model

| member | source | states |
|---|---|---|
| Types.IndexOf | src/types/index.ts:2-16 | The position of a value in CARD_VALUES, or -1 exactly when the value is not a rank |
| Types.CardValuesShape | src/types/index.ts:2-16 | CARD_VALUES has 13 strictly ascending symbols and "C" is not one of them |
| Types.IndexOfRank | src/types/index.ts:2-16 | findIndex on a rank's symbol gives back that rank |
| Types.ValueSymbol | src/types/index.ts:33-47 | A display symbol exists exactly for the 13 values |
| Types.ValueSymbols | src/types/index.ts:33-47 | Every rank shows its face: the ace "A", ranks 1 to 8 the digits 2 to 9, rank 9 "10", then J, Q and K; "C" shows nothing |
| Types.ColorsShape | src/types/index.ts:48-54 | Four distinct suits whose codes are A, B, C and D in CARD_COLORS order, with every suit among them |
| Types.JoinMove | src/types/index.ts:76-92 | A record built from a hint, a move context and the two flags gives back exactly that hint, that context and those flags |
| Types.MoveSplitJoin | src/types/index.ts:76-92 | Every record is the join of its own hint, context and flags: a Move is a Hint and a MoveContext plus turned and isDeal, and nothing more |
| Board.FindCard | src/store/spider.ts:369-372 | The position of the first card with the id, or -1 when no card has it |
| Board.FindFrom | src/store/spider.ts:369-372 | The scan from position i gives the first position at or after i holding the id, or -1 exactly when none from i on holds it |
| Board.GetCard | src/store/spider.ts:369-372 | getCard finds a card exactly when the id is not empty and some card has it, and that card has the id |
| Board.IndexOfId | src/store/spider.ts:230-234 | indexOf: the first position of the id in the column, or -1 exactly when it is absent |
| Board.CardColumnIndex | src/store/spider.ts:373-375 | The first column holding the id, or -1 exactly when no column holds it |
| Board.ColumnCard | src/store/spider.ts:376-382 | The card of the last id of a non-empty column, and nothing for an empty column |
| Board.RunLength | src/store/spider.ts:383-405 | getColumnSequenceLength. What it counts is stated by Board.RunLengthMeaning and RunLengthAtLeast; Store.Spider.GetColumnSequenceLength computes it with the store's loop |
| Board.ChainBelow | src/store/spider.ts:393-403 | The links the while loop counts below a position. Board.ChainBelowMeaning states that it counts exactly the consecutive links and stops at the first broken one |
| Board.RunStart | src/store/spider.ts:279-283 | The id a refused move highlights: the first card of the column's tail run, or the empty id for an empty run. MoveFacts.MoveRejected states when it is highlighted |
| Board.RunLengthMeaning | src/store/spider.ts:383-405 | The sequence length is 0 exactly when the column is empty or its top card is unknown; otherwise it is the longest tail in which every card is face-up and one rank above the card over it, in the same suit |
| Board.RunLengthAtLeast | src/store/spider.ts:383-405 | A linked tail of k cards under a known top card makes the run at least k long |
| Board.ChainBelowMeaning | src/store/spider.ts:393-403 | The while loop counts exactly the consecutive links below a position and stops at the first broken one |
| Board.RunLengthOfPlayColumn | src/store/spider.ts:383-405 | On a valid board a column's run length is 0 exactly when the column is empty, and at least 1 otherwise |
| Board.PlacedOnce | src/store/spider.ts:369-375 | On a valid board every id in a column names a card, lies in that column only and sits at its first position there |
| Sorting.SortBy | src/store/spider.ts:76 | sortBy gives a non-decreasing permutation of its input |
| Sorting.Insert | src/store/spider.ts:76 | Inserting into a sorted list keeps it sorted and adds exactly the one element |
| Sorting.InsertStable | src/store/spider.ts:76 | The inserted element comes after every element with the same key |
| Sorting.SortByStable | src/store/spider.ts:76 | sortBy is stable: the elements with equal keys keep their input order |
| Sorting.Reverse | src/store/spider.ts:115-116 | reverse puts element i at position n - 1 - i |
| Sorting.SortedUnique | src/store/spider.ts:442-445 | Two ascending integer lists with the same elements are equal |
| Vacancies.ByColor | src/store/spider.ts:432-441 | The filter keeps only vacancies of the wanted colour (or only the others) and takes nothing that is not in its input |
| Vacancies.ByColorSplits | src/store/spider.ts:432-441 | The two colour filters together hold every vacancy of the input, each as often as the input does |
| Vacancies.SortVacancies | src/store/spider.ts:432-441 | sortVacancies. Vacancies.SortVacanciesSpec and SortVacanciesStable state that it is a permutation, the order of each half and its stability |
| Vacancies.SortVacanciesSpec | src/store/spider.ts:432-441 | sortVacancies is a permutation of its input: first the vacancies of the card's suit by non-increasing run length, then the others by non-decreasing run length |
| Vacancies.SortVacanciesStable | src/store/spider.ts:432-441 | Vacancies with equal run lengths keep their input order in each half |
| Vacancies.VacancyMap | src/store/spider.ts:442-445 | vacancyMap is the ascending list of the vacancies' column indices |
| Vacancies.VacancyMapOrderFree | src/store/spider.ts:442-445 | Reordering the vacancies does not change their map |
| Vacancies.VacancyMapOfRanking | src/store/spider.ts:163-165 | Ranking the found vacancies leaves their map unchanged, so the repeat check does not depend on the ranking |
| Vacancies.Beneath | src/store/spider.ts:145-148 | The id right under the pressed card in its column, or the empty id when there is none |
| Vacancies.ReferenceCard | src/store/spider.ts:144-148 | The card a column is judged by: another column's top card, or the card beneath the pressed one in its own column. Vacancies.VacancyAt states how it decides the offer |
| Vacancies.Accepts | src/store/spider.ts:149-152 | A column qualifies when its reference card is missing or exactly one rank above the pressed card. Vacancies.VacancyAt states that a vacancy is offered exactly then |
| Vacancies.VacancyAt | src/store/spider.ts:144-160 | A column offers a vacancy exactly when its reference card is missing or exactly one rank above the pressed card, and the vacancy names that column and carries the card's value |
| Vacancies.CollectVacancies | src/store/spider.ts:144-160 | The forEach over the play columns. Vacancies.CollectVacanciesSpec states which columns it collects, once each and in column order |
| Vacancies.CollectVacanciesSpec | src/store/spider.ts:144-160 | The collected vacancies are exactly the accepting columns, each once, in column order, each as that column offers it |
| Vacancies.CollectVacanciesStep | src/store/spider.ts:144-160 | Each step of the forEach appends the current column's offer, if it makes one |
| Vacancies.RankedIndicesBelow | src/store/spider.ts:162 | Ranking keeps the number of vacancies and keeps them naming play columns |
| Vacancies.EqualMapsBounds | src/store/spider.ts:163-165 | Two vacancy lists with equal maps have the same length and name the same columns |
| Engine.Fresh | src/store/spider.ts:40-52 | The default state: no cards, eleven empty columns, no moves, two decks |
| Engine.ResetHints | src/store/spider.ts:128-134 | The hint list is emptied, its cursor set to 0 and the no-hints flag cleared; nothing else changes |
| Engine.WithContext | src/store/spider.ts:219-226 | Installing a context makes it the state's moveContext and changes no other field; installing the state's own context gives the state back |
| Engine.Swapped | src/store/spider.ts:121-124 | reverseMove replays the top record with from and to exchanged and every other field the same |
| Engine.MarkTurned | src/store/spider.ts:243-246 | Only the card getCard finds has its turned flag set; with no such card the cards are unchanged |
| Engine.MarkDealt | src/store/spider.ts:194-199 | Only the card getCard finds has both of its flags set; with no such card the cards are unchanged |
| Engine.TakeBackRow | src/store/spider.ts:191-200 | Each play column loses its top id (an empty one stays empty), and the other columns are untouched |
| Engine.Undo | src/store/spider.ts:190-203 | undo pops the top record, if there is one; without isDeal nothing else changes; with isDeal only the cards and columns change as well |
| Engine.Top | src/store/spider.ts:202 | The popped record is the last one, and there is one exactly when the list is not empty |
| Engine.Deck | src/store/spider.ts:446-448 | The deck holds only undealt cards of the game, none more often than the game does; Invariant.DeckMeaning and Invariant.DeckOrder state that it is exactly the undealt cards, in card order |
| Engine.Ids | src/store/spider.ts:293 | The ids of the cards, in order |
| Engine.DealRow | src/store/spider.ts:295-302 | Each play column gets the next packed id on top, and the other columns are untouched |
| Engine.Rollback | src/store/spider.ts:214-226 | The undo path pops one record and keeps the columns and well-formedness |
| Engine.FaceDownExposed | src/store/spider.ts:239-246 | The card uncovered by the splice, present only when it is face-down |
| Engine.Lift | src/store/spider.ts:239-246 | The column keeps its prefix, the record count stays and only the cards and records may change apart from that |
| Engine.ExtractMove | src/store/spider.ts:255-274 | The automatic move takes the 13th card from the top of the column to the tray, with the current context |
| Engine.Opened | src/store/spider.ts:208-228 | A fresh move pushes its record, and an undo rolls back the top record; the columns stay |
| Engine.PressMove | src/store/spider.ts:176-186 | The record a press passes on names the card, its column, the destination and the current context |
| Engine.Found | src/store/spider.ts:144-160 | The found vacancies name play columns only |
| Engine.NextIndex | src/store/spider.ts:163-175 | The cursor moves to the next entry, and from the last entry back to the first |
| Engine.FirstChoice | src/store/spider.ts:176-186 | A fresh ranking starts at entry 1 exactly when entry 0 is the card's own column, and at entry 0 otherwise |
| Engine.MoveCard | src/store/spider.ts:204-291 | moveCard. Its outcomes are stated by MoveFacts.MoveOntoItself, MoveOfUnplacedCard, MoveRejected and MoveAllowed; MoveFacts.MoveKeepsContext, Invariant.MoveKeepsBoard and UndoFacts.UndoKeepsBoard state what it keeps; RoundTrip.MoveThenUndo states its reversal |
| Engine.Relocate | src/store/spider.ts:230-290 | The body of moveCard after its opening. MoveFacts.MoveOfUnplacedCard, RelocateRefused and MoveAllowed give its fresh outcomes; UndoFacts.RelocateBackIdle and RelocateBackSplices give its undo outcomes |
| Engine.Shift | src/store/spider.ts:235-253 | The splice, then the landing unless the splice throws. MoveFacts.MoveAllowed and UndoFacts.RelocateBackSplices state its result |
| Engine.Land | src/store/spider.ts:247-274 | The suffix lands on the target, then the callback runs on a completed run. MoveFacts.MoveAllowed and RunCarried, RoundTrip.LandBack and UndoFacts.LandBack state its result |
| Engine.Complete | src/store/spider.ts:255-274 | On a completed run a fresh move sends the run to the tray, and an undo undoes the record below. MoveFacts.RunExtracted and UndoFacts.LandBack state it |
| Engine.ReverseMove | src/store/spider.ts:121-124 | reverseMove. RoundTrip.DealThenUndo, MoveThenUndo and UndoRelocation state that it takes back a deal or a move; UndoFacts.ReverseMoveKeepsBoard states when it keeps the board invariant |
| Engine.DealMore | src/store/spider.ts:292-313 | dealMore. Invariant.DealMoreEffect states its effect, Invariant.DealKeepsBoard that it keeps the board invariant, and RoundTrip.DealThenUndo that reverseMove takes it back |
| Engine.PressCard | src/store/spider.ts:135-189 | onCardPressed. PressFacts.PressResetsHints, PressOfPressable, PressKeepsCache and PressKeepsBoard state its effects |
| Engine.Press | src/store/spider.ts:161-187 | The press over the found vacancies. PressFacts.PressIsCycle and PressFresh state which branch it takes and what it stores |
| Engine.Cycle | src/store/spider.ts:163-175 | The repeated press. PressFacts.CycleAdvances and PressRepeat state the cursor's advance; PressFacts.CycleKeepsBoard states that it keeps the board invariant |
| Engine.Choose | src/store/spider.ts:176-186 | The fresh press. PressFacts.ChooseRemembers and FreshTargetAccepts state what it stores and where the card goes; PressFacts.ChooseKeepsBoard states that it keeps the board invariant |
| Hints.GetHints | src/store/spider.ts:67-120 | getHints. HintFacts.GetHintsSteps states its two branches |
| Hints.ComputeHints | src/store/spider.ts:72-116 | The hint search. HintFacts.ComputedContents, ComputedOk and ComputedOrder state what the list holds and its order |
| Hints.Raw | src/store/spider.ts:83-114 | The reduce over the target columns. HintFacts.RawContents states that it collects exactly the admitted hints |
| Hints.Unshifted | src/store/spider.ts:97-111 | The inner forEach over the source columns. HintFacts.UnshiftedContents and UnshiftedHas state what it adds |
| Hints.RunLengths | src/store/spider.ts:72-74 | sequenceLengths holds each play column's run length |
| Hints.TailCards | src/store/spider.ts:77-82 | The cards of a column's tail run, in column order |
| Hints.FindBelow | src/store/spider.ts:86-96 | findIndex gives the first card of the tail that is one rank below the target's top, or -1 exactly when there is none |
| Hints.LastOfTail | src/store/spider.ts:84 | The last card of the target's tail run is its top card, whenever the run is not empty |
| Hints.Offer | src/store/spider.ts:86-111 | The position a source column offers lies within its tail run, or is -1 |
| Hints.HintAt | src/store/spider.ts:97-111 | The hint names the source and target columns |
| Opening.DeckCount | src/store/spider.ts:319-321 | A deck count of 0 keeps the default of two decks; any other count replaces it. OpeningFacts.StartFresh states the resulting deck count |
| Opening.StartWith | src/store/spider.ts:319-361 | start from a reset state with a given difficulty. OpeningFacts.StartWithLayout states its layout |
| Opening.Start | src/store/spider.ts:317-363 | start as intended, keeping the chosen difficulty. OpeningFacts.StartFresh states its result |
| Opening.StartAsWritten | src/store/spider.ts:317-363 | start as written, after a reset that restores the default difficulty. OpeningFacts.StartAsWrittenOneSuit and StartDifficultyLost state what that loses |
| Opening.ColorFor | src/store/spider.ts:327-334 | Easy gives spades only; Medium gives spades for odd suit positions and hearts for even ones; Hard gives the suit's own colour |
| Opening.NewCard | src/store/spider.ts:322-340 | The k-th pushed card has id k + 1, value k mod 13 and the suit for position (k div 13) mod 4, with both flags clear |
| Opening.NewCardAt | src/store/spider.ts:322-340 | The card pushed for deck n, suit position c and value v has exactly that value and suit |
| Opening.BuildCards | src/store/spider.ts:322-340 | The loops push 52 cards per deck, card k being the k-th new card |
| Opening.Shuffle | src/store/spider.ts:341 | Position i of the shuffled deck holds the card built at perm[i] |
| Opening.DealOpening | src/store/spider.ts:342-349 | The first deal keeps the number of cards and of columns |
| Opening.TurnTops | src/store/spider.ts:350-361 | The callback keeps the number of cards |
| OpeningFacts.OpeningTops | src/store/spider.ts:342-361 | The ten top cards after the first deal are exactly the cards at positions 44 to 53 |
| MoveFacts.MoveKeepsContext | src/store/spider.ts:204-291 | A fresh move keeps the state well-formed and never changes the ranking context, the deck count, the difficulty or the hint list |
| MoveFacts.Relocated | src/store/spider.ts:239-253 | Moving a suffix keeps the number of columns |
| MoveFacts.RelocatedColumns | src/store/spider.ts:239-253 | Between two different columns the source keeps its prefix, the target gains the suffix on top, and the other columns stay |
| MoveFacts.MoveOntoItself | src/store/spider.ts:205-207 | A fresh move onto the card's own column changes nothing |
| MoveFacts.MoveOfUnplacedCard | src/store/spider.ts:284-290 | Moving a card that lies in no column pushes the record and pops it again, so nothing changes |
| MoveFacts.FreshMoveOpens | src/store/spider.ts:204-228 | A fresh move between different columns first pushes its record, then goes on to the relocation |
| MoveFacts.MoveRejected | src/store/spider.ts:279-283 | A move of more cards than the column's run is refused: the run's first card is highlighted (nothing when the run is empty) and nothing else changes |
| MoveFacts.RelocateRefused | src/store/spider.ts:279-283 | When the suffix is longer than its play column's tail run, the first card of that run is highlighted and the pushed record is popped again |
| MoveFacts.MoveAllowed | src/store/spider.ts:235-274 | An allowed move carries the suffix over and turns up the card it uncovers; it then moves a completed run on the target to the tray, and otherwise stops there |
| MoveFacts.RunExtracted | src/store/spider.ts:255-274 | The automatic move of a completed run is allowed, and carrying it out is its whole effect: no further run check follows on the tray |
| MoveFacts.RunCarried | src/store/spider.ts:239-274 | The automatic move leaves the column all but its completed run, appends the run to the tray in order, and leaves the other play columns alone |
| Invariant.GetCardSameIds | src/store/spider.ts:369-372 | getCard sees only ids, so flag changes do not change what it finds |
| Invariant.PlacedRelocated | src/store/spider.ts:239-253 | Moving a suffix between columns keeps every placed id, as often as before |
| Invariant.TurnKeepsBoard | src/store/spider.ts:243-246 | Turning up a dealt card keeps the board invariant |
| Invariant.ShiftKeepsBoard | src/store/spider.ts:239-246 | Moving a suffix between columns and turning up the card it uncovers keeps the board invariant |
| Invariant.CarriedKeepsBoard | src/store/spider.ts:239-253 | An allowed move, carried out, keeps the board invariant |
| Invariant.MoveKeepsBoard | src/store/spider.ts:204-291 | Every fresh move keeps the board invariant, including the removal of a completed run |
| Invariant.DealRowSides | src/store/spider.ts:295-302 | The deal changes the cards and the columns independently |
| Invariant.DealCardsMeaning | src/store/spider.ts:298-301 | Exactly the cards with the dealt ids become dealt and face-up |
| Invariant.DealColumnsPlaced | src/store/spider.ts:297 | The deal adds exactly the packed ids to the columns |
| Invariant.DeckIds | src/store/spider.ts:293 | The undealt cards have distinct ids and are cards of the game |
| Invariant.DeckMeaning | src/store/spider.ts:446-448 | The deck holds exactly the undealt cards of the game |
| Invariant.DeckOrder | src/store/spider.ts:446-448 | The filter keeps card order: of two deck entries, the earlier one lies earlier in the card list, so the deck and the cards dealMore takes from it are fixed |
| Invariant.DeckDistinct | src/store/spider.ts:446-448 | The deck's ids are distinct whenever the game's are |
| Invariant.DealKeepsBoard | src/store/spider.ts:292-313 | dealMore keeps the board invariant |
| Invariant.DealMoreEffect | src/store/spider.ts:292-313 | With undealt cards: the first ten go one onto each play column, exactly those become dealt and face-up, the tray is untouched and one deal record is pushed; with none, nothing changes |
| Invariant.DealRowEffect | src/store/spider.ts:295-302 | Dealing a row of distinct undealt ids puts each on top of its play column, keeps the tray, and makes exactly those cards dealt and face-up |
| Invariant.DeckDealable | src/store/spider.ts:293 | The first n undealt cards have distinct ids and can be dealt |
| UndoFacts.FlagsKeepBoard | src/store/spider.ts:214-218 | Changing only turned flags, with every undealt card face-down, keeps the board invariant |
| UndoFacts.TurnDownKeepsBoard | src/store/spider.ts:214-218 | Turning the recorded card face-down again keeps the board invariant |
| UndoFacts.TopOffPlaced | src/store/spider.ts:193 | Popping a column's top id removes exactly one copy of it from the placed ids |
| UndoFacts.UndealFlags | src/store/spider.ts:194-199 | After the card is undealt and face-down, the dealt flags again match the placed ids and every undealt card is face-down |
| UndoFacts.RebuildBoard | src/store/spider.ts:191-200 | The board invariant holds on fewer placed ids for cards with the same ids whose flags match them |
| UndoFacts.UndealKeepsBoard | src/store/spider.ts:194-199 | Undealing the card of an id that leaves the columns keeps the board invariant |
| UndoFacts.TakeOffKeepsBoard | src/store/spider.ts:193-199 | One column giving back its top card, undealt and face-down, keeps the board invariant |
| UndoFacts.TakeBackKeepsBoard | src/store/spider.ts:191-200 | The undo of a deal keeps the board invariant |
| UndoFacts.RollbackKeepsBoard | src/store/spider.ts:214-226 | Popping the top record and turning its noted card face-down keeps the board invariant |
| UndoFacts.SpliceBreaksBoard | src/store/spider.ts:239 | Cutting a column short before one of its ids, with the same dealt flags, breaks the board invariant: that card is dealt but in no column |
| UndoFacts.LandedKeepsBoard | src/store/spider.ts:239-253 | The splice, the flip and the landing of an undo keep the board invariant |
| UndoFacts.LiftedBreaksBoard | src/store/spider.ts:239-246 | The splice alone, when the write to the top record throws after it, breaks the board invariant |
| UndoFacts.RelocateBackIdle | src/store/spider.ts:279-290 | An undo that moves nothing changes only the records and the highlight, not the cards or the columns |
| UndoFacts.RelocateBackSplices | src/store/spider.ts:235-253 | An undo that moves the suffix splices it off, then lands it unless the splice throws |
| UndoFacts.LandBack | src/store/spider.ts:247-262 | The landing of an undo gives the landed state or, when it completes a run and records remain, the undo of the record below, on a shorter stack |
| UndoFacts.RelocateBackKeepsBoard | src/store/spider.ts:230-290 | After the rollback, the undo keeps the board invariant exactly when it does not end in the throw after a splice |
| UndoFacts.UndoKeepsBoard | src/store/spider.ts:204-291 | An undo of a deal or a move keeps the board invariant exactly when it does not end in the throw after a splice |
| UndoFacts.DropBoardSplice | src/store/spider.ts:239-245 | On a board where card 2 lies on the face-down card 1 and the only record says it came from column 1, undoing that record uncovers card 1 on an empty stack, where the write to the top record throws |
| UndoFacts.DropBoardDrops | src/store/spider.ts:121-124 | That board is valid, and reverseMove on it leaves card 2 dealt but in no column, so the board invariant fails |
| UndoFacts.ReverseMoveKeepsBoard | src/store/spider.ts:121-124 | reverseMove keeps the board invariant exactly when the stack is empty or its undo does not end in the throw after a splice |
| RoundTrip.TakeBackSides | src/store/spider.ts:191-200 | When each play column's top is the dealt id, taking back the row unmarks exactly those cards |
| RoundTrip.UndealtMeaning | src/store/spider.ts:194-199 | Exactly the cards taken back become undealt and face-down |
| RoundTrip.DealRowThenTakeBack | src/store/spider.ts:191-200 | Taking back a dealt row restores the cards and the columns |
| RoundTrip.TakeBackColumns | src/store/spider.ts:191-200 | Taking back a dealt row restores the columns |
| RoundTrip.TakeBackCards | src/store/spider.ts:191-200 | Taking back a dealt row of face-down undealt cards restores the cards |
| RoundTrip.UndoDealRecord | src/store/spider.ts:209-213 | reverseMove on a deal record whose row takes back to an earlier state gives back that state |
| RoundTrip.DealThenUndo | src/store/spider.ts:209-213 | reverseMove after dealMore gives back the whole state |
| RoundTrip.RunOfLanded | src/store/spider.ts:235-238 | A suffix taken from within a run is still a run on top of any column |
| RoundTrip.TurnBack | src/store/spider.ts:214-226 | Turning a face-down card up and down again gives back the cards |
| RoundTrip.ReverseLanded | src/store/spider.ts:121-124 | reverseMove turns the recorded card face-down again, moves the suffix back, pops the record and takes the context of the record below |
| RoundTrip.MoveThenUndo | src/store/spider.ts:204-253 | A fresh move between play columns followed by reverseMove gives back the cards, columns and records; a card the move turned up is face-down again; the context is that of the record below |
| RoundTrip.UndoRelocation | src/store/spider.ts:214-253 | reverseMove after a relocation, with or without a turned-up card, gives back the state before it |
| RoundTrip.RelocatedBack | src/store/spider.ts:239-253 | Moving the suffix back restores the columns |
| PressFacts.Ranking | src/store/spider.ts:162 | The ranked vacancies name play columns |
| PressFacts.CycleAdvances | src/store/spider.ts:163-175 | A repeated press keeps the ranking and the card and advances the cursor cyclically |
| PressFacts.ChooseRemembers | src/store/spider.ts:176-186 | A fresh press remembers the card and the ranking, with the cursor at 1 exactly when entry 0 is the card's own column |
| PressFacts.PressKeepsCache | src/store/spider.ts:135-189 | Once the vacancies are found, a press never changes the hints, the deck count or the difficulty |
| PressFacts.CycleKeepsBoard | src/store/spider.ts:163-175 | A repeated press keeps the board invariant |
| PressFacts.ChooseKeepsBoard | src/store/spider.ts:176-186 | A fresh press keeps the board invariant |
| PressFacts.PressKeepsBoard | src/store/spider.ts:135-189 | onCardPressed keeps the board invariant, since whatever it moves is a fresh move |
| PressFacts.PressResetsHints | src/store/spider.ts:136-142 | A press always clears the hint list; an unknown or face-down card, or one with no vacancy, changes nothing else |
| PressFacts.PressFresh | src/store/spider.ts:176-186 | A fresh press stores the ranking and the card and starts the cursor past the card's own column |
| PressFacts.PressIsCycle | src/store/spider.ts:163-175 | A press repeating the last one over the same columns is the cycle |
| PressFacts.PressOfPressable | src/store/spider.ts:136-162 | A face-up card is pressed over the vacancies it finds, after the hints are reset |
| PressFacts.PressRepeat | src/store/spider.ts:163-175 | Pressing the same card again over the same columns keeps the ranking and the card and moves the cursor to the next entry, wrapping to the first |
| PressFacts.FoundAccepts | src/store/spider.ts:144-160 | The found vacancies name distinct play columns in increasing order, and each column accepts the card |
| PressFacts.RankedDistinct | src/store/spider.ts:162 | Ranking keeps the columns distinct and ranks only found vacancies |
| PressFacts.RankingQualifies | src/store/spider.ts:144-162 | Every ranked vacancy names a different play column that accepts the card |
| PressFacts.FreshTargetAccepts | src/store/spider.ts:176-186 | A fresh press moves the card to an accepting play column other than its own; it moves nowhere only when its own column is the only vacancy |
| OpeningFacts.DealtCountStep | src/store/spider.ts:342-349 | Each dealt card adds one to its own column's count only |
| OpeningFacts.DealOpeningCards | src/store/spider.ts:342-349 | The first deal marks the first n cards dealt and changes nothing else about any card |
| OpeningFacts.DealOpeningColumns | src/store/spider.ts:342-349 | Play column c gets the ids of cards c, c + 10, c + 20 and so on, on top of what it held, and the tray stays |
| Board.FindDistinct | src/store/spider.ts:369-372 | With distinct ids, getCard finds each card at its own position |
| OpeningFacts.TurnTopsCards | src/store/spider.ts:350-361 | The callback turns up exactly the top card of each play column |
| OpeningFacts.ShuffledFaces | src/store/spider.ts:322-341 | The shuffled cards have distinct ids; card i has the id, value and suit of the card built at perm[i]; no flag is set |
| OpeningFacts.OpeningColumns | src/store/spider.ts:342-349 | After the first deal the four leftmost play columns hold six cards and the others five, column c from the cards at c, c + 10 and so on; the tray is empty |
| OpeningFacts.DealtOpening | src/store/spider.ts:342-361 | After the first deal and its callback exactly the first 54 cards are dealt, and exactly the cards at 44 to 53 are face-up |
| OpeningFacts.DealtIdsMeaning | src/store/spider.ts:342-349 | With distinct ids, the first n cards' ids are each there once, and no other id is |
| OpeningFacts.DealOpeningPlaced | src/store/spider.ts:342-349 | The first deal adds exactly the ids of the first n cards to the columns |
| OpeningFacts.OpeningBoardOk | src/store/spider.ts:342-361 | The opening layout keeps the board invariant |
| OpeningFacts.StartWithLayout | src/store/spider.ts:319-361 | start lays out the shuffled cards with their faces, the flags of the first deal and the round-robin columns, and the board is valid |
| OpeningFacts.StartFresh | src/store/spider.ts:317-363 | start gives a valid game with the chosen difficulty and deck count, no moves, hints or vacancies, and the suits of that difficulty |
| OpeningFacts.StartAsWrittenOneSuit | src/store/spider.ts:318 | As written, start always plays Easy with spades only |
| OpeningFacts.StartDifficultyLost | src/store/spider.ts:327-334 | On a Hard game a card of the second suit is a heart as intended and a spade as written |
| HintFacts.OfferMeaning | src/store/spider.ts:83-114 | A source column offers to a target exactly when the columns differ, the target's top is known, a tail card is one rank below it and the filter on the run lengths admits it |
| HintFacts.OfferedHintOk | src/store/spider.ts:97-111 | Every admitted hint is sound: two different play columns, a length, and a tail card one rank below the target's top |
| HintFacts.OfferedFromStep | src/store/spider.ts:97-111 | Each source column adds at most its own hint |
| HintFacts.UnshiftedIdle | src/store/spider.ts:84-85 | A target whose tail run has no known top card adds no hint |
| HintFacts.UnshiftedAdmits | src/store/spider.ts:97-110 | A source the filter admits unshifts the hint built from the sequence lengths, which is the search's next step |
| HintFacts.UnshiftedSkips | src/store/spider.ts:97-100 | A source the filter refuses leaves the accumulator as it is |
| HintFacts.HintFromLengths | src/store/spider.ts:101-110 | The hint literal built from sequenceLengths is the hint the search defines |
| HintFacts.UnshiftedContents | src/store/spider.ts:97-111 | The inner forEach adds exactly the admitted hints to the accumulator |
| HintFacts.UnshiftedHas | src/store/spider.ts:97-111 | A hint is in the result of the inner forEach exactly when it was in the accumulator or one of the source columns admits it |
| HintFacts.OfferedStep | src/store/spider.ts:83-114 | Each target column adds its own admitted hints |
| HintFacts.RawContents | src/store/spider.ts:83-114 | The reduce collects exactly the admitted hints |
| HintFacts.OfferedOk | src/store/spider.ts:83-114 | Every admitted hint is sound |
| HintFacts.ComputedContents | src/store/spider.ts:72-116 | The computed list holds the admitted hints, as often as the search found them, and nothing else |
| HintFacts.ComputedOk | src/store/spider.ts:72-116 | Every computed hint is sound |
| HintFacts.ReverseSorted | src/store/spider.ts:115-116 | A sorted list, reversed, is in non-increasing order |
| HintFacts.ComputedOrder | src/store/spider.ts:115-116 | The computed list is longest first |
| HintFacts.GetHintsSteps | src/store/spider.ts:67-120 | getHints changes only the hint state. With a list, it keeps the list and advances the cursor, wrapping after the last entry. Without one, it computes the list, puts the cursor at 0 and raises the no-hints flag when the list is empty |
| Store.Spider.constructor | src/store/spider.ts:62-65 | The store starts in the default state |
| Store.Spider.GetColumnSequenceLength | src/store/spider.ts:383-405 | The loop returns the column's run length |
| Store.Spider.ResetHints | src/store/spider.ts:128-134 | The new state is the hint reset of the old one |
| Store.Spider.Undo | src/store/spider.ts:190-203 | The new state is undo of the old one, and the popped record is returned |
| Store.Spider.TakeBackDealtRow | src/store/spider.ts:191-200 | The take-back loop gives the row the model gives and changes nothing else |
| Store.Spider.DealMore | src/store/spider.ts:292-313 | The new state is dealMore of the old one |
| Store.Spider.DealRowOf | src/store/spider.ts:295-302 | The deal loop gives the row the model gives and changes nothing else |
| Store.Spider.ReverseMove | src/store/spider.ts:121-124 | The new state is reverseMove of the old one |
| Store.Spider.MoveCard | src/store/spider.ts:204-228 | The new state is moveCard of the old one |
| Store.Spider.RollBack | src/store/spider.ts:214-226 | The pop, the turn-down and the context restore give Engine.Rollback of the old state, and the popped record is returned |
| Store.Spider.Relocate | src/store/spider.ts:230-290 | The body of moveCard after its opening ends in the state the model gives |
| Store.Spider.Splice | src/store/spider.ts:239-246 | The splice and flip give the state the model gives, and report whether the write to the top record fails |
| Store.Spider.Land | src/store/spider.ts:247-274 | The stutter and its callback give the state the model gives |
| Store.Spider.OnCardPressed | src/store/spider.ts:135-189 | The new state is the press of the old one |
| Store.Spider.PressWith | src/store/spider.ts:162-188 | Cycling or ranking afresh gives the state the model gives |
| Store.Spider.CollectFound | src/store/spider.ts:144-160 | The loop returns the vacancies the card finds |
| Store.Spider.CycleTo | src/store/spider.ts:163-175 | The cursor advances and the card moves as the cycle gives |
| Store.Spider.ChooseFrom | src/store/spider.ts:176-186 | The ranking is stored and the card moves as a fresh choice gives |
| Store.Spider.GetHints | src/store/spider.ts:67-120 | The cursor advance, or the loops of the search (sequenceLengths, the tail runs, the reduce over the targets) then sortBy and reverse, give getHints of the old state |
| Store.Spider.SequenceLengths | src/store/spider.ts:72-74 | The loop gives the run length of each play column |
| Store.Spider.TailRuns | src/store/spider.ts:77-82 | The loop gives the cards of each play column's tail run |
| Store.Spider.UnshiftOffers | src/store/spider.ts:86-111 | For a target with a known top, the findIndex and forEach loop unshifts exactly the hints Hints.Unshifted adds |
| Store.Spider.Reset | src/store/spider.ts:314-316 | The new state is the default state |
| Store.Spider.Start | src/store/spider.ts:317-363 | The new state is start, with the difficulty kept |
| Store.Spider.DealOpening | src/store/spider.ts:342-349 | The first deal loop gives the model's layout and changes nothing else |
| Store.Spider.TurnTops | src/store/spider.ts:350-361 | The callback loop turns the tops as the model does and changes nothing else |
| Store.Spider.BuildCards | src/store/spider.ts:322-340 | The nested loops build the model's cards |

## Left out

- Timers: `stutter` runs its steps 21 ms apart, and user input could interleave with them. The model runs each fan-out at once, with no interleaving.
- The shuffle (faker's `shuffle`) is a permutation parameter `perm`. Any permutation is allowed.
- `uuid.v4` ids are replaced by the numbers 1, 2, 3 and so on in build order. 0 stands for the empty id.
- The `PlayingCard` class is a record value here. Cards are updated by replacing the record in the card list.
- `rects`, `updateRect` and `activeHint` only serve rendering, and are not modelled.
- `inSequence` is never called by the actions, and is not modelled.
- `activeColumns` is the range of play columns 0 to 9 in each loop that uses it. It is not a separate function.
- `main.ts` and the rendering helpers in `helpers.ts` are not part of this model.
- `reset` (src/store/spider.ts:314-316) copies the default state's arrays by reference, and the first game already mutates them: the pushes at lines 228, 306, 325 and 344 and the splice at line 239 all act on those arrays. Every start after the first therefore begins with the previous game's column ids, records and cards, then adds 52 × decks more cards and deals 54 more ids on top. The model gives a fresh default state on each reset and start.
- Store.Spider.Start: the method implements the intended start, which keeps the chosen difficulty (`Opening.Start`). The store's start as written, which loses it, is `Opening.StartAsWritten`; see Findings.
- Engine.DealMore: a stock of 1 to 9 undealt cards is excluded by a precondition. There the store pushes undefined ids onto the columns past the stock. Such a stock is reachable: with d decks the opening deal leaves 52d − 54 cards, and each deal takes ten, so unless d mod 5 = 2 a last deal finds 2, 4, 6 or 8 cards (with 3 decks, the eleventh deal finds 2).
- Store.Spider.DealMore: the same precondition as Engine.DealMore, which its contract inherits.
- Opening.Start: a deck count of 1, a negative count or a non-integer count is excluded by a precondition (`DeckCount(decks) >= 2`). With one deck the first deal reads past card 52.
- Opening.StartWith: the same deck-count precondition as Opening.Start.
- Opening.StartAsWritten: the same deck-count precondition as Opening.Start.
- Store.Spider.Start: the same deck-count precondition as Opening.Start.
- Vacancies.VacancyMap sorts numbers, while the store sorts their decimal strings. For the column indices 0 to 9 the two orders are the same.
- Throws: a turned-up card with no record to note it in throws after the flip, and reverseMove on an empty stack throws. The model keeps the state reached before each throw; on an empty stack nothing changes. The first throw is possible during an undo that empties the stack. It leaves the spliced ids in no column, so the board invariant fails there; `UndoFacts.DropsRun` names that case and `UndoFacts.UndoKeepsBoard` states that it is the only one. `UndoFacts.DropBoard` is a valid board with that shape, built by hand: the model does not show that synchronous play from `start` reaches it (interleaved timer batches are the likelier route in the store).
- When an undo completes a run, the next undo pops a second record, as in the store.
- Engine.ExtractMove takes the card's id straight from the column, where the store looks it up through `getCard`. On a valid board the two are the same.
- The filter in getHints is modelled as written (`sequenceLengths[index] - n > 0`).
- RoundTrip.MoveThenUndo: the contract covers fresh moves between play columns only. It does not cover a move that completes a run, a move onto the tray, a source column whose run is already 13 long, or a target whose top card is face-down, when the reverse would trigger another flip or removal.

## Findings

| source | as written | input that shows it | evidently intended | confidence | as-written member | corrected member |
|---|---|---|---|---|---|---|
| src/store/spider.ts:318 | `start` calls `reset` first, which sets the difficulty back to EASY before the suits are chosen at lines 327-334 | A Hard game in which perm[i] mod 52 is between 13 and 25: card i comes out a spade | The suits follow the difficulty the player chose | medium, not executed | OpeningFacts.StartDifficultyLost | OpeningFacts.StartFresh |
