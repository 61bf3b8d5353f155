/**
 * What onCardPressed promises: the hint cache is always cleared; an unknown
 * or face-down card, or one with nowhere to go, changes nothing else; a fresh
 * press ranks the vacancies, remembers them and starts the cursor past the
 * card's own column; pressing the same card again over the same columns
 * advances the cursor cyclically.
 */
module PressFacts {
  import opened Types
  import opened Sorting
  import opened Board
  import opened Vacancies
  import opened Engine
  import opened MoveFacts
  import opened Invariant

  /** The pressed card is known and face-up. */
  predicate Pressable(g: Game, uuid: Id)
  {
    GetCard(g.cards, uuid).Some? && GetCard(g.cards, uuid).value.turned
  }

  /** The vacancies the pressed card finds, ranked for its colour. */
  function Ranking(g: Game, uuid: Id): (ranked: seq<Vacancy>)
    requires |g.columns| == ColumnCount && Pressable(g, uuid)
    ensures IndicesBelow(ranked, PlayColumns)
  {
    var card := GetCard(g.cards, uuid).value;
    RankedIndicesBelow(Found(g, card, uuid), card.color, PlayColumns);
    SortVacancies(Found(g, card, uuid), card.color)
  }

  /** The press repeats the previous one: same card, and the same set of destination columns. */
  predicate Repeated(g: Game, uuid: Id)
    requires |g.columns| == ColumnCount && Pressable(g, uuid)
  {
    Repeats(g, uuid, Ranking(g, uuid))
  }

  /** The hint cache, the deck count and the difficulty are the same. */
  predicate SameCache(g: Game, r: Game)
  {
    r.hints == g.hints && r.hintIndex == g.hintIndex && r.noHints == g.noHints
    && r.decks == g.decks && r.difficulty == g.difficulty
  }

  /** A repeated press advances the cursor over the remembered ranking, cyclically. */
  lemma CycleAdvances(g: Game, uuid: Id)
    requires WellFormed(g) && g.vacancies != [] && IndicesBelow(g.vacancies, PlayColumns)
    ensures var r := Cycle(g, uuid);
      && SameCache(g, r)
      && r.vacancies == g.vacancies && r.lastMoved == g.lastMoved
      && r.vacancyIndex == NextIndex(g.vacancyIndex, |g.vacancies|)
  {
    var vi := NextIndex(g.vacancyIndex, |g.vacancies|);
    var g1 := g.(vacancyIndex := vi);
    MoveKeepsContext(g1, PressMove(g1, uuid, g1.vacancies[vi].index));
  }

  /** A fresh press remembers the card and the ranking, with the cursor on its first entry not in the card's column. */
  lemma ChooseRemembers(g: Game, uuid: Id, ranked: seq<Vacancy>)
    requires WellFormed(g) && ranked != [] && IndicesBelow(ranked, PlayColumns)
    ensures var r := Choose(g, uuid, ranked);
      && SameCache(g, r)
      && r.lastMoved == uuid && r.vacancies == ranked
      && r.vacancyIndex == (if ranked[0].index == CardColumnIndex(g.columns, uuid) then 1 else 0)
  {
    var vi := FirstChoice(ranked, CardColumnIndex(g.columns, uuid));
    var g1 := g.(lastMoved := uuid, vacancies := ranked, vacancyIndex := vi);
    if vi < |ranked| {
      MoveKeepsContext(g1, PressMove(g1, uuid, ranked[vi].index));
    }
  }

  /** After the vacancies are found, the cache, the deck count and the difficulty stay. */
  lemma PressKeepsCache(g: Game, card: Card, uuid: Id, found: seq<Vacancy>)
    requires WellFormed(g) && IndicesBelow(found, PlayColumns)
    ensures SameCache(g, Press(g, card, uuid, found))
  {
    if found != [] {
      var ranked := SortVacancies(found, card.color);
      RankedIndicesBelow(found, card.color, PlayColumns);
      if Repeats(g, uuid, ranked) {
        EqualMapsBounds(g.vacancies, ranked, PlayColumns);
        CycleAdvances(g, uuid);
      } else {
        ChooseRemembers(g, uuid, ranked);
      }
    }
  }

  /** A repeated press keeps the board invariant. */
  lemma CycleKeepsBoard(g: Game, uuid: Id)
    requires WellFormed(g) && g.vacancies != [] && IndicesBelow(g.vacancies, PlayColumns)
    requires BoardOk(g.cards, g.columns)
    ensures BoardOk(Cycle(g, uuid).cards, Cycle(g, uuid).columns)
  {
    var vi := NextIndex(g.vacancyIndex, |g.vacancies|);
    var g1 := g.(vacancyIndex := vi);
    MoveKeepsBoard(g1, PressMove(g1, uuid, g1.vacancies[vi].index));
  }

  /** A fresh press keeps the board invariant. */
  lemma ChooseKeepsBoard(g: Game, uuid: Id, ranked: seq<Vacancy>)
    requires WellFormed(g) && ranked != [] && IndicesBelow(ranked, PlayColumns)
    requires BoardOk(g.cards, g.columns)
    ensures BoardOk(Choose(g, uuid, ranked).cards, Choose(g, uuid, ranked).columns)
  {
    var vi := FirstChoice(ranked, CardColumnIndex(g.columns, uuid));
    var g1 := g.(lastMoved := uuid, vacancies := ranked, vacancyIndex := vi);
    if vi < |ranked| {
      MoveKeepsBoard(g1, PressMove(g1, uuid, ranked[vi].index));
    }
  }

  /** onCardPressed keeps the board invariant: whatever it moves is a fresh move. */
  lemma PressKeepsBoard(g: Game, uuid: Id)
    requires WellFormed(g) && BoardOk(g.cards, g.columns)
    ensures BoardOk(PressCard(g, uuid).cards, PressCard(g, uuid).columns)
  {
    var g0 := ResetHints(g);
    if Pressable(g, uuid) {
      var card := GetCard(g.cards, uuid).value;
      var found := Found(g0, card, uuid);
      if found != [] {
        var ranked := SortVacancies(found, card.color);
        RankedIndicesBelow(found, card.color, PlayColumns);
        if Repeats(g0, uuid, ranked) {
          EqualMapsBounds(g0.vacancies, ranked, PlayColumns);
          CycleKeepsBoard(g0, uuid);
        } else {
          ChooseKeepsBoard(g0, uuid, ranked);
        }
      }
    }
  }

  /**
   * onCardPressed always clears the hint cache and never changes the deck
   * count or the difficulty; an unknown or face-down card, or one with no
   * vacancy, changes nothing else.
   */
  lemma PressResetsHints(g: Game, uuid: Id)
    requires WellFormed(g)
    ensures var r := PressCard(g, uuid);
      && r.hints == [] && r.hintIndex == 0 && !r.noHints
      && r.decks == g.decks && r.difficulty == g.difficulty
    ensures !Pressable(g, uuid) || Ranking(g, uuid) == [] ==> PressCard(g, uuid) == ResetHints(g)
  {
    var g0 := ResetHints(g);
    if Pressable(g, uuid) {
      var card := GetCard(g.cards, uuid).value;
      assert Found(g0, card, uuid) == Found(g, card, uuid);
      assert PressCard(g, uuid) == Press(g0, card, uuid, Found(g0, card, uuid));
      PressKeepsCache(g0, card, uuid, Found(g0, card, uuid));
      if Ranking(g, uuid) == [] {
        RankedIndicesBelow(Found(g, card, uuid), card.color, PlayColumns);
      }
    }
  }

  /** A fresh press remembers the card and its ranking; the cursor skips the first entry when that is the card's own column. */
  lemma PressFresh(g: Game, uuid: Id)
    requires WellFormed(g) && Pressable(g, uuid) && Ranking(g, uuid) != [] && !Repeated(g, uuid)
    ensures var r, ranked := PressCard(g, uuid), Ranking(g, uuid);
      && r.lastMoved == uuid && r.vacancies == ranked
      && r.vacancyIndex == (if ranked[0].index == CardColumnIndex(g.columns, uuid) then 1 else 0)
  {
    var g0 := ResetHints(g);
    var card := GetCard(g.cards, uuid).value;
    assert Found(g0, card, uuid) == Found(g, card, uuid);
    RankedIndicesBelow(Found(g, card, uuid), card.color, PlayColumns);
    ChooseRemembers(g0, uuid, Ranking(g, uuid));
  }

  /** A repeated press over found vacancies is the cycle: the cursor advances over the remembered ranking. */
  lemma PressIsCycle(g: Game, card: Card, uuid: Id, found: seq<Vacancy>)
    requires WellFormed(g) && IndicesBelow(found, PlayColumns) && found != []
    requires Repeats(g, uuid, SortVacancies(found, card.color))
    ensures g.vacancies != []
    ensures var r := Press(g, card, uuid, found);
      && SameCache(g, r)
      && r.lastMoved == uuid && r.vacancies == g.vacancies
      && r.vacancyIndex == NextIndex(g.vacancyIndex, |g.vacancies|)
  {
    RankedIndicesBelow(found, card.color, PlayColumns);
    EqualMapsBounds(g.vacancies, SortVacancies(found, card.color), PlayColumns);
    assert Press(g, card, uuid, found) == Cycle(g, uuid);
    CycleAdvances(g, uuid);
  }

  /** Ranking keeps the number of vacancies. */
  lemma RankedLength(found: seq<Vacancy>, c: Color)
    ensures |SortVacancies(found, c)| == |found|
  {
    SortVacanciesSpec(found, c);
    assert |multiset(SortVacancies(found, c))| == |multiset(found)|;
  }

  /** A face-up card is pressed over the vacancies it finds, after the hint cache is cleared. */
  lemma PressOfPressable(g: Game, uuid: Id)
    requires WellFormed(g) && Pressable(g, uuid)
    ensures IndicesBelow(Found(g, GetCard(g.cards, uuid).value, uuid), PlayColumns)
    ensures var card := GetCard(g.cards, uuid).value;
      PressCard(g, uuid) == Press(ResetHints(g), card, uuid, Found(g, card, uuid))
  {
    var card := GetCard(g.cards, uuid).value;
    assert Found(ResetHints(g), card, uuid) == Found(g, card, uuid);
  }

  /** Pressing the same card again over the same columns advances the cursor cyclically over the remembered ranking. */
  lemma PressRepeat(g: Game, uuid: Id)
    requires WellFormed(g) && Pressable(g, uuid) && Ranking(g, uuid) != [] && Repeated(g, uuid)
    ensures g.vacancies != []
    ensures var r := PressCard(g, uuid);
      && r.lastMoved == uuid && r.vacancies == g.vacancies
      && r.vacancyIndex == NextIndex(g.vacancyIndex, |g.vacancies|)
  {
    var card := GetCard(g.cards, uuid).value;
    var found := Found(g, card, uuid);
    RankedLength(found, card.color);
    assert found != [];
    PressOfPressable(g, uuid);
    var g0 := ResetHints(g);
    assert g0.vacancies == g.vacancies && g0.vacancyIndex == g.vacancyIndex;
    assert Repeats(g0, uuid, SortVacancies(found, card.color));
    PressIsCycle(g0, card, uuid, found);
    var r := PressCard(g, uuid);
    assert r == Press(g0, card, uuid, found);
    assert r.vacancyIndex == NextIndex(g0.vacancyIndex, |g0.vacancies|);
  }

  /** The vacancies found lie in distinct play columns, in increasing order, and each column takes the card. */
  lemma FoundAccepts(g: Game, card: Card, uuid: Id)
    requires |g.columns| == ColumnCount
    ensures var f, own := Found(g, card, uuid), CardColumnIndex(g.columns, uuid);
      && (forall i, j :: 0 <= i < j < |f| ==> f[i].index < f[j].index)
      && (forall i :: 0 <= i < |f| ==>
            0 <= f[i].index < PlayColumns && Accepts(ReferenceCard(g.cards, g.columns, uuid, own, f[i].index), card))
  {
    CollectVacanciesSpec(g.cards, g.columns, card, uuid, CardColumnIndex(g.columns, uuid), PlayColumns);
  }

  /** Ranking vacancies in distinct columns keeps them in distinct columns, and ranks only them. */
  lemma RankedDistinct(found: seq<Vacancy>, c: Color)
    requires forall a, b :: 0 <= a < b < |found| ==> found[a].index < found[b].index
    ensures var ranked := SortVacancies(found, c);
      && (forall i, j :: 0 <= i < j < |ranked| ==> ranked[i].index != ranked[j].index)
      && (forall i :: 0 <= i < |ranked| ==> ranked[i] in found)
  {
    SortVacanciesSpec(found, c);
    PermutedDistinct(found, SortVacancies(found, c));
  }

  /** A rearrangement of vacancies in strictly increasing columns has its columns distinct, and holds only those vacancies. */
  lemma PermutedDistinct(found: seq<Vacancy>, ranked: seq<Vacancy>)
    requires forall a, b :: 0 <= a < b < |found| ==> found[a].index < found[b].index
    requires multiset(ranked) == multiset(found)
    ensures forall i, j :: 0 <= i < j < |ranked| ==> ranked[i].index != ranked[j].index
    ensures forall i :: 0 <= i < |ranked| ==> ranked[i] in found
  {
    forall i | 0 <= i < |ranked| ensures ranked[i] in found {
      assert ranked[i] in multiset(found);
    }
    forall i, j | 0 <= i < j < |ranked| ensures ranked[i].index != ranked[j].index {
      if ranked[i].index == ranked[j].index {
        assert ranked[i] in multiset(found) && ranked[j] in multiset(found);
        var p :| 0 <= p < |found| && found[p] == ranked[i];
        var q :| 0 <= q < |found| && found[q] == ranked[j];
        if p < q || q < p {
          assert false;
        }
        TwiceCounted(ranked, i, j);
        OnceCounted(found, p);
        assert false;
      }
    }
  }

  lemma TwiceCounted(vs: seq<Vacancy>, i: nat, j: nat)
    requires i < j < |vs| && vs[i] == vs[j]
    ensures multiset(vs)[vs[i]] >= 2
  {
    assert vs == vs[..i] + [vs[i]] + vs[i + 1..j] + [vs[j]] + vs[j + 1..];
  }

  lemma {:induction false} OnceCounted(vs: seq<Vacancy>, p: nat)
    requires p < |vs| && forall a, b :: 0 <= a < b < |vs| ==> vs[a].index < vs[b].index
    ensures multiset(vs)[vs[p]] == 1
  {
    var n := |vs| - 1;
    assert vs == vs[..n] + [vs[n]];
    if p < n {
      OnceCounted(vs[..n], p);
      assert vs[n] != vs[p];
    } else {
      assert vs[n] !in vs[..n];
    }
  }

  /**
   * Every vacancy of the ranking names a different play column, and each
   * qualifies by its reference card: missing, or exactly one rank above the
   * pressed card.
   */
  lemma RankingQualifies(g: Game, uuid: Id)
    requires |g.columns| == ColumnCount && Pressable(g, uuid)
    ensures var ranked, own, card := Ranking(g, uuid), CardColumnIndex(g.columns, uuid), GetCard(g.cards, uuid).value;
      && (forall i, j :: 0 <= i < j < |ranked| ==> ranked[i].index != ranked[j].index)
      && forall i :: 0 <= i < |ranked| ==>
           0 <= ranked[i].index < PlayColumns && Accepts(ReferenceCard(g.cards, g.columns, uuid, own, ranked[i].index), card)
  {
    var card := GetCard(g.cards, uuid).value;
    var found := Found(g, card, uuid);
    FoundAccepts(g, card, uuid);
    RankedDistinct(found, card.color);
    var ranked := Ranking(g, uuid);
    forall i | 0 <= i < |ranked|
      ensures 0 <= ranked[i].index < PlayColumns
      ensures Accepts(ReferenceCard(g.cards, g.columns, uuid, CardColumnIndex(g.columns, uuid), ranked[i].index), card)
    {
      FoundQualifies(g, card, uuid, found, ranked[i]);
    }
  }

  /** A vacancy among those found names a play column that takes the card. */
  lemma FoundQualifies(g: Game, card: Card, uuid: Id, found: seq<Vacancy>, v: Vacancy)
    requires |g.columns| == ColumnCount && v in found
    requires forall i :: 0 <= i < |found| ==>
      0 <= found[i].index < PlayColumns && Accepts(ReferenceCard(g.cards, g.columns, uuid, CardColumnIndex(g.columns, uuid), found[i].index), card)
    ensures 0 <= v.index < PlayColumns
    ensures Accepts(ReferenceCard(g.cards, g.columns, uuid, CardColumnIndex(g.columns, uuid), v.index), card)
  {
    var p :| 0 <= p < |found| && found[p] == v;
  }

  /** The column a fresh press moves the card to, or -1 when the only vacancy is the card's own column. */
  function FreshTarget(g: Game, uuid: Id): (t: int)
    requires |g.columns| == ColumnCount && Pressable(g, uuid) && Ranking(g, uuid) != []
  {
    var ranked := Ranking(g, uuid);
    var vi := FirstChoice(ranked, CardColumnIndex(g.columns, uuid));
    if vi < |ranked| then ranked[vi].index else -1
  }

  /**
   * A fresh press moves the card to a play column other than its own that
   * takes it (empty, or topped by the next higher rank; in its own column the
   * card beneath it counts); it moves nowhere only when its own column is the
   * one vacancy.
   */
  lemma FreshTargetAccepts(g: Game, uuid: Id)
    requires |g.columns| == ColumnCount && Pressable(g, uuid) && Ranking(g, uuid) != []
    ensures var t, own, card := FreshTarget(g, uuid), CardColumnIndex(g.columns, uuid), GetCard(g.cards, uuid).value;
      && t != own
      && (t >= 0 ==> t < PlayColumns && Accepts(ReferenceCard(g.cards, g.columns, uuid, own, t), card))
      && (t == -1 <==> |Ranking(g, uuid)| == 1 && Ranking(g, uuid)[0].index == own)
  {
    RankingQualifies(g, uuid);
    var ranked := Ranking(g, uuid);
    var own := CardColumnIndex(g.columns, uuid);
    var vi := FirstChoice(ranked, own);
    if vi == 1 && |ranked| > 1 {
      assert ranked[0].index != ranked[1].index;
    }
  }
}
