/**
 * What start produces: the shuffled cards keep their faces; the first 54 are
 * dealt round-robin, so the four leftmost play columns hold six cards and the
 * other six hold five; exactly the ten top cards are face-up; and the suits
 * follow the difficulty only when the reset keeps it.
 */
module OpeningFacts {
  import opened Seqs
  import opened Types
  import opened Board
  import opened Engine
  import opened Opening

  /** The same cards, position by position, up to the dealt and turned flags. */
  predicate SameFaces(a: seq<Card>, b: seq<Card>)
  {
    |a| == |b|
    && forall i :: 0 <= i < |a| ==> a[i].id == b[i].id && a[i].value == b[i].value && a[i].color == b[i].color
  }

  /** The number of the first n cards that the round-robin deal puts on play column c. */
  function DealtCount(n: nat, c: nat): nat
  {
    n / 10 + (if c < n % 10 then 1 else 0)
  }

  /** Dealing one more card adds one to its own column's count and nothing to the others. */
  lemma DealtCountStep(n: nat, c: nat)
    requires n > 0 && c < PlayColumns
    ensures c == (n - 1) % 10 ==> DealtCount(n, c) == DealtCount(n - 1, c) + 1 && DealtCount(n - 1, c) == (n - 1) / 10
    ensures c != (n - 1) % 10 ==> DealtCount(n, c) == DealtCount(n - 1, c)
  {
    var q, r := (n - 1) / 10, (n - 1) % 10;
    assert n - 1 == 10 * q + r;
    if r < 9 {
      assert n / 10 == q && n % 10 == r + 1;
    } else {
      assert n / 10 == q + 1 && n % 10 == 0;
    }
  }

  /** The first deal marks the first n cards dealt and changes nothing else about any card. */
  lemma {:induction false} DealOpeningCards(cards: seq<Card>, columns: seq<seq<Id>>, n: nat)
    requires n <= |cards| && |columns| == ColumnCount
    ensures var r := DealOpening(cards, columns, n).cards;
      && SameFaces(r, cards)
      && forall i :: 0 <= i < |r| ==> r[i].dealt == (i < n || cards[i].dealt) && r[i].turned == cards[i].turned
  {
    if n > 0 {
      DealOpeningCards(cards, columns, n - 1);
    }
  }

  /**
   * After the first n cards are dealt, play column c holds its old cards and
   * then the ids of cards c, c + 10, c + 20, …; the tray is untouched.
   */
  lemma {:induction false} DealOpeningColumns(cards: seq<Card>, columns: seq<seq<Id>>, n: nat)
    requires n <= |cards| && |columns| == ColumnCount
    ensures var r := DealOpening(cards, columns, n).columns;
      && r[Tray] == columns[Tray]
      && forall c :: 0 <= c < PlayColumns ==>
           && |r[c]| == |columns[c]| + DealtCount(n, c)
           && r[c][..|columns[c]|] == columns[c]
           && forall j :: 0 <= j < DealtCount(n, c) ==> r[c][|columns[c]| + j] == cards[c + 10 * j].id
  {
    if n > 0 {
      DealOpeningColumns(cards, columns, n - 1);
      var prev := DealOpening(cards, columns, n - 1);
      var r := DealOpening(cards, columns, n).columns;
      var i := n - 1;
      assert prev.cards[i].id == cards[i].id by {
        DealOpeningCards(cards, columns, n - 1);
      }
      assert r == prev.columns[i % 10 := prev.columns[i % 10] + [cards[i].id]];
      forall c | 0 <= c < PlayColumns
        ensures |r[c]| == |columns[c]| + DealtCount(n, c)
        ensures r[c][..|columns[c]|] == columns[c]
        ensures forall j :: 0 <= j < DealtCount(n, c) ==> r[c][|columns[c]| + j] == cards[c + 10 * j].id
      {
        DealColumnStep(cards, n, c, columns[c], prev.columns[c], r[c]);
      }
    }
  }

  /** One step of the first deal, seen from play column c. */
  lemma DealColumnStep(cards: seq<Card>, n: nat, c: nat, base: seq<Id>, before: seq<Id>, after: seq<Id>)
    requires 0 < n <= |cards| && c < PlayColumns
    requires |before| == |base| + DealtCount(n - 1, c) && before[..|base|] == base
    requires forall j :: 0 <= j < DealtCount(n - 1, c) ==> before[|base| + j] == cards[c + 10 * j].id
    requires after == if c == (n - 1) % 10 then before + [cards[n - 1].id] else before
    ensures |after| == |base| + DealtCount(n, c) && after[..|base|] == base
    ensures forall j :: 0 <= j < DealtCount(n, c) ==> after[|base| + j] == cards[c + 10 * j].id
  {
    DealtCountStep(n, c);
    if c == (n - 1) % 10 {
      var i := n - 1;
      assert i == c + 10 * (i / 10);
      PrefixOfSnoc(before, cards[i].id, |base|);
    }
  }

  /**
   * The callback of the first deal turns face-up the top card of each of the
   * first n columns, when column c's top is the card at position tops[c], and
   * changes nothing else about any card.
   */
  lemma {:induction false} TurnTopsCards(cards: seq<Card>, columns: seq<seq<Id>>, n: nat, tops: seq<nat>)
    requires n <= |columns| && n <= |tops| && IdsDistinct(cards)
    requires forall c :: 0 <= c < n ==> tops[c] < |cards| && columns[c] != [] && columns[c][|columns[c]| - 1] == cards[tops[c]].id
    ensures var r := TurnTops(cards, columns, n);
      && SameFaces(r, cards)
      && forall i :: 0 <= i < |r| ==> r[i].dealt == cards[i].dealt && r[i].turned == (cards[i].turned || i in tops[..n])
  {
    if n > 0 {
      TurnTopsCards(cards, columns, n - 1, tops);
      var prev := TurnTops(cards, columns, n - 1);
      var t := tops[n - 1];
      SameFacesDistinct(prev, cards);
      TurnTopStep(cards, columns, n, prev, t);
      PrefixSnoc(tops, n);
      TurnedAt(prev, cards, t, tops[..n - 1], tops[..n]);
    }
  }

  /** Cards with the same faces as distinct cards are distinct. */
  lemma SameFacesDistinct(a: seq<Card>, b: seq<Card>)
    requires SameFaces(a, b) && IdsDistinct(b)
    ensures IdsDistinct(a)
  {
  }

  /** The n-th step of the callback turns up the card at t, the top of column n - 1. */
  lemma TurnTopStep(cards: seq<Card>, columns: seq<seq<Id>>, n: nat, prev: seq<Card>, t: nat)
    requires 0 < n <= |columns| && prev == TurnTops(cards, columns, n - 1)
    requires IdsDistinct(prev) && t < |prev|
    requires columns[n - 1] != [] && columns[n - 1][|columns[n - 1]| - 1] == prev[t].id
    ensures TurnTops(cards, columns, n) == prev[t := prev[t].(turned := true)]
  {
    FindDistinct(prev, t);
    assert ColumnCard(prev, columns, n - 1) == Some(prev[t]);
  }

  /** Turning up the card at t adds t to the turned positions and keeps the faces. */
  lemma TurnedAt(prev: seq<Card>, cards: seq<Card>, t: nat, before: seq<nat>, after: seq<nat>)
    requires SameFaces(prev, cards) && t < |prev| && after == before + [t]
    requires forall i :: 0 <= i < |prev| ==> prev[i].dealt == cards[i].dealt && prev[i].turned == (cards[i].turned || i in before)
    ensures var r := prev[t := prev[t].(turned := true)];
      && SameFaces(r, cards)
      && forall i :: 0 <= i < |r| ==> r[i].dealt == cards[i].dealt && r[i].turned == (cards[i].turned || i in after)
  {
    var r := prev[t := prev[t].(turned := true)];
    forall i | 0 <= i < |r| ensures r[i].dealt == cards[i].dealt && r[i].turned == (cards[i].turned || i in after) {
      assert i in after <==> i in before || i == t;
    }
  }

  /** The position of the top card of play column c after the first deal. */
  function OpeningTop(c: nat): nat
  {
    if c < 4 then 50 + c else 40 + c
  }

  /** The ten top positions: exactly the positions 44 .. 53. */
  function OpeningTops(): (tops: seq<nat>)
    ensures |tops| == PlayColumns
    ensures forall i: nat :: i in tops <==> 44 <= i < OpeningDeal
  {
    var tops := seq(PlayColumns, c requires 0 <= c => OpeningTop(c));
    forall i: nat | 44 <= i < OpeningDeal ensures i in tops {
      if i < 50 {
        assert tops[i - 40] == i;
      } else {
        assert tops[i - 50] == i;
      }
    }
    tops
  }

  /**
   * The shuffled cards: position i holds the card built at perm[i], so its id
   * is perm[i] + 1, its value perm[i] mod 13 and its suit the one the
   * difficulty gives that card's suit position; no two share an id.
   */
  lemma ShuffledFaces(d: Difficulty, count: nat, perm: seq<nat>)
    requires IsPermutation(perm, 52 * count)
    ensures var s := Shuffle(BuildCards(d, count), perm);
      && |s| == 52 * count && IdsDistinct(s)
      && forall i :: 0 <= i < |s| ==>
           && s[i].id == perm[i] + 1 && s[i].value == perm[i] % 13
           && s[i].color == ColorFor(d, (perm[i] / 13) % 4)
           && !s[i].dealt && !s[i].turned
  {
  }

  /**
   * The first deal on empty columns: play column c holds the cards at c,
   * c + 10, …, six of them in the four leftmost columns and five in the
   * others, topped by the card at OpeningTop(c); the tray stays empty.
   */
  lemma OpeningColumns(cards: seq<Card>, columns: seq<seq<Id>>)
    requires OpeningDeal <= |cards|
    requires |columns| == ColumnCount && forall c :: 0 <= c < ColumnCount ==> columns[c] == []
    ensures var dealt := DealOpening(cards, columns, OpeningDeal);
      && dealt.columns[Tray] == []
      && forall c :: 0 <= c < PlayColumns ==>
           && |dealt.columns[c]| == (if c < 4 then 6 else 5)
           && (forall j :: 0 <= j < |dealt.columns[c]| ==> dealt.columns[c][j] == cards[c + 10 * j].id)
           && dealt.columns[c][|dealt.columns[c]| - 1] == cards[OpeningTop(c)].id
  {
    var dealt := DealOpening(cards, columns, OpeningDeal);
    DealOpeningColumns(cards, columns, OpeningDeal);
    forall c | 0 <= c < PlayColumns
      ensures |dealt.columns[c]| == (if c < 4 then 6 else 5)
      ensures forall j :: 0 <= j < |dealt.columns[c]| ==> dealt.columns[c][j] == cards[c + 10 * j].id
    {
      assert DealtCount(OpeningDeal, c) == (if c < 4 then 6 else 5);
    }
  }

  /** The first deal and its callback on fresh cards: the first 54 are dealt and the ten tops among them face-up. */
  lemma DealtOpening(cards: seq<Card>, columns: seq<seq<Id>>)
    requires OpeningDeal <= |cards| && IdsDistinct(cards)
    requires forall i :: 0 <= i < |cards| ==> !cards[i].dealt && !cards[i].turned
    requires |columns| == ColumnCount && forall c :: 0 <= c < ColumnCount ==> columns[c] == []
    ensures var dealt := DealOpening(cards, columns, OpeningDeal);
      var r := TurnTops(dealt.cards, dealt.columns, PlayColumns);
      && SameFaces(r, cards)
      && forall i :: 0 <= i < |r| ==> r[i].dealt == (i < OpeningDeal) && r[i].turned == (44 <= i < OpeningDeal)
  {
    var dealt := DealOpening(cards, columns, OpeningDeal);
    DealOpeningCards(cards, columns, OpeningDeal);
    OpeningColumns(cards, columns);
    var tops := OpeningTops();
    assert IdsDistinct(dealt.cards);
    TurnTopsCards(dealt.cards, dealt.columns, PlayColumns, tops);
    assert tops[..PlayColumns] == tops;
  }

  /** The ids of the first n cards, with multiplicity. */
  function DealtIds(cards: seq<Card>, n: nat): multiset<Id>
    requires n <= |cards|
  {
    if n == 0 then multiset{} else DealtIds(cards, n - 1) + multiset{cards[n - 1].id}
  }

  /** With distinct ids, the first n cards' ids are each there once, and no other id is. */
  lemma {:induction false} DealtIdsMeaning(cards: seq<Card>, n: nat)
    requires n <= |cards| && IdsDistinct(cards)
    ensures forall k :: 0 <= k < |cards| ==> DealtIds(cards, n)[cards[k].id] == if k < n then 1 else 0
    ensures forall id :: id in DealtIds(cards, n) ==> exists k :: 0 <= k < n && cards[k].id == id
  {
    if n > 0 {
      DealtIdsMeaning(cards, n - 1);
    }
  }

  /** Empty columns place nothing. */
  lemma {:induction false} PlacedEmpty(columns: seq<seq<Id>>)
    requires forall c :: 0 <= c < |columns| ==> columns[c] == []
    ensures Placed(columns) == multiset{}
  {
    if columns != [] {
      PlacedEmpty(columns[..|columns| - 1]);
    }
  }

  /** The first n cards dealt add exactly their ids to the columns. */
  lemma {:induction false} DealOpeningPlaced(cards: seq<Card>, columns: seq<seq<Id>>, n: nat)
    requires n <= |cards| && |columns| == ColumnCount
    ensures Placed(DealOpening(cards, columns, n).columns) == Placed(columns) + DealtIds(cards, n)
  {
    if n > 0 {
      DealOpeningStep(cards, columns, n);
      DealOpeningPlaced(cards, columns, n - 1);
      PlacedDealStep(DealOpening(cards, columns, n - 1).columns, DealOpening(cards, columns, n).columns,
                     (n - 1) % 10, cards[n - 1].id, Placed(columns), DealtIds(cards, n - 1));
    }
  }

  /** One more id on top of a column adds it to the ids dealt so far. */
  lemma PlacedDealStep(prev: seq<seq<Id>>, next: seq<seq<Id>>, k: nat, id: Id, base: multiset<Id>, dealt: multiset<Id>)
    requires k < |prev| && next == prev[k := prev[k] + [id]] && Placed(prev) == base + dealt
    ensures Placed(next) == base + (dealt + multiset{id})
  {
    PlacedPushOne(prev, k, id);
  }

  /** Card n - 1 of the first deal goes on top of column (n - 1) mod 10. */
  lemma DealOpeningStep(cards: seq<Card>, columns: seq<seq<Id>>, n: nat)
    requires 0 < n <= |cards| && |columns| == ColumnCount
    ensures var prev, k := DealOpening(cards, columns, n - 1).columns, (n - 1) % 10;
      DealOpening(cards, columns, n).columns == prev[k := prev[k] + [cards[n - 1].id]]
  {
    DealOpeningCards(cards, columns, n - 1);
  }

  /** One more id on top of a column adds it to the placed ids. */
  lemma PlacedPushOne(columns: seq<seq<Id>>, c: nat, id: Id)
    requires c < |columns|
    ensures Placed(columns[c := columns[c] + [id]]) == Placed(columns) + multiset{id}
  {
    PlacedUpdate(columns, c, columns[c] + [id]);
    PlacedHas(columns, c);
    assert multiset(columns[c] + [id]) == multiset(columns[c]) + multiset{id};
    SubAdd(Placed(columns), multiset(columns[c]), multiset{id});
  }

  lemma SubAdd<T>(p: multiset<T>, a: multiset<T>, b: multiset<T>)
    requires a <= p
    ensures p - a + (a + b) == p + b
  {
  }

  /** The first deal on fresh cards and empty columns leaves a board that keeps the board invariant. */
  lemma OpeningBoardOk(cards: seq<Card>, columns: seq<seq<Id>>)
    requires OpeningDeal <= |cards| && IdsDistinct(cards)
    requires forall i :: 0 <= i < |cards| ==> !cards[i].dealt && !cards[i].turned
    requires |columns| == ColumnCount && forall c :: 0 <= c < ColumnCount ==> columns[c] == []
    ensures var dealt := DealOpening(cards, columns, OpeningDeal);
      BoardOk(TurnTops(dealt.cards, dealt.columns, PlayColumns), dealt.columns)
  {
    var dealt := DealOpening(cards, columns, OpeningDeal);
    var r := TurnTops(dealt.cards, dealt.columns, PlayColumns);
    DealtOpening(cards, columns);
    PlacedEmpty(columns);
    DealOpeningPlaced(cards, columns, OpeningDeal);
    DealtIdsMeaning(cards, OpeningDeal);
    assert Placed(dealt.columns) == DealtIds(cards, OpeningDeal);
    assert IdsDistinct(r);
    forall id ensures Placed(dealt.columns)[id] <= 1 {
      if id in DealtIds(cards, OpeningDeal) {
        var p :| 0 <= p < OpeningDeal && cards[p].id == id;
      }
    }
    forall id | id in Placed(dealt.columns) ensures GetCard(r, id).Some? {
      var p :| 0 <= p < OpeningDeal && cards[p].id == id;
      FindDistinct(r, p);
    }
  }

  /**
   * start after the reset: the cards are the shuffled ones with their faces
   * and the flags of the first deal, laid out as the first deal leaves them.
   */
  lemma StartWithLayout(reset: Game, d: Difficulty, decks: int, perm: seq<nat>)
    requires |reset.columns| == ColumnCount && forall c :: 0 <= c < ColumnCount ==> reset.columns[c] == []
    requires DeckCount(decks) >= 2 && IsPermutation(perm, 52 * DeckCount(decks))
    ensures var r := StartWith(reset, d, decks, perm);
      && |r.cards| == 52 * DeckCount(decks) && IdsDistinct(r.cards)
      && (forall i :: 0 <= i < |r.cards| ==>
            && r.cards[i].id == perm[i] + 1 && r.cards[i].value == perm[i] % 13
            && r.cards[i].color == ColorFor(d, (perm[i] / 13) % 4)
            && r.cards[i].dealt == (i < OpeningDeal)
            && r.cards[i].turned == (44 <= i < OpeningDeal))
      && r.columns[Tray] == []
      && (forall c :: 0 <= c < PlayColumns ==>
           && |r.columns[c]| == (if c < 4 then 6 else 5)
           && forall j :: 0 <= j < |r.columns[c]| ==> r.columns[c][j] == r.cards[c + 10 * j].id)
      && BoardOk(r.cards, r.columns)
  {
    var cards := Shuffle(BuildCards(d, DeckCount(decks)), perm);
    ShuffledFaces(d, DeckCount(decks), perm);
    DealtOpening(cards, reset.columns);
    OpeningColumns(cards, reset.columns);
    OpeningBoardOk(cards, reset.columns);
    var dealt := DealOpening(cards, reset.columns, OpeningDeal);
    var r := StartWith(reset, d, decks, perm);
    assert r.cards == TurnTops(dealt.cards, dealt.columns, PlayColumns) && r.columns == dealt.columns;
  }

  /**
   * start as intended: a fresh game with the chosen difficulty and deck
   * count, no moves and no hints, the cards built for that difficulty and
   * laid out by the first deal.
   */
  lemma StartFresh(g: Game, decks: int, perm: seq<nat>)
    requires DeckCount(decks) >= 2 && IsPermutation(perm, 52 * DeckCount(decks))
    ensures var r := Start(g, decks, perm);
      && WellFormed(r) && BoardOk(r.cards, r.columns) && r.moves == [] && r.hints == [] && r.vacancies == []
      && r.decks == DeckCount(decks) && r.difficulty == g.difficulty
      && |r.cards| == 52 * DeckCount(decks)
      && forall i :: 0 <= i < |r.cards| ==> r.cards[i].color == ColorFor(g.difficulty, (perm[i] / 13) % 4)
  {
    StartWithLayout(Fresh().(difficulty := g.difficulty), g.difficulty, decks, perm);
  }

  /** start as written: whatever difficulty was chosen, the game is Easy and every card is a spade. */
  lemma StartAsWrittenOneSuit(g: Game, decks: int, perm: seq<nat>)
    requires DeckCount(decks) >= 2 && IsPermutation(perm, 52 * DeckCount(decks))
    ensures var r := StartAsWritten(g, decks, perm);
      && r.difficulty == Easy
      && forall i :: 0 <= i < |r.cards| ==> r.cards[i].color == Spades
  {
    StartWithLayout(Fresh(), Easy, decks, perm);
  }

  /**
   * The two disagree on a Hard game: a card built in the second suit of its
   * deck is a heart as intended, a spade as written.
   */
  lemma StartDifficultyLost(g: Game, decks: int, perm: seq<nat>, i: nat)
    requires DeckCount(decks) >= 2 && IsPermutation(perm, 52 * DeckCount(decks))
    requires g.difficulty == Hard && i < |perm| && 13 <= perm[i] % 52 < 26
    ensures i < |Start(g, decks, perm).cards| && i < |StartAsWritten(g, decks, perm).cards|
    ensures Start(g, decks, perm).cards[i].color == Hearts
    ensures StartAsWritten(g, decks, perm).cards[i].color == Spades
  {
    StartFresh(g, decks, perm);
    StartAsWrittenOneSuit(g, decks, perm);
    SecondSuit(perm[i]);
  }

  /** A card built at p with p mod 52 in 13 .. 25 is of the second suit position. */
  lemma SecondSuit(p: nat)
    requires 13 <= p % 52 < 26
    ensures (p / 13) % 4 == 1
  {
    var q, r := p / 52, p % 52;
    assert p == 13 * (4 * q + 1) + (r - 13);
    assert p / 13 == 4 * q + 1;
    assert (4 * q + 1) % 4 == 1;
  }
}
