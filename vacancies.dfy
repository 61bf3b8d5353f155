/**
 * Destination selection of the Spider store: which play columns can take a
 * pressed card (the vacancies), how they are ranked (sortVacancies) and the
 * order-free comparison of two rankings (vacancyMap).
 */
module Vacancies {
  import opened Types
  import opened Seqs
  import opened Sorting
  import opened Board

  /** The vacancies with colour c (when same) or with another colour (when not same), in input order. */
  function ByColor(vs: seq<Vacancy>, c: Color, same: bool): (r: seq<Vacancy>)
    ensures forall i :: 0 <= i < |r| ==> (r[i].color == c <==> same)
    ensures multiset(r) <= multiset(vs)
  {
    if vs == [] then []
    else
      assert vs == [vs[0]] + vs[1..];
      (if (vs[0].color == c) == same then [vs[0]] else []) + ByColor(vs[1..], c, same)
  }

  lemma {:induction false} ByColorSplits(vs: seq<Vacancy>, c: Color)
    ensures multiset(ByColor(vs, c, true)) + multiset(ByColor(vs, c, false)) == multiset(vs)
  {
    if vs != [] {
      var h, tail := vs[0], vs[1..];
      var mine, others := multiset(ByColor(tail, c, true)), multiset(ByColor(tail, c, false));
      ByColorSplits(tail, c);
      assert multiset(vs) == multiset{h} + multiset(tail) by {
        HeadSplit(vs);
      }
      if h.color == c {
        assert multiset(ByColor(vs, c, true)) == multiset{h} + mine by {
          assert ByColor(vs, c, true) == [h] + ByColor(tail, c, true);
        }
        assert ByColor(vs, c, false) == ByColor(tail, c, false);
      } else {
        assert ByColor(vs, c, true) == ByColor(tail, c, true);
        assert multiset(ByColor(vs, c, false)) == multiset{h} + others by {
          assert ByColor(vs, c, false) == [h] + ByColor(tail, c, false);
        }
      }
    }
  }

  function DescendingKey(v: Vacancy): int { -v.sequence }
  function AscendingKey(v: Vacancy): int { v.sequence }

  /**
   * sortVacancies: the vacancies of colour c by non-increasing run length,
   * then the others by non-decreasing run length; both sorts are stable.
   */
  function SortVacancies(vs: seq<Vacancy>, c: Color): (r: seq<Vacancy>)
  {
    SortBy(ByColor(vs, c, true), DescendingKey) + SortBy(ByColor(vs, c, false), AscendingKey)
  }

  /** The number of vacancies of colour c. */
  function CountColor(vs: seq<Vacancy>, c: Color): nat
  {
    |ByColor(vs, c, true)|
  }

  /** Every entry of s has colour c (when same) or another colour (when not same). */
  predicate AllColor(s: seq<Vacancy>, c: Color, same: bool)
  {
    forall i :: 0 <= i < |s| ==> (s[i].color == c <==> same)
  }

  lemma AllColorPermutation(s: seq<Vacancy>, t: seq<Vacancy>, c: Color, same: bool)
    requires AllColor(s, c, same) && multiset(t) == multiset(s)
    ensures AllColor(t, c, same)
  {
    forall i | 0 <= i < |t| ensures (t[i].color == c <==> same) {
      assert t[i] in multiset(s);
      var p :| 0 <= p < |s| && s[p] == t[i];
    }
  }

  predicate NonIncreasing(s: seq<Vacancy>)
  {
    forall i, j :: 0 <= i < j < |s| ==> s[i].sequence >= s[j].sequence
  }

  predicate NonDecreasing(s: seq<Vacancy>)
  {
    forall i, j :: 0 <= i < j < |s| ==> s[i].sequence <= s[j].sequence
  }

  lemma SortedDescending(s: seq<Vacancy>)
    ensures NonIncreasing(SortBy(s, DescendingKey))
  {
    var a := SortBy(s, DescendingKey);
    forall i, j | 0 <= i < j < |a| ensures a[i].sequence >= a[j].sequence {
      assert DescendingKey(a[i]) <= DescendingKey(a[j]);
    }
  }

  lemma SortedAscending(s: seq<Vacancy>)
    ensures NonDecreasing(SortBy(s, AscendingKey))
  {
    var b := SortBy(s, AscendingKey);
    forall i, j | 0 <= i < j < |b| ensures b[i].sequence <= b[j].sequence {
      assert AscendingKey(b[i]) <= AscendingKey(b[j]);
    }
  }

  /**
   * The ranking is a permutation of its input; the first CountColor(vs, c)
   * entries are exactly those of colour c, in non-increasing sequence; the
   * rest have other colours, in non-decreasing sequence.
   */
  lemma SortVacanciesSpec(vs: seq<Vacancy>, c: Color)
    ensures var r, k := SortVacancies(vs, c), CountColor(vs, c);
      && multiset(r) == multiset(vs)
      && k <= |r|
      && AllColor(r[..k], c, true) && AllColor(r[k..], c, false)
      && NonIncreasing(r[..k]) && NonDecreasing(r[k..])
  {
    var same, other := ByColor(vs, c, true), ByColor(vs, c, false);
    var a, b := SortBy(same, DescendingKey), SortBy(other, AscendingKey);
    ByColorSplits(vs, c);
    AllColorPermutation(same, a, c, true);
    AllColorPermutation(other, b, c, false);
    SortedDescending(same);
    SortedAscending(other);
    var r := a + b;
    assert r == SortVacancies(vs, c);
    assert r[..|a|] == a && r[|a|..] == b;
  }

  /**
   * Ties keep their input order: for every run length, the same-colour (and
   * the other-colour) vacancies with that length appear in the ranking in
   * their input order. (The first part is keyed by the negated length.)
   */
  lemma SortVacanciesStable(vs: seq<Vacancy>, c: Color, n: int)
    ensures var r, k := SortVacancies(vs, c), CountColor(vs, c);
      && KeyFilter(r[..k], DescendingKey, n) == KeyFilter(ByColor(vs, c, true), DescendingKey, n)
      && KeyFilter(r[k..], AscendingKey, n) == KeyFilter(ByColor(vs, c, false), AscendingKey, n)
  {
    var same, other := ByColor(vs, c, true), ByColor(vs, c, false);
    var a, b := SortBy(same, DescendingKey), SortBy(other, AscendingKey);
    var r := a + b;
    assert r == SortVacancies(vs, c);
    assert CountColor(vs, c) == |a|;
    assert r[..|a|] == a && r[|a|..] == b;
    SortByStable(same, DescendingKey, n);
    SortByStable(other, AscendingKey, n);
  }

  /** The column indices of the vacancies, in order. */
  function Indices(vs: seq<Vacancy>): (r: seq<int>)
    ensures |r| == |vs|
    ensures forall i :: 0 <= i < |vs| ==> r[i] == vs[i].index
  {
    if vs == [] then [] else [vs[0].index] + Indices(vs[1..])
  }

  lemma {:induction false} IndicesAppend(vs: seq<Vacancy>, v: Vacancy)
    ensures Indices(vs + [v]) == Indices(vs) + [v.index]
  {
    assert |Indices(vs + [v])| == |vs| + 1;
  }

  function IdentityKey(x: int): int { x }

  /**
   * vacancyMap: the sorted list of the vacancies' column indices. The source
   * sorts the decimal strings; for the indices 0 to 9 vacancies carry that is
   * numeric order.
   */
  function VacancyMap(vs: seq<Vacancy>): (r: seq<int>)
    ensures Ascending(r)
    ensures multiset(r) == multiset(Indices(vs))
  {
    var r := SortBy(Indices(vs), IdentityKey);
    assert forall i, j | 0 <= i < j < |r| :: IdentityKey(r[i]) <= IdentityKey(r[j]);
    r
  }

  /** Reordering the vacancies does not change their map, so the comparison in onCardPressed is order-free. */
  lemma VacancyMapOrderFree(a: seq<Vacancy>, b: seq<Vacancy>)
    requires multiset(a) == multiset(b)
    ensures VacancyMap(a) == VacancyMap(b)
  {
    IndicesPermutation(a, b);
    SortedUnique(VacancyMap(a), VacancyMap(b));
  }

  lemma IndicesPermutation(a: seq<Vacancy>, b: seq<Vacancy>)
    requires multiset(a) == multiset(b)
    ensures multiset(Indices(a)) == multiset(Indices(b))
  {
    ProjectPermutation(a, b, (v: Vacancy) => v.index);
    assert Indices(a) == Project(a, (v: Vacancy) => v.index);
    assert Indices(b) == Project(b, (v: Vacancy) => v.index);
  }

  /** Ranking leaves the map unchanged. */
  lemma VacancyMapOfRanking(vs: seq<Vacancy>, c: Color)
    ensures VacancyMap(SortVacancies(vs, c)) == VacancyMap(vs)
  {
    SortVacanciesSpec(vs, c);
    VacancyMapOrderFree(SortVacancies(vs, c), vs);
  }

  // ---------------------------------------------------------------------------
  // Collecting the vacancies for a pressed card

  /** The id directly beneath uuid in col (col[col.indexOf(uuid) - 1]), or the empty id. */
  function Beneath(col: seq<Id>, uuid: Id): (b: Id)
    ensures var k := IndexOfId(col, uuid); b == if k >= 1 then col[k - 1] else NoId
  {
    var k := IndexOfId(col, uuid);
    if k >= 1 then col[k - 1] else NoId
  }

  /**
   * The card a candidate column is judged by: for another column its top card;
   * for the pressed card's own column the card directly beneath it.
   */
  function ReferenceCard(cards: seq<Card>, columns: seq<seq<Id>>, uuid: Id, columnIndex: int, index: nat): Option<Card>
    requires index < |columns|
  {
    if index != columnIndex then ColumnCard(cards, columns, index)
    else GetCard(cards, Beneath(columns[index], uuid))
  }

  /** A column qualifies when its reference card is missing or exactly one rank above the pressed card. */
  predicate Accepts(reference: Option<Card>, card: Card)
  {
    reference.None? || reference.value.value == card.value + 1
  }

  /** The vacancy column index offers the pressed card, if it qualifies. */
  function VacancyAt(cards: seq<Card>, columns: seq<seq<Id>>, card: Card, uuid: Id, columnIndex: int, index: nat): (v: Option<Vacancy>)
    requires index < |columns|
    ensures v.Some? <==> Accepts(ReferenceCard(cards, columns, uuid, columnIndex, index), card)
    ensures v.Some? ==> v.value.index == index && v.value.value == card.value
  {
    var reference := ReferenceCard(cards, columns, uuid, columnIndex, index);
    if Accepts(reference, card) then
      Some(Vacancy(index, RunLength(cards, columns[index]),
                   if reference.Some? then reference.value.color else card.color, card.value))
    else None
  }

  /** What each of the columns 0 .. n-1 offers the pressed card. */
  function Offers(cards: seq<Card>, columns: seq<seq<Id>>, card: Card, uuid: Id, columnIndex: int, n: nat): (o: seq<Option<Vacancy>>)
    requires n <= |columns|
    ensures |o| == n
    ensures forall k :: 0 <= k < n ==> o[k] == VacancyAt(cards, columns, card, uuid, columnIndex, k)
  {
    seq(n, k requires 0 <= k < n => VacancyAt(cards, columns, card, uuid, columnIndex, k))
  }

  /** The offered vacancies, in column order. */
  function Present(offers: seq<Option<Vacancy>>): (r: seq<Vacancy>)
  {
    if offers == [] then []
    else
      var n := |offers| - 1;
      Present(offers[..n]) + (if offers[n].Some? then [offers[n].value] else [])
  }

  /** Each offer names its own column. */
  predicate SelfIndexed(offers: seq<Option<Vacancy>>)
  {
    forall k :: 0 <= k < |offers| && offers[k].Some? ==> offers[k].value.index == k
  }

  /** Every present vacancy is the Some entry at its own column. */
  lemma {:induction false} PresentFrom(offers: seq<Option<Vacancy>>)
    requires SelfIndexed(offers)
    ensures forall i :: 0 <= i < |Present(offers)| ==>
      0 <= Present(offers)[i].index < |offers| && offers[Present(offers)[i].index] == Some(Present(offers)[i])
  {
    if offers != [] {
      var n := |offers| - 1;
      assert SelfIndexed(offers[..n]);
      PresentFrom(offers[..n]);
      forall i | 0 <= i < |Present(offers[..n])|
        ensures offers[..n][Present(offers[..n])[i].index] == offers[Present(offers[..n])[i].index]
      {
      }
    }
  }

  /** The present vacancies are in strictly increasing column order. */
  lemma {:induction false} PresentOrdered(offers: seq<Option<Vacancy>>)
    requires SelfIndexed(offers)
    ensures forall i, j :: 0 <= i < j < |Present(offers)| ==> Present(offers)[i].index < Present(offers)[j].index
  {
    if offers != [] {
      var n := |offers| - 1;
      assert SelfIndexed(offers[..n]);
      PresentOrdered(offers[..n]);
      PresentFrom(offers[..n]);
    }
  }

  /** A column is among the present vacancies exactly when its entry is Some. */
  lemma {:induction false} PresentExactly(offers: seq<Option<Vacancy>>)
    requires SelfIndexed(offers)
    ensures forall k :: 0 <= k < |offers| ==> (k in Indices(Present(offers)) <==> offers[k].Some?)
  {
    if offers != [] {
      var n := |offers| - 1;
      assert SelfIndexed(offers[..n]);
      PresentExactly(offers[..n]);
      PresentFrom(offers[..n]);
      assert n !in Indices(Present(offers[..n]));
      var tail := if offers[n].Some? then [offers[n].value] else [];
      assert Present(offers) == Present(offers[..n]) + tail;
      IndicesAppendAll(Present(offers[..n]), tail);
      forall k | 0 <= k < n ensures offers[..n][k] == offers[k] {
      }
    }
  }

  lemma {:induction false} IndicesAppendAll(a: seq<Vacancy>, b: seq<Vacancy>)
    requires |b| <= 1
    ensures Indices(a + b) == Indices(a) + Indices(b)
  {
    if b == [] { assert a + b == a; } else { IndicesAppend(a, b[0]); assert b == [b[0]]; }
  }

  /** The vacancies of columns 0 .. n-1 in column order (the forEach over the play columns in onCardPressed). */
  function CollectVacancies(cards: seq<Card>, columns: seq<seq<Id>>, card: Card, uuid: Id, columnIndex: int, n: nat): (r: seq<Vacancy>)
    requires n <= |columns|
  {
    Present(Offers(cards, columns, card, uuid, columnIndex, n))
  }

  /**
   * The collected vacancies are exactly the qualifying columns among 0 .. n-1,
   * each once and in column order, each as its column offers it (its run
   * length, the colour it lands on and the pressed card's value).
   */
  lemma CollectVacanciesSpec(cards: seq<Card>, columns: seq<seq<Id>>, card: Card, uuid: Id, columnIndex: int, n: nat)
    requires n <= |columns|
    ensures var r := CollectVacancies(cards, columns, card, uuid, columnIndex, n);
      && (forall i :: 0 <= i < |r| ==> 0 <= r[i].index < n)
      && (forall i, j :: 0 <= i < j < |r| ==> r[i].index < r[j].index)
      && (forall i :: 0 <= i < |r| ==> VacancyAt(cards, columns, card, uuid, columnIndex, r[i].index) == Some(r[i]))
      && (forall k :: 0 <= k < n ==>
            (k in Indices(r) <==> Accepts(ReferenceCard(cards, columns, uuid, columnIndex, k), card)))
  {
    var o := Offers(cards, columns, card, uuid, columnIndex, n);
    PresentFrom(o);
    PresentOrdered(o);
    PresentExactly(o);
  }

  /** Every vacancy names a play column among 0 .. n-1. */
  predicate IndicesBelow(vs: seq<Vacancy>, n: int)
  {
    forall i :: 0 <= i < |vs| ==> 0 <= vs[i].index < n
  }

  /** Ranking the collected vacancies keeps them naming columns 0 .. n-1. */
  lemma RankedIndicesBelow(vs: seq<Vacancy>, c: Color, n: int)
    requires IndicesBelow(vs, n)
    ensures IndicesBelow(SortVacancies(vs, c), n) && |SortVacancies(vs, c)| == |vs|
  {
    var r := SortVacancies(vs, c);
    SortVacanciesSpec(vs, c);
    assert |r| == |vs| by { assert |multiset(r)| == |multiset(vs)|; }
    forall i | 0 <= i < |r| ensures 0 <= r[i].index < n {
      assert r[i] in multiset(vs);
    }
  }

  /** Two vacancy lists with equal maps have the same length and name the same columns. */
  lemma EqualMapsBounds(a: seq<Vacancy>, b: seq<Vacancy>, n: int)
    requires VacancyMap(a) == VacancyMap(b) && IndicesBelow(b, n)
    ensures |a| == |b| && IndicesBelow(a, n)
  {
    assert multiset(Indices(a)) == multiset(Indices(b));
    assert |a| == |b| by {
      assert |multiset(Indices(a))| == |multiset(Indices(b))|;
    }
    forall i | 0 <= i < |a| ensures 0 <= a[i].index < n {
      assert Indices(a)[i] in multiset(Indices(b));
      var j :| 0 <= j < |b| && Indices(b)[j] == Indices(a)[i];
    }
  }

  /** One more column: its offer, if any, is appended (the step of the forEach in onCardPressed). */
  lemma CollectVacanciesStep(cards: seq<Card>, columns: seq<seq<Id>>, card: Card, uuid: Id, columnIndex: int, n: nat)
    requires n < |columns|
    ensures var here := VacancyAt(cards, columns, card, uuid, columnIndex, n);
      CollectVacancies(cards, columns, card, uuid, columnIndex, n + 1)
      == CollectVacancies(cards, columns, card, uuid, columnIndex, n) + (if here.Some? then [here.value] else [])
  {
    var o := Offers(cards, columns, card, uuid, columnIndex, n + 1);
    assert o[..n] == Offers(cards, columns, card, uuid, columnIndex, n);
  }
}
