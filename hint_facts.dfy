/**
 * What getHints promises: asking again only advances the cursor; a computed
 * list holds exactly the moves the search admits, longest first; and every
 * hint moves a card of a column's tail run onto another play column whose
 * top card is one rank higher.
 */
module HintFacts {
  import opened Types
  import opened Sorting
  import opened Board
  import opened Engine
  import opened Hints

  /**
   * Column i offers a card to column index exactly when they differ, column
   * index has a tail run whose top card is known, some card of column i's tail
   * run is one rank below that top, and the first such card's position n in
   * that run is below the run length of column index.
   */
  lemma OfferMeaning(g: Game, index: nat, i: nat)
    requires |g.columns| == ColumnCount && index < PlayColumns && i < PlayColumns
    ensures var n, last, tail := Offer(g, index, i), LastOfTail(g, index), TailCards(g, i);
      && (n >= 0 <==>
            && i != index && last.Some?
            && FindBelow(tail, last.value) >= 0
            && RunLength(g.cards, g.columns[index]) - FindBelow(tail, last.value) > 0)
      && (n >= 0 ==> n == FindBelow(tail, last.value))
  {
  }

  /**
   * A hint is sound: it names two different play columns, carries a length,
   * and its card lies at position n of the source column's tail run, where
   * the length is the two run lengths less n, n is below the target's run
   * length, and the card is one rank below the target column's top card.
   */
  predicate HintOk(g: Game, h: Hint)
    requires |g.columns| == ColumnCount
  {
    && 0 <= h.from < PlayColumns && 0 <= h.to < PlayColumns && h.from != h.to
    && h.length.Some?
    && var from, to := g.columns[h.from], g.columns[h.to];
      var runFrom, runTo := RunLength(g.cards, from), RunLength(g.cards, to);
      var n := runFrom + runTo - h.length.value;
      && 0 <= n < runFrom && n < runTo
      && h.uuid == from[|from| - runFrom + n]
      && GetCard(g.cards, h.uuid).Some? && ColumnCard(g.cards, g.columns, h.to).Some?
      && GetCard(g.cards, h.uuid).value.value + 1 == ColumnCard(g.cards, g.columns, h.to).value.value
  }

  /** Every hint the search admits is sound. */
  lemma OfferedHintOk(g: Game, index: nat, i: nat)
    requires |g.columns| == ColumnCount && index < PlayColumns && i < PlayColumns
    requires Offer(g, index, i) >= 0
    ensures HintOk(g, HintAt(g, index, i, Offer(g, index, i)))
  {
    OfferMeaning(g, index, i);
  }

  /** Source column i admits the hint h for target index. */
  predicate OfferedAt(g: Game, h: Hint, index: nat, i: nat)
    requires |g.columns| == ColumnCount && index < PlayColumns && i < PlayColumns
  {
    Offer(g, index, i) >= 0 && h == HintAt(g, index, i, Offer(g, index, i))
  }

  /** The hints the search admits for target index from the source columns 0 .. k-1. */
  predicate OfferedFrom(g: Game, h: Hint, index: nat, k: nat)
    requires |g.columns| == ColumnCount && index < PlayColumns && k <= PlayColumns
  {
    exists i :: 0 <= i < k && OfferedAt(g, h, index, i)
  }

  /** One more source column admits at most its own hint. */
  lemma OfferedFromStep(g: Game, h: Hint, index: nat, k: nat)
    requires |g.columns| == ColumnCount && index < PlayColumns && 0 < k <= PlayColumns
    ensures OfferedFrom(g, h, index, k) <==> OfferedFrom(g, h, index, k - 1) || OfferedAt(g, h, index, k - 1)
  {
    if OfferedFrom(g, h, index, k) {
      var i :| 0 <= i < k && OfferedAt(g, h, index, i);
      if i < k - 1 {
        assert OfferedFrom(g, h, index, k - 1);
      }
    }
    if OfferedFrom(g, h, index, k - 1) {
      var i :| 0 <= i < k - 1 && OfferedAt(g, h, index, i);
      assert 0 <= i < k && OfferedAt(g, h, index, i);
    }
    if OfferedAt(g, h, index, k - 1) {
      assert 0 <= k - 1 < k;
    }
  }

  /** A target column whose tail run has no known top card adds no hint (the `if (last)` of the reduce). */
  lemma {:induction false} UnshiftedIdle(g: Game, acc: seq<Hint>, index: nat, k: nat)
    requires |g.columns| == ColumnCount && index < PlayColumns && k <= PlayColumns
    requires LastOfTail(g, index).None?
    ensures Unshifted(g, acc, index, k) == acc
  {
    if k > 0 {
      UnshiftedIdle(g, acc, index, k - 1);
    }
  }

  /** The hint for position n of column i's tail run, written out from the run lengths. */
  lemma HintAtShape(g: Game, index: nat, i: nat, n: nat)
    requires |g.columns| == ColumnCount && index < PlayColumns && i < PlayColumns
    requires n < RunLength(g.cards, g.columns[i])
    ensures var col, a := g.columns[i], RunLength(g.cards, g.columns[i]);
      HintAt(g, index, i, n) == Hint(i, index, col[|col| - a + n], Some(a - n + RunLength(g.cards, g.columns[index])))
  {
  }

  /**
   * One step of the forEach for target index, as the store computes it from
   * the sequence lengths and tail runs: n is the findIndex (or -1 for the
   * target itself); when the filter admits it, the hint is unshifted.
   */
  lemma UnshiftedAdmits(g: Game, cols: seq<seq<Id>>, acc0: seq<Hint>, index: nat, i: nat, lens: seq<nat>,
                        tails: seq<seq<Option<Card>>>, last: Card, n: int, acc: seq<Hint>)
    requires |g.columns| == ColumnCount && cols == g.columns && index < PlayColumns && i < PlayColumns
    requires lens == RunLengths(g) && |tails| == PlayColumns && tails[i] == TailCards(g, i)
    requires LastOfTail(g, index) == Some(last)
    requires n == if i == index then -1 else FindBelow(tails[i], last)
    requires n > -1 && lens[index] - n > 0
    requires acc == Unshifted(g, acc0, index, i)
    ensures 0 <= |cols[i]| - lens[i] + n < |cols[i]|
    ensures [Hint(i, index, cols[i][|cols[i]| - lens[i] + n], Some(lens[i] - n + lens[index]))] + acc
      == Unshifted(g, acc0, index, i + 1)
  {
    assert n == Offer(g, index, i);
    assert lens[i] == RunLength(g.cards, g.columns[i]) && lens[index] == RunLength(g.cards, g.columns[index]);
    HintFromLengths(g, cols, index, i, n, lens);
    assert Unshifted(g, acc0, index, i + 1) == [HintAt(g, index, i, n)] + acc;
    ConsEqual(Hint(i, index, cols[i][|cols[i]| - lens[i] + n], Some(lens[i] - n + lens[index])),
              HintAt(g, index, i, n), acc);
  }

  lemma ConsEqual<T>(x: T, y: T, s: seq<T>)
    requires x == y
    ensures [x] + s == [y] + s
  {
  }

  /** The hint the store builds from the sequence lengths is HintAt. */
  lemma HintFromLengths(g: Game, cols: seq<seq<Id>>, index: nat, i: nat, n: nat, lens: seq<nat>)
    requires |g.columns| == ColumnCount && cols == g.columns && index < PlayColumns && i < PlayColumns
    requires lens == RunLengths(g) && n < lens[i]
    ensures 0 <= |cols[i]| - lens[i] + n < |cols[i]|
    ensures Hint(i, index, cols[i][|cols[i]| - lens[i] + n], Some(lens[i] - n + lens[index])) == HintAt(g, index, i, n)
  {
    HintAtShape(g, index, i, n);
  }

  /** The same step when the filter refuses: the accumulator is unchanged. */
  lemma UnshiftedSkips(g: Game, acc: seq<Hint>, index: nat, i: nat, lens: seq<nat>, tails: seq<seq<Option<Card>>>, last: Card, n: int)
    requires |g.columns| == ColumnCount && index < PlayColumns && i < PlayColumns
    requires lens == RunLengths(g) && |tails| == PlayColumns && tails[i] == TailCards(g, i)
    requires LastOfTail(g, index) == Some(last)
    requires n == if i == index then -1 else FindBelow(tails[i], last)
    requires !(n > -1 && lens[index] - n > 0)
    ensures Unshifted(g, acc, index, i + 1) == Unshifted(g, acc, index, i)
  {
    assert Offer(g, index, i) == -1;
  }

  /** The forEach for target index adds exactly the admitted hints to the accumulator. */
  lemma UnshiftedContents(g: Game, acc: seq<Hint>, index: nat, k: nat)
    requires |g.columns| == ColumnCount && index < PlayColumns && k <= PlayColumns
    ensures forall h :: h in Unshifted(g, acc, index, k) <==> h in acc || OfferedFrom(g, h, index, k)
  {
    forall h ensures h in Unshifted(g, acc, index, k) <==> h in acc || OfferedFrom(g, h, index, k) {
      UnshiftedHas(g, acc, index, k, h);
    }
  }

  /** One hint is in the result of the forEach exactly when it was in the accumulator or is admitted. */
  lemma {:induction false} UnshiftedHas(g: Game, acc: seq<Hint>, index: nat, k: nat, h: Hint)
    requires |g.columns| == ColumnCount && index < PlayColumns && k <= PlayColumns
    ensures h in Unshifted(g, acc, index, k) <==> h in acc || OfferedFrom(g, h, index, k)
  {
    if k > 0 {
      UnshiftedHas(g, acc, index, k - 1, h);
      OfferedFromStep(g, h, index, k);
      UnshiftedStep(g, acc, index, k, h);
    } else {
      assert !OfferedFrom(g, h, index, 0);
    }
  }

  /** The step of the forEach adds the hint of column k - 1 exactly when that column admits it. */
  lemma UnshiftedStep(g: Game, acc: seq<Hint>, index: nat, k: nat, h: Hint)
    requires |g.columns| == ColumnCount && index < PlayColumns && 0 < k <= PlayColumns
    ensures h in Unshifted(g, acc, index, k) <==> h in Unshifted(g, acc, index, k - 1) || OfferedAt(g, h, index, k - 1)
  {
    var prev := Unshifted(g, acc, index, k - 1);
    var n := Offer(g, index, k - 1);
    if n >= 0 {
      var x := HintAt(g, index, k - 1, n);
      assert Unshifted(g, acc, index, k) == [x] + prev;
      ConsHas(x, prev, h);
      assert OfferedAt(g, h, index, k - 1) <==> h == x;
    } else {
      assert Unshifted(g, acc, index, k) == prev;
      assert !OfferedAt(g, h, index, k - 1);
    }
  }

  lemma ConsHas<T>(x: T, s: seq<T>, h: T)
    ensures h in [x] + s <==> h == x || h in s
  {
    assert ([x] + s)[0] == x;
    assert ([x] + s)[1..] == s;
  }

  /** The hints the search admits for the target columns 0 .. t-1. */
  predicate Offered(g: Game, h: Hint, t: nat)
    requires |g.columns| == ColumnCount && t <= PlayColumns
  {
    exists index :: 0 <= index < t && OfferedFrom(g, h, index, PlayColumns)
  }

  /** One more target column admits its own hints. */
  lemma OfferedStep(g: Game, h: Hint, t: nat)
    requires |g.columns| == ColumnCount && 0 < t <= PlayColumns
    ensures Offered(g, h, t) <==> Offered(g, h, t - 1) || OfferedFrom(g, h, t - 1, PlayColumns)
  {
    if Offered(g, h, t) {
      var index :| 0 <= index < t && OfferedFrom(g, h, index, PlayColumns);
      if index < t - 1 {
        assert Offered(g, h, t - 1);
      }
    }
  }

  /** The reduce collects exactly the admitted hints. */
  lemma {:induction false} RawContents(g: Game, t: nat)
    requires |g.columns| == ColumnCount && t <= PlayColumns
    ensures forall h :: h in Raw(g, t) <==> Offered(g, h, t)
  {
    if t > 0 {
      RawContents(g, t - 1);
      UnshiftedContents(g, Raw(g, t - 1), t - 1, PlayColumns);
      forall h ensures h in Raw(g, t) <==> Offered(g, h, t) {
        OfferedStep(g, h, t);
      }
    }
  }

  /** Every admitted hint is sound. */
  lemma OfferedOk(g: Game, h: Hint)
    requires |g.columns| == ColumnCount && Offered(g, h, PlayColumns)
    ensures HintOk(g, h)
  {
    var index :| 0 <= index < PlayColumns && OfferedFrom(g, h, index, PlayColumns);
    var i :| 0 <= i < PlayColumns && Offer(g, index, i) >= 0 && h == HintAt(g, index, i, Offer(g, index, i));
    OfferedHintOk(g, index, i);
  }

  /** The computed list is the admitted hints rearranged: the same ones, as often as the search found them. */
  lemma ComputedContents(g: Game)
    requires |g.columns| == ColumnCount
    ensures var hints := ComputeHints(g);
      && multiset(hints) == multiset(Raw(g, PlayColumns))
      && forall h :: h in hints <==> Offered(g, h, PlayColumns)
  {
    var raw := Raw(g, PlayColumns);
    var hints := ComputeHints(g);
    ReverseMultiset(SortBy(raw, LengthKey));
    RawContents(g, PlayColumns);
    forall h ensures h in hints <==> h in raw {
      assert h in hints <==> h in multiset(hints);
      assert h in raw <==> h in multiset(raw);
    }
  }

  /** Every computed hint is sound. */
  lemma ComputedOk(g: Game)
    requires |g.columns| == ColumnCount
    ensures forall h :: h in ComputeHints(g) ==> HintOk(g, h)
  {
    ComputedContents(g);
    forall h | h in ComputeHints(g) ensures HintOk(g, h) {
      OfferedOk(g, h);
    }
  }

  /** A sorted list reversed is in non-increasing key order. */
  lemma ReverseSorted<T>(s: seq<T>, key: T -> int)
    requires Sorted(s, key)
    ensures forall i, j :: 0 <= i < j < |s| ==> key(Reverse(s)[i]) >= key(Reverse(s)[j])
  {
    var r := Reverse(s);
    forall i, j | 0 <= i < j < |s| ensures key(r[i]) >= key(r[j]) {
      assert r[i] == s[|s| - 1 - i] && r[j] == s[|s| - 1 - j];
    }
  }

  /** The computed list is longest first. */
  lemma ComputedOrder(g: Game)
    requires |g.columns| == ColumnCount
    ensures var hints := ComputeHints(g);
      forall i, j :: 0 <= i < j < |hints| ==> LengthKey(hints[i]) >= LengthKey(hints[j])
  {
    ReverseSorted(SortBy(Raw(g, PlayColumns), LengthKey), LengthKey);
  }

  /**
   * getHints changes only the hint cache. With a list already, it keeps the
   * list and moves the cursor to the next entry, wrapping after the last;
   * otherwise it computes the list, puts the cursor on its first entry and
   * raises the no-hints flag when the list is empty.
   */
  lemma GetHintsSteps(g: Game)
    requires WellFormed(g)
    ensures var r := GetHints(g);
      && WellFormed(r)
      && r.(hints := g.hints, hintIndex := g.hintIndex, noHints := g.noHints) == g
      && (g.hints != [] ==>
            && r.hints == g.hints && r.noHints == g.noHints && 0 <= r.hintIndex < |g.hints|
            && (g.hintIndex < |g.hints| - 1 ==> r.hintIndex == g.hintIndex + 1)
            && (g.hintIndex == |g.hints| - 1 ==> r.hintIndex == 0))
      && (g.hints == [] ==>
            && r.hints == ComputeHints(g) && r.hintIndex == 0
            && r.noHints == (r.hints == [] || g.noHints))
  {
  }
}
