/**
 * Stable sorting by an integer key. The store sorts with Array.prototype.sort
 * (stable) and lodash sortBy (stable); a stable sort's output is determined by
 * its input, so one definition, an insertion sort, stands for both.
 */
module Sorting {
  import opened Seqs

  /** s is in non-decreasing key order. */
  predicate Sorted<T>(s: seq<T>, key: T -> int)
  {
    forall i, j :: 0 <= i < j < |s| ==> key(s[i]) <= key(s[j])
  }

  /** The subsequence of s whose key is k. */
  function KeyFilter<T>(s: seq<T>, key: T -> int, k: int): seq<T>
  {
    if s == [] then []
    else (if key(s[0]) == k then [s[0]] else []) + KeyFilter(s[1..], key, k)
  }

  /** Inserts x after every element whose key is not greater than its own. */
  function Insert<T>(x: T, s: seq<T>, key: T -> int): (r: seq<T>)
    requires Sorted(s, key)
    ensures Sorted(r, key)
    ensures multiset(r) == multiset(s) + multiset{x}
    ensures |r| == |s| + 1
    ensures r[0] == x || (s != [] && r[0] == s[0])
  {
    if s == [] then [x]
    else if key(x) < key(s[0]) then [x] + s
    else
      SortedTail(s, key);
      var t := Insert(x, s[1..], key);
      assert s == [s[0]] + s[1..];
      assert key(s[0]) <= key(t[0]) by {
        if t[0] != x {
          assert t[0] == s[1];
        }
      }
      SortedCons(s[0], t, key);
      [s[0]] + t
  }

  lemma SortedTail<T>(s: seq<T>, key: T -> int)
    requires Sorted(s, key) && s != []
    ensures Sorted(s[1..], key)
  {
    forall i, j | 0 <= i < j < |s| - 1 ensures key(s[1..][i]) <= key(s[1..][j]) {
      assert s[1..][i] == s[i + 1] && s[1..][j] == s[j + 1];
    }
  }

  lemma SortedCons<T>(x: T, t: seq<T>, key: T -> int)
    requires Sorted(t, key) && t != [] && key(x) <= key(t[0])
    ensures Sorted([x] + t, key)
  {
    forall i, j | 0 <= i < j < |t| + 1 ensures key(([x] + t)[i]) <= key(([x] + t)[j]) {
      if i == 0 {
        assert key(t[0]) <= key(t[j - 1]) || j == 1;
      }
    }
  }

  /** The stable sort of s by key, in non-decreasing order. */
  function SortBy<T>(s: seq<T>, key: T -> int): (r: seq<T>)
    ensures Sorted(r, key)
    ensures multiset(r) == multiset(s)
    ensures |r| == |s|
  {
    if s == [] then []
    else
      var n := |s| - 1;
      assert s == s[..n] + [s[n]];
      Insert(s[n], SortBy(s[..n], key), key)
  }

  function Reverse<T>(s: seq<T>): (r: seq<T>)
    ensures |r| == |s|
    ensures forall i :: 0 <= i < |s| ==> r[i] == s[|s| - 1 - i]
  {
    if s == [] then [] else Reverse(s[1..]) + [s[0]]
  }

  lemma {:induction false} ReverseMultiset<T>(s: seq<T>)
    ensures multiset(Reverse(s)) == multiset(s)
  {
    if s != [] {
      ReverseMultiset(s[1..]);
      assert s == [s[0]] + s[1..];
    }
  }

  lemma {:induction false} KeyFilterAppend<T>(a: seq<T>, b: seq<T>, key: T -> int, k: int)
    ensures KeyFilter(a + b, key, k) == KeyFilter(a, key, k) + KeyFilter(b, key, k)
  {
    if a == [] {
      assert a + b == b;
    } else {
      var head := if key(a[0]) == k then [a[0]] else [];
      assert (a + b)[0] == a[0];
      assert (a + b)[1..] == a[1..] + b;
      KeyFilterAppend(a[1..], b, key, k);
      assert KeyFilter(a + b, key, k) == head + KeyFilter(a[1..] + b, key, k);
      assert KeyFilter(a, key, k) == head + KeyFilter(a[1..], key, k);
    }
  }

  lemma {:induction false} InsertStable<T>(x: T, s: seq<T>, key: T -> int, k: int)
    requires Sorted(s, key)
    ensures KeyFilter(Insert(x, s, key), key, k)
         == KeyFilter(s, key, k) + (if key(x) == k then [x] else [])
  {
    if s == [] {
    } else if key(x) < key(s[0]) {
      InsertFrontStable(x, s, key, k);
    } else {
      SortedTail(s, key);
      InsertStable(x, s[1..], key, k);
      assert Insert(x, s, key) == [s[0]] + Insert(x, s[1..], key);
      ConsFilter(s, Insert(x, s[1..], key), if key(x) == k then [x] else [], key, k);
    }
  }

  /** Insertion in front of every element keeps the filters. */
  lemma InsertFrontStable<T>(x: T, s: seq<T>, key: T -> int, k: int)
    requires Sorted(s, key) && s != [] && key(x) < key(s[0])
    ensures KeyFilter(Insert(x, s, key), key, k)
         == KeyFilter(s, key, k) + (if key(x) == k then [x] else [])
  {
    assert Insert(x, s, key) == [x] + s;
    KeyFilterCons(x, s, key, k);
    if key(x) == k {
      KeyFilterAboveEmpty(s, key, k);
    }
  }

  /** Putting the first element back in front of t keeps the filters when t is the rest with extra appended. */
  lemma ConsFilter<T>(s: seq<T>, t: seq<T>, extra: seq<T>, key: T -> int, k: int)
    requires s != [] && KeyFilter(t, key, k) == KeyFilter(s[1..], key, k) + extra
    ensures KeyFilter([s[0]] + t, key, k) == KeyFilter(s, key, k) + extra
  {
    var head, rest := (if key(s[0]) == k then [s[0]] else []), KeyFilter(s[1..], key, k);
    KeyFilterCons(s[0], t, key, k);
    assert KeyFilter(s, key, k) == head + rest by {
      assert s == [s[0]] + s[1..];
      KeyFilterCons(s[0], s[1..], key, k);
    }
    ConcatAssoc(head, rest, extra);
  }

  /** The filter of a sequence with a given first element. */
  lemma KeyFilterCons<T>(x: T, s: seq<T>, key: T -> int, k: int)
    ensures KeyFilter([x] + s, key, k) == (if key(x) == k then [x] else []) + KeyFilter(s, key, k)
  {
    assert ([x] + s)[1..] == s;
  }

  /** In a sorted sequence whose first key exceeds m, no element has key m. */
  lemma {:induction false} KeyFilterAboveEmpty<T>(s: seq<T>, key: T -> int, m: int)
    requires Sorted(s, key) && s != [] && m < key(s[0])
    ensures KeyFilter(s, key, m) == []
  {
    if |s| > 1 {
      assert Sorted(s[1..], key);
      KeyFilterAboveEmpty(s[1..], key, m);
    }
  }

  /**
   * Stability: for every key, the elements with that key keep their relative
   * order, so ties come out in input order.
   */
  lemma {:induction false} SortByStable<T>(s: seq<T>, key: T -> int, k: int)
    ensures KeyFilter(SortBy(s, key), key, k) == KeyFilter(s, key, k)
  {
    if s != [] {
      var n := |s| - 1;
      var sorted := SortBy(s[..n], key);
      assert SortBy(s, key) == Insert(s[n], sorted, key);
      SortByStable(s[..n], key, k);
      InsertStable(s[n], sorted, key, k);
      assert s == s[..n] + [s[n]];
      KeyFilterAppend(s[..n], [s[n]], key, k);
      assert KeyFilter([s[n]], key, k) == (if key(s[n]) == k then [s[n]] else []) by {
        assert [s[n]][1..] == [];
      }
    }
  }

  predicate Ascending(s: seq<int>)
  {
    forall i, j :: 0 <= i < j < |s| ==> s[i] <= s[j]
  }

  /** Two integer sequences sorted ascending with the same elements are equal. */
  lemma {:induction false} SortedUnique(a: seq<int>, b: seq<int>)
    requires Ascending(a) && Ascending(b)
    requires multiset(a) == multiset(b)
    ensures a == b
  {
    if a != [] {
      SameHeads(a, b);
      HeadTail(a);
      HeadTail(b);
      AscendingTail(a);
      AscendingTail(b);
      SortedUnique(a[1..], b[1..]);
      assert a == [a[0]] + a[1..] && b == [b[0]] + b[1..];
    } else {
      assert |b| == 0 by { assert |multiset(b)| == 0; }
    }
  }

  /** Two non-empty ascending sequences with the same elements start alike. */
  lemma SameHeads(a: seq<int>, b: seq<int>)
    requires Ascending(a) && Ascending(b) && multiset(a) == multiset(b) && a != []
    ensures b != [] && a[0] == b[0]
  {
    assert a[0] in multiset(b);
    var i :| 0 <= i < |b| && b[i] == a[0];
    assert b[0] in multiset(a);
    var j :| 0 <= j < |a| && a[j] == b[0];
    assert b[0] <= b[i] && a[0] <= a[j];
  }

  lemma HeadTail(a: seq<int>)
    requires a != []
    ensures multiset(a[1..]) == multiset(a) - multiset{a[0]}
  {
    assert a == [a[0]] + a[1..];
    assert multiset(a) == multiset{a[0]} + multiset(a[1..]);
  }

  lemma AscendingTail(a: seq<int>)
    requires Ascending(a) && a != []
    ensures Ascending(a[1..])
  {
    forall i, j | 0 <= i < j < |a| - 1 ensures a[1..][i] <= a[1..][j] {
      assert a[1..][i] == a[i + 1] && a[1..][j] == a[j + 1];
    }
  }

  /** The keys of s, in order. */
  function Project<T>(s: seq<T>, f: T -> int): (r: seq<int>)
    ensures |r| == |s|
    ensures forall i :: 0 <= i < |s| ==> r[i] == f(s[i])
  {
    if s == [] then [] else [f(s[0])] + Project(s[1..], f)
  }

  lemma {:induction false} ProjectAppend<T>(a: seq<T>, b: seq<T>, f: T -> int)
    ensures Project(a + b, f) == Project(a, f) + Project(b, f)
  {
    assert |Project(a + b, f)| == |a + b|;
  }

  lemma RemoveAt<T>(t: seq<T>, p: nat)
    requires p < |t|
    ensures multiset(t[..p] + t[p + 1..]) == multiset(t) - multiset{t[p]}
  {
    assert t == t[..p] + [t[p]] + t[p + 1..];
  }

  lemma ProjectRemoveAt<T>(t: seq<T>, p: nat, f: T -> int)
    requires p < |t|
    ensures multiset(Project(t, f)) == multiset(Project(t[..p] + t[p + 1..], f)) + multiset{f(t[p])}
  {
    var left, right, mid := t[..p], t[p + 1..], [t[p]] + t[p + 1..];
    var pl, pr := Project(left, f), Project(right, f);
    assert Project(t, f) == pl + ([f(t[p])] + pr) by {
      SplitAt(t, p);
      ProjectAppend(left, mid, f);
      assert mid[1..] == right;
    }
    assert Project(left + right, f) == pl + pr by {
      ProjectAppend(left, right, f);
    }
    MultisetSplice(pl, f(t[p]), pr);
  }

  lemma MultisetSplice(a: seq<int>, x: int, b: seq<int>)
    ensures multiset(a + ([x] + b)) == multiset(a + b) + multiset{x}
  {
    calc {
      multiset(a + ([x] + b));
      multiset(a) + multiset([x] + b);
      multiset(a) + multiset{x} + multiset(b);
      multiset(a + b) + multiset{x};
    }
  }

  /** Reordering a sequence reorders its keys the same way. */
  lemma {:induction false} ProjectPermutation<T>(s: seq<T>, t: seq<T>, f: T -> int)
    requires multiset(s) == multiset(t)
    ensures multiset(Project(s, f)) == multiset(Project(t, f))
  {
    if s == [] {
      assert |t| == 0 by { assert |multiset(t)| == 0; }
    } else {
      var p := PermutedHead(s, t);
      var rest := t[..p] + t[p + 1..];
      ProjectPermutation(s[1..], rest, f);
      ProjectRemoveAt(t, p, f);
      ProjectCons(s, f);
    }
  }

  /** Where the first element of s sits in a reordering t, and what is left of t without it. */
  lemma PermutedHead<T>(s: seq<T>, t: seq<T>) returns (p: nat)
    requires multiset(s) == multiset(t) && s != []
    ensures p < |t| && t[p] == s[0]
    ensures multiset(s[1..]) == multiset(t[..p] + t[p + 1..])
  {
    assert s[0] in multiset(t);
    p :| 0 <= p < |t| && t[p] == s[0];
    HeadSplit(s);
    assert multiset(s) == multiset{s[0]} + multiset(s[1..]);
    RemoveAt(t, p);
  }

  lemma ProjectCons<T>(s: seq<T>, f: T -> int)
    requires s != []
    ensures multiset(Project(s, f)) == multiset{f(s[0])} + multiset(Project(s[1..], f))
  {
    assert Project(s, f) == [f(s[0])] + Project(s[1..], f);
  }
}
