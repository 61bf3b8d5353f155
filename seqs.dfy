/** Small facts about sequences, proved element by element. */
module Seqs {

  /** A non-empty sequence is its head followed by its tail. */
  lemma HeadSplit<T>(s: seq<T>)
    requires s != []
    ensures s == [s[0]] + s[1..]
  {
    var r := [s[0]] + s[1..];
    forall i | 0 <= i < |s| ensures r[i] == s[i] {
      if i > 0 {
        assert r[i] == s[1..][i - 1];
      }
    }
  }

  lemma SplitAt<T>(t: seq<T>, p: nat)
    requires p < |t|
    ensures t == t[..p] + ([t[p]] + t[p + 1..])
  {
    var r := t[..p] + ([t[p]] + t[p + 1..]);
    assert |r| == |t|;
    forall i | 0 <= i < |t| ensures r[i] == t[i] {
      if i < p {
        assert r[i] == t[..p][i];
      } else if i == p {
        assert r[i] == ([t[p]] + t[p + 1..])[0];
      } else {
        assert r[i] == ([t[p]] + t[p + 1..])[i - p];
        assert ([t[p]] + t[p + 1..])[i - p] == t[p + 1..][i - p - 1];
      }
    }
  }

  /** A prefix one longer is the shorter prefix followed by one element. */
  lemma PrefixSnoc<T>(s: seq<T>, n: nat)
    requires 0 < n <= |s|
    ensures s[..n] == s[..n - 1] + [s[n - 1]]
  {
    var r := s[..n - 1] + [s[n - 1]];
    forall i | 0 <= i < n ensures r[i] == s[..n][i] {
      if i < n - 1 {
        assert r[i] == s[..n - 1][i];
      }
    }
  }

  /** What a prefix one longer holds. */
  lemma PrefixHas<T>(s: seq<T>, n: nat, x: T)
    requires 0 < n <= |s|
    ensures x in s[..n] <==> x in s[..n - 1] || x == s[n - 1]
  {
    PrefixSnoc(s, n);
  }

  /** A non-empty sequence is its front followed by its last element. */
  lemma LastSplit<T>(s: seq<T>)
    requires s != []
    ensures s == s[..|s| - 1] + [s[|s| - 1]]
  {
    PrefixSnoc(s, |s|);
    assert s[..|s|] == s;
  }

  /** Dropping the element just appended gives the sequence back. */
  lemma SnocDropLast<T>(s: seq<T>, x: T)
    ensures (s + [x])[..|s|] == s
  {
    var r := (s + [x])[..|s|];
    forall i | 0 <= i < |s| ensures r[i] == s[i] {
      assert r[i] == (s + [x])[i];
    }
  }

  /** A prefix is not changed by appending after it. */
  lemma PrefixOfSnoc<T>(s: seq<T>, x: T, n: nat)
    requires n <= |s|
    ensures (s + [x])[..n] == s[..n]
  {
    var r := (s + [x])[..n];
    forall i | 0 <= i < n ensures r[i] == s[..n][i] {
      assert r[i] == (s + [x])[i];
    }
  }

  /** Concatenation is associative. */
  lemma ConcatAssoc<T>(a: seq<T>, b: seq<T>, c: seq<T>)
    ensures a + (b + c) == (a + b) + c
  {
    var l, r := a + (b + c), (a + b) + c;
    forall i | 0 <= i < |l| ensures l[i] == r[i] {
      if i < |a| {
        assert l[i] == a[i] && r[i] == (a + b)[i];
      } else if i < |a| + |b| {
        assert l[i] == (b + c)[i - |a|] && r[i] == (a + b)[i];
      } else {
        assert l[i] == (b + c)[i - |a|] && r[i] == c[i - |a| - |b|];
      }
    }
  }
}
