/** Ranking of `(key, count)` items, as the source does with
    `sorted(d.items(), key=lambda item: item[1], reverse=True)` and with
    pandas' `value_counts().nlargest(n)`. */
module Ranking {
  import opened Sequences

  /** The keys of a list of items, in the same order. */
  function Keys<K>(es: seq<(K, nat)>): (r: seq<K>)
    ensures |r| == |es|
    ensures forall i :: 0 <= i < |es| ==> r[i] == es[i].0
  {
    seq(|es|, i requires 0 <= i < |es| => es[i].0)
  }

  predicate CountsNonIncreasing<K>(es: seq<(K, nat)>) {
    forall i, j :: 0 <= i < j < |es| ==> es[i].1 >= es[j].1
  }

  /** Larger counts first; among equal counts, the key that `pos` places
      earlier first. */
  predicate RankedBy<K>(es: seq<(K, nat)>, pos: K -> int) {
    forall i, j :: 0 <= i < j < |es| ==> Precedes(es[i], es[j], pos)
  }

  /** Puts `e` before the first item whose count is not larger than its own. */
  function InsertByCount<K(==)>(e: (K, nat), es: seq<(K, nat)>): (r: seq<(K, nat)>)
    ensures multiset(r) == multiset(es) + multiset{e}
    ensures |r| == |es| + 1
  {
    if es == [] || e.1 >= es[0].1 then [e] + es
    else
      assert es == [es[0]] + es[1..];
      [es[0]] + InsertByCount(e, es[1..])
  }

  lemma {:induction false} InsertByCountKeepsOrder<K>(e: (K, nat), es: seq<(K, nat)>)
    requires CountsNonIncreasing(es)
    ensures CountsNonIncreasing(InsertByCount(e, es))
  {
    if es != [] && e.1 < es[0].1 {
      var t := es[1..];
      InsertByCountKeepsOrder(e, t);
      var r := InsertByCount(e, t);
      forall i | 0 <= i < |r| ensures es[0].1 >= r[i].1 {
        var y := r[i];
        assert y in multiset(r);
        if y in multiset(t) {
          assert y in t;
        }
      }
    }
  }

  /** Python's stable `sorted(items, key=count, reverse=True)`, as an insertion sort. */
  function Rank<K(==)>(es: seq<(K, nat)>): (r: seq<(K, nat)>)
    ensures multiset(r) == multiset(es) && |r| == |es|
    ensures CountsNonIncreasing(r)
  {
    if es == [] then []
    else
      var t := Rank(es[1..]);
      assert es == [es[0]] + es[1..];
      InsertByCountKeepsOrder(es[0], t);
      InsertByCount(es[0], t)
  }

  /** Whether `x` goes before `y` in the (count desc, then `pos` asc) order. */
  predicate Precedes<K>(x: (K, nat), y: (K, nat), pos: K -> int) {
    x.1 > y.1 || (x.1 == y.1 && pos(x.0) < pos(y.0))
  }

  lemma ConsRankedBy<K>(x: (K, nat), es: seq<(K, nat)>, pos: K -> int)
    requires RankedBy(es, pos)
    requires forall i :: 0 <= i < |es| ==> Precedes(x, es[i], pos)
    ensures RankedBy([x] + es, pos)
  {
    var r := [x] + es;
    forall i, j | 0 <= i < j < |r| ensures Precedes(r[i], r[j], pos) {
      if i == 0 {
        assert r[j] == es[j - 1];
      } else {
        assert r[i] == es[i - 1] && r[j] == es[j - 1];
      }
    }
  }

  /** Inserting an item whose key comes before every key already ranked keeps
      the ranking ordered by count, then by `pos`. */
  lemma {:induction false} InsertByCountRankedBy<K>(e: (K, nat), es: seq<(K, nat)>, pos: K -> int)
    requires RankedBy(es, pos)
    requires forall j :: 0 <= j < |es| ==> pos(e.0) < pos(es[j].0)
    ensures RankedBy(InsertByCount(e, es), pos)
  {
    if es == [] || e.1 >= es[0].1 {
      forall j | 0 <= j < |es| ensures Precedes(e, es[j], pos) {
        if j > 0 {
          assert Precedes(es[0], es[j], pos);
        }
      }
      ConsRankedBy(e, es, pos);
    } else {
      var t := es[1..];
      assert RankedBy(t, pos) by {
        forall i, j | 0 <= i < j < |t| ensures Precedes(t[i], t[j], pos) {
          assert Precedes(es[i + 1], es[j + 1], pos);
        }
      }
      InsertByCountRankedBy(e, t, pos);
      var r := InsertByCount(e, t);
      forall i | 0 <= i < |r| ensures Precedes(es[0], r[i], pos) {
        var y := r[i];
        assert y in multiset(r);
        if y in multiset(t) {
          var j :| 0 <= j < |t| && t[j] == y;
          assert Precedes(es[0], es[j + 1], pos);
        }
      }
      ConsRankedBy(es[0], r, pos);
    }
  }

  /** The sort is stable: when `pos` increases along the input, items of equal
      count leave the sort in input order. */
  lemma {:induction false} RankIsStable<K>(es: seq<(K, nat)>, pos: K -> int)
    requires forall i, j :: 0 <= i < j < |es| ==> pos(es[i].0) < pos(es[j].0)
    ensures RankedBy(Rank(es), pos)
  {
    if es != [] {
      var t := es[1..];
      assert forall i, j :: 0 <= i < j < |t| ==> pos(t[i].0) < pos(t[j].0) by {
        forall i, j | 0 <= i < j < |t| ensures pos(t[i].0) < pos(t[j].0) {
          assert t[i] == es[i + 1] && t[j] == es[j + 1];
        }
      }
      RankIsStable(t, pos);
      var r := Rank(t);
      forall m | 0 <= m < |r| ensures pos(es[0].0) < pos(r[m].0) {
        var y := r[m];
        assert y in multiset(r);
        assert y in t;
        var j :| 0 <= j < |t| && t[j] == y;
        assert es[j + 1] == y;
      }
      InsertByCountRankedBy(es[0], r, pos);
    }
  }

  /** A cut of a ranking ordered by count, then by `pos`, keeps that order. */
  lemma TopRankedBy<K>(es: seq<(K, nat)>, k: nat, pos: K -> int)
    requires RankedBy(Rank(es), pos)
    ensures RankedBy(Top(es, k), pos)
  {
    var top, rk := Top(es, k), Rank(es);
    forall i, j | 0 <= i < j < |top| ensures Precedes(top[i], top[j], pos) {
      assert top[i] == rk[i] && top[j] == rk[j];
    }
  }

  /** The first `k` items of the ranking (`nlargest(k)`, or a ranking cut with `[:k]`). */
  function Top<K(==)>(es: seq<(K, nat)>, k: nat): (r: seq<(K, nat)>)
    ensures |r| == if k < |es| then k else |es|
    ensures CountsNonIncreasing(r)
  {
    Rank(es)[..if k < |es| then k else |es|]
  }

  /** A cut shorter than asked for keeps every entry. */
  lemma TopAll<K>(es: seq<(K, nat)>, k: nat)
    requires |Top(es, k)| < k
    ensures forall t :: t in Keys(es) ==> t in Keys(Top(es, k))
  {
    var top, rk := Top(es, k), Rank(es);
    assert top == rk;
    forall t | t in Keys(es) ensures t in Keys(top) {
      var i :| 0 <= i < |es| && Keys(es)[i] == t;
      assert es[i] in multiset(rk);
      var j :| 0 <= j < |rk| && rk[j] == es[i];
      assert Keys(top)[j] == t;
    }
  }

  /** Every item left out of the top `k` counts at most as much as every item kept. */
  lemma TopDominates<K>(es: seq<(K, nat)>, k: nat, e: (K, nat))
    requires e in es && e !in Top(es, k)
    ensures forall i :: 0 <= i < |Top(es, k)| ==> Top(es, k)[i].1 >= e.1
  {
    var top, r := Top(es, k), Rank(es);
    var j := PlaceAfterCut(es, k, e);
    forall i | 0 <= i < |top| ensures top[i].1 >= e.1 {
      assert top[i] == r[i];
    }
  }

  /** When the ranking breaks ties by `pos`, every item kept in the top `k`
      precedes every item left out: a larger count, or an equal count and an
      earlier position. This is which of several tied items survive the cut. */
  lemma TopPrecedesLeftOut<K>(es: seq<(K, nat)>, k: nat, pos: K -> int, e: (K, nat))
    requires RankedBy(Rank(es), pos) && e in es && e !in Top(es, k)
    ensures forall i :: 0 <= i < |Top(es, k)| ==> Precedes(Top(es, k)[i], e, pos)
  {
    var top, r := Top(es, k), Rank(es);
    var j := PlaceAfterCut(es, k, e);
    forall i | 0 <= i < |top| ensures Precedes(top[i], e, pos) {
      assert top[i] == r[i] && i < j;
    }
  }

  /** An item left out of the top `k` sits in the ranking after the cut. */
  lemma PlaceAfterCut<K>(es: seq<(K, nat)>, k: nat, e: (K, nat)) returns (j: nat)
    requires e in es && e !in Top(es, k)
    ensures |Top(es, k)| <= j < |Rank(es)| && Rank(es)[j] == e
  {
    var r := Rank(es);
    assert e in r by {
      assert e in multiset(es);
    }
    j := PlaceAfterPrefix(r, |Top(es, k)|, e);
  }

  /** A value of `r` that is not among its first `n` entries occurs after them. */
  lemma PlaceAfterPrefix<T>(r: seq<T>, n: nat, e: T) returns (j: nat)
    requires n <= |r| && e in r && e !in r[..n]
    ensures n <= j < |r| && r[j] == e
  {
    var rest := r[n..];
    assert r == r[..n] + rest;
    var m :| 0 <= m < |rest| && rest[m] == e;
    j := n + m;
  }

  /** Every item of the top `k` is one of the ranked items. */
  lemma TopMembers<K>(es: seq<(K, nat)>, k: nat)
    ensures forall e :: e in Top(es, k) ==> e in es
  {
    var r := Rank(es);
    forall e | e in Top(es, k) ensures e in es {
      assert e in r;
      assert e in multiset(r);
    }
  }

  /** `pd.Series(s).value_counts()`: each distinct value with its number of occurrences. */
  function Tally(s: seq<int>): (r: seq<(int, nat)>)
    ensures StrictlyIncreasing(Keys(r))
    ensures forall x :: x in Keys(r) <==> x in s
    ensures forall e :: e in r ==> e.1 == multiset(s)[e.0]
  {
    var u := SortedSet(s);
    var r := seq(|u|, i requires 0 <= i < |u| => (u[i], multiset(s)[u[i]]));
    assert Keys(r) == u;
    r
  }

  /** `pd.Series(s).value_counts().nlargest(k).index`: the `k` most frequent values. */
  function MostFrequent(s: seq<int>, k: nat): (r: seq<int>)
    ensures |r| <= k
    ensures NoDuplicates(r)
    ensures forall x :: x in r ==> x in s
    ensures |r| < k ==> forall y :: y in s ==> y in r
    ensures forall x, y :: x in r && y in s && y !in r ==> multiset(s)[x] >= multiset(s)[y]
  {
    MostFrequentMembers(s, k);
    MostFrequentDistinct(s, k);
    MostFrequentAll(s, k);
    MostFrequentDominates(s, k);
    Keys(Top(Tally(s), k))
  }

  /** Only values of `s` are kept. */
  lemma MostFrequentMembers(s: seq<int>, k: nat)
    ensures forall x :: x in Keys(Top(Tally(s), k)) ==> x in s
  {
    var t := Tally(s);
    var top := Top(t, k);
    TopMembers(t, k);
    forall x | x in Keys(top) ensures x in s {
      var i :| 0 <= i < |top| && Keys(top)[i] == x;
      assert top[i] in t;
      var j :| 0 <= j < |t| && t[j] == top[i];
      assert Keys(t)[j] == x;
    }
  }

  /** The values kept by `MostFrequent` are distinct. */
  lemma MostFrequentDistinct(s: seq<int>, k: nat)
    ensures NoDuplicates(Keys(Top(Tally(s), k)))
  {
    var t := Tally(s);
    var top := Top(t, k);
    var r := Keys(top);
    var rk := Rank(t);
    TopMembers(t, k);
    StrictIsNoDuplicates(t);
    NoDuplicatesIsOnce(t);
    NoDuplicatesIsOnce(rk);
    forall i, j | 0 <= i < j < |r| ensures r[i] != r[j] {
      assert top[i] in t && top[j] in t;
      assert top[i] == rk[i] && top[j] == rk[j];
    }
  }

  /** Fewer than `k` values kept means every value was kept. */
  lemma MostFrequentAll(s: seq<int>, k: nat)
    ensures |Top(Tally(s), k)| < k ==> forall y :: y in s ==> y in Keys(Top(Tally(s), k))
  {
    if |Top(Tally(s), k)| < k {
      TopAll(Tally(s), k);
    }
  }

  /** A value left out never occurs more often than a value kept. */
  lemma MostFrequentDominates(s: seq<int>, k: nat)
    ensures forall x, y :: x in Keys(Top(Tally(s), k)) && y in s && y !in Keys(Top(Tally(s), k))
                           ==> multiset(s)[x] >= multiset(s)[y]
  {
    forall x, y | x in Keys(Top(Tally(s), k)) && y in s && y !in Keys(Top(Tally(s), k))
      ensures multiset(s)[x] >= multiset(s)[y]
    {
      KeptBeatsLeftOut(s, k, x, y);
    }
  }

  lemma KeptBeatsLeftOut(s: seq<int>, k: nat, x: int, y: int)
    requires x in Keys(Top(Tally(s), k)) && y in s && y !in Keys(Top(Tally(s), k))
    ensures multiset(s)[x] >= multiset(s)[y]
  {
    var t := Tally(s);
    var top := Top(t, k);
    var r := Keys(top);
    var i :| 0 <= i < |r| && r[i] == x;
    assert y in Keys(t);
    var j :| 0 <= j < |t| && Keys(t)[j] == y;
    var e := t[j];
    assert e !in top by {
      assert forall m :: 0 <= m < |top| ==> top[m].0 == r[m];
    }
    TopDominates(t, k, e);
    TopMembers(t, k);
    assert top[i] in top;
    assert top[i] in t;
  }

  /** Items with strictly increasing keys are distinct. */
  lemma StrictIsNoDuplicates(t: seq<(int, nat)>)
    requires StrictlyIncreasing(Keys(t))
    ensures NoDuplicates(t)
  {
    forall i, j | 0 <= i < j < |t| ensures t[i] != t[j] {
      assert Keys(t)[i] < Keys(t)[j];
    }
  }
}
