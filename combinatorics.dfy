/** Binomial coefficients and `itertools.combinations`, shared by the game
    generator (15-number tickets) and the triplet/quad analysis. */
module Combinatorics {
  import opened Sequences

  /** The binomial coefficient C(n, k), by Pascal's rule. */
  function Choose(n: nat, k: nat): nat {
    if k == 0 then 1
    else if n == 0 then 0
    else Choose(n - 1, k - 1) + Choose(n - 1, k)
  }

  /** Pascal's rule gives zero when there are more to pick than to pick from. */
  lemma {:induction false} ChooseTooMany(n: nat, k: nat)
    requires n < k
    ensures Choose(n, k) == 0
  {
    if n > 0 {
      ChooseTooMany(n - 1, k - 1);
      ChooseTooMany(n - 1, k);
    }
  }

  lemma {:induction false} ChooseOne(n: nat)
    ensures Choose(n, 1) == n
  {
    if n > 0 {
      ChooseOne(n - 1);
    }
  }

  lemma {:induction false} ChooseTwo(n: nat)
    ensures 2 * Choose(n, 2) == n * (n - 1)
  {
    if n > 0 {
      ChooseOne(n - 1);
      ChooseTwo(n - 1);
    }
  }

  /** Closed form of C(n, 3), the number of triplets of n numbers. */
  lemma {:induction false} ChooseThree(n: nat)
    ensures 6 * Choose(n, 3) == n * (n - 1) * (n - 2)
  {
    if n > 0 {
      ChooseTwo(n - 1);
      ChooseThree(n - 1);
      var p := (n - 1) * (n - 2);
      assert 6 * Choose(n, 3) == 3 * p + p * (n - 3);
      assert 3 * p + p * (n - 3) == p * n;
    }
  }

  /** Closed form of C(n, 4), the number of quads of n numbers. */
  lemma {:induction false} ChooseFour(n: nat)
    ensures 24 * Choose(n, 4) == n * (n - 1) * (n - 2) * (n - 3)
  {
    if n > 0 {
      ChooseThree(n - 1);
      ChooseFour(n - 1);
      var p := (n - 1) * (n - 2) * (n - 3);
      assert 24 * Choose(n, 4) == 4 * p + p * (n - 4);
      assert 4 * p + p * (n - 4) == p * n;
    }
  }

  /** Prefixes `x` to every sequence of `cs`. */
  function PrependAll(x: int, cs: seq<seq<int>>): (r: seq<seq<int>>)
    ensures |r| == |cs|
    ensures forall i :: 0 <= i < |cs| ==> r[i] == [x] + cs[i]
  {
    seq(|cs|, i requires 0 <= i < |cs| => [x] + cs[i])
  }

  /** `list(itertools.combinations(s, k))`: the k-element subsequences of `s`,
      in the order Python yields them (those that keep `s[0]` first). */
  function Combos(s: seq<int>, k: nat): seq<seq<int>>
    decreases |s|
  {
    if k == 0 then [[]]
    else if s == [] then []
    else PrependAll(s[0], Combos(s[1..], k - 1)) + Combos(s[1..], k)
  }

  /** Asking for more items than `s` has yields no combination. */
  lemma {:induction false} CombosTooMany(s: seq<int>, k: nat)
    requires k > |s|
    ensures Combos(s, k) == []
    decreases |s|
  {
    if s != [] {
      CombosTooMany(s[1..], k - 1);
      CombosTooMany(s[1..], k);
      assert PrependAll(s[0], []) == [];
    }
  }

  /** There are exactly C(|s|, k) combinations. */
  lemma {:induction false} CombosCount(s: seq<int>, k: nat)
    ensures |Combos(s, k)| == Choose(|s|, k)
    decreases |s|
  {
    if k == 0 {
      assert Combos(s, k) == [[]];
      assert Choose(|s|, k) == 1;
    } else if s == [] {
      assert Combos(s, k) == [];
      assert Choose(|s|, k) == 0;
    } else {
      var t := s[1..];
      CombosCount(t, k - 1);
      CombosCount(t, k);
      var a, b := Combos(t, k - 1), Combos(t, k);
      assert Combos(s, k) == PrependAll(s[0], a) + b;
      assert Choose(|s|, k) == Choose(|t|, k - 1) + Choose(|t|, k);
    }
  }

  /** Splits a combination of a non-empty `s` into the two cases of its definition:
      `s[0]` followed by a (k-1)-combination of the tail, or a k-combination of the tail. */
  lemma CombosCases(s: seq<int>, k: nat, c: seq<int>) returns (headed: bool, rest: seq<int>)
    requires c in Combos(s, k) && k > 0
    ensures s != []
    ensures headed ==> rest in Combos(s[1..], k - 1) && c == [s[0]] + rest
    ensures !headed ==> c in Combos(s[1..], k)
  {
    var first := PrependAll(s[0], Combos(s[1..], k - 1));
    if c in first {
      var i :| 0 <= i < |first| && first[i] == c;
      headed, rest := true, Combos(s[1..], k - 1)[i];
    } else {
      headed, rest := false, c;
    }
  }

  /** Every combination has `k` elements, each taken from `s` without reuse. */
  lemma {:induction false} CombosShape(s: seq<int>, k: nat, c: seq<int>)
    requires c in Combos(s, k)
    ensures |c| == k
    ensures multiset(c) <= multiset(s)
    decreases |s|
  {
    if k > 0 {
      var headed, rest := CombosCases(s, k, c);
      var t := s[1..];
      assert s == [s[0]] + t;
      if headed {
        CombosShape(t, k - 1, rest);
      } else {
        CombosShape(t, k, c);
      }
    }
  }

  /** A combination of a sorted sequence is sorted. */
  lemma CombosSorted(s: seq<int>, k: nat, c: seq<int>)
    requires c in Combos(s, k) && Sorted(s)
    ensures Sorted(c)
  {
    var i :| 0 <= i < |Combos(s, k)| && Combos(s, k)[i] == c;
    CombosSortedAt(s, k, i);
  }

  lemma {:induction false} CombosSortedAt(s: seq<int>, k: nat, i: nat)
    requires Sorted(s) && i < |Combos(s, k)|
    ensures Sorted(Combos(s, k)[i])
    decreases |s|
  {
    if k > 0 {
      var t := s[1..];
      var a, b := Combos(t, k - 1), Combos(t, k);
      var p := PrependAll(s[0], a);
      assert Combos(s, k) == p + b;
      SortedTail(s);
      if i < |a| {
        assert Combos(s, k)[i] == p[i] == [s[0]] + a[i];
        CombosSortedAt(t, k - 1, i);
        CombosAtLeastAt(t, k - 1, i, s[0]);
        SortedCons(s[0], a[i]);
      } else {
        assert Combos(s, k)[i] == b[i - |a|];
        CombosSortedAt(t, k, i - |a|);
      }
    }
  }

  lemma CombosAtLeastAt(t: seq<int>, k: nat, i: nat, lo: int)
    requires i < |Combos(t, k)| && forall y :: y in t ==> lo <= y
    ensures forall j :: 0 <= j < |Combos(t, k)[i]| ==> lo <= Combos(t, k)[i][j]
  {
    var c := Combos(t, k)[i];
    assert c in Combos(t, k);
    CombosAtLeast(t, k, c, lo);
  }

  /** A combination of `t` lies above any lower bound of `t`. */
  lemma CombosAtLeast(t: seq<int>, k: nat, c: seq<int>, lo: int)
    requires c in Combos(t, k) && forall y :: y in t ==> lo <= y
    ensures forall j :: 0 <= j < |c| ==> lo <= c[j]
  {
    CombosShape(t, k, c);
    forall j | 0 <= j < |c| ensures lo <= c[j] {
      assert c[j] in multiset(c);
      assert c[j] in t;
    }
  }

  /** A combination drawn from a strictly increasing sequence is strictly increasing. */
  lemma CombosOfStrict(s: seq<int>, k: nat, c: seq<int>)
    requires c in Combos(s, k) && StrictlyIncreasing(s)
    ensures |c| == k && StrictlyIncreasing(c)
    ensures forall x :: x in c ==> x in s
  {
    CombosShape(s, k, c);
    CombosSorted(s, k, c);
    StrictIsOnce(s);
    assert forall x :: multiset(c)[x] <= multiset(s)[x] <= 1;
    SortedOnceIsStrict(c);
    forall x | x in c ensures x in s {
      assert x in multiset(c);
    }
  }

  /** The combinations of a strictly increasing sequence are pairwise different. */
  lemma {:induction false} CombosNoDuplicates(s: seq<int>, k: nat)
    requires StrictlyIncreasing(s)
    ensures NoDuplicates(Combos(s, k))
    decreases |s|
  {
    if k > 0 && s != [] {
      var t := s[1..];
      assert StrictlyIncreasing(t);
      CombosNoDuplicates(t, k - 1);
      CombosNoDuplicates(t, k);
      var a := PrependAll(s[0], Combos(t, k - 1));
      var b := Combos(t, k);
      var r := a + b;
      forall i, j | 0 <= i < j < |r| ensures r[i] != r[j] {
        if j < |a| {
          assert r[i] == [s[0]] + Combos(t, k - 1)[i];
          assert r[j] == [s[0]] + Combos(t, k - 1)[j];
          assert r[i][1..] == Combos(t, k - 1)[i];
          assert r[j][1..] == Combos(t, k - 1)[j];
        } else if i >= |a| {
          assert r[i] == b[i - |a|] && r[j] == b[j - |a|];
        } else {
          // r[i] starts with s[0]; r[j] has only elements of t, all above s[0]
          var c := b[j - |a|];
          assert r[j] == c && c in b;
          CombosShape(t, k, c);
          assert |c| == k > 0;
          assert c[0] in multiset(c);
          assert c[0] in t;
          assert r[i][0] == s[0] != c[0];
        }
      }
    }
  }

  /** The set of distinct combinations has C(|s|, k) members when `s` is strictly increasing. */
  lemma CombosSetSize(s: seq<int>, k: nat)
    requires StrictlyIncreasing(s)
    ensures |set c | c in Combos(s, k)| == Choose(|s|, k)
  {
    CombosNoDuplicates(s, k);
    CardOfNoDuplicates(Combos(s, k));
    CombosCount(s, k);
  }

  /** Taking all of `s` at once leaves a single combination: `s` itself. */
  lemma {:induction false} CombosOfAll(s: seq<int>)
    ensures Combos(s, |s|) == [s]
    decreases |s|
  {
    if s != [] {
      var t := s[1..];
      CombosOfAll(t);
      CombosTooMany(t, |s|);
      assert PrependAll(s[0], [t]) == [[s[0]] + t];
      assert [s[0]] + t == s;
    }
  }

  /** Completeness: every strictly increasing k-sequence whose members all
      lie in the strictly increasing sequence `s` is one of its combinations. */
  lemma {:induction false} CombosComplete(s: seq<int>, k: nat, c: seq<int>)
    requires StrictlyIncreasing(s) && StrictlyIncreasing(c) && |c| == k
    requires forall x :: x in c ==> x in s
    ensures c in Combos(s, k)
    decreases |s|
  {
    if k == 0 {
      assert c == [];
      assert Combos(s, k) == [[]];
    } else {
      assert c[0] in c;
      var t := s[1..];
      if c[0] == s[0] {
        TailWithinTail(s, c);
        CombosComplete(t, k - 1, c[1..]);
        HeadedCombo(s, k, c[1..]);
        assert c == [s[0]] + c[1..];
      } else {
        WithinTail(s, c);
        CombosComplete(t, k, c);
        UnheadedCombo(s, k, c);
      }
    }
  }

  /** When `c` and `s` start alike, the rest of `c` lies in the rest of `s`. */
  lemma TailWithinTail(s: seq<int>, c: seq<int>)
    requires StrictlyIncreasing(s) && StrictlyIncreasing(c) && c != [] && s != [] && c[0] == s[0]
    requires forall x :: x in c ==> x in s
    ensures StrictlyIncreasing(s[1..]) && StrictlyIncreasing(c[1..])
    ensures forall x :: x in c[1..] ==> x in s[1..]
  {
    forall x | x in c[1..] ensures x in s[1..] {
      var i :| 0 <= i < |c[1..]| && c[1..][i] == x;
      assert c[0] < c[i + 1] && c[i + 1] in c;
      var j :| 0 <= j < |s| && s[j] == x;
      assert j != 0;
      assert s[1..][j - 1] == x;
    }
  }

  /** When `c` does not start with the head of `s`, all of `c` lies in the rest of `s`. */
  lemma WithinTail(s: seq<int>, c: seq<int>)
    requires StrictlyIncreasing(s) && StrictlyIncreasing(c) && c != [] && s != [] && c[0] != s[0]
    requires forall x :: x in c ==> x in s
    ensures StrictlyIncreasing(s[1..])
    ensures forall x :: x in c ==> x in s[1..]
  {
    assert c[0] in c;
    var m :| 0 <= m < |s| && s[m] == c[0];
    forall x | x in c ensures x in s[1..] {
      var i :| 0 <= i < |c| && c[i] == x;
      assert c[0] <= c[i];
      var j :| 0 <= j < |s| && s[j] == x;
      assert j != 0;
      assert s[1..][j - 1] == x;
    }
  }

  /** The head of `s` before a (k-1)-combination of its tail is a k-combination of `s`. */
  lemma HeadedCombo(s: seq<int>, k: nat, c: seq<int>)
    requires s != [] && k > 0 && c in Combos(s[1..], k - 1)
    ensures [s[0]] + c in Combos(s, k)
  {
    var cs := Combos(s[1..], k - 1);
    var i :| 0 <= i < |cs| && cs[i] == c;
    var first := PrependAll(s[0], cs);
    assert first[i] == [s[0]] + c;
    assert Combos(s, k) == first + Combos(s[1..], k);
    assert Combos(s, k)[i] == first[i];
  }

  /** A k-combination of the tail of `s` is a k-combination of `s`. */
  lemma UnheadedCombo(s: seq<int>, k: nat, c: seq<int>)
    requires s != [] && k > 0 && c in Combos(s[1..], k)
    ensures c in Combos(s, k)
  {
    var first := PrependAll(s[0], Combos(s[1..], k - 1));
    assert Combos(s, k) == first + Combos(s[1..], k);
  }
}
