/** The strategy catalogue: each strategy turns the draw table into a pool of
    candidate numbers (utils.py, `estrategia_*`). The grid strategy is in
    module Grid. */
module Strategies {
  import opened Sequences
  import opened Ranking
  import opened Draws

  // ---------------------------------------------------------------------------
  // Frequency

  /** `estrategia_frequencia`: the `topN` most drawn numbers, in ascending order.
      Which of several equally frequent numbers make the cut is fixed here as
      the smaller ones first. */
  function Frequency(h: History, topN: nat := 25): (r: seq<int>)
    ensures h == [] ==> r == []
    ensures StrictlyIncreasing(r)
    ensures |r| <= topN
    ensures forall x :: x in r ==> x in Flatten(h)
  {
    var all := Flatten(h);
    if all == [] then []
    else
      var top := MostFrequent(all, topN);
      var r := SortAsc(top);
      NoDuplicatesIsOnce(top);
      assert forall x :: multiset(r)[x] == multiset(top)[x];
      SortedOnceIsStrict(r);
      SortAscMembers(top);
      r
  }

  /** The frequency pool holds the most drawn numbers: it is cut short only when
      every drawn number is in it, and no number left out was drawn more often
      than one kept. */
  lemma FrequencyKeepsMostDrawn(h: History, topN: nat)
    ensures |Frequency(h, topN)| < topN ==> forall y :: y in Flatten(h) ==> y in Frequency(h, topN)
    ensures forall x, y :: x in Frequency(h, topN) && y in Flatten(h) && y !in Frequency(h, topN)
              ==> Occurrences(h, x) >= Occurrences(h, y)
  {
    var all := Flatten(h);
    if all != [] {
      var top := MostFrequent(all, topN);
      SortAscMembers(top);
    }
  }

  /** On a valid table the frequency pool lies in 1..25. */
  lemma FrequencyInRange(h: History, topN: nat)
    requires ValidHistory(h)
    ensures forall x :: x in Frequency(h, topN) ==> 1 <= x <= NumberCount
  {
    FlattenInRange(h);
  }

  // ---------------------------------------------------------------------------
  // Delay

  /** How many of the most recent draws in a row do not contain `n`: the counter
      of `estrategia_atraso`, which grows by one per draw without `n` and goes
      back to zero on a draw with `n`. */
  function Delay(h: History, n: int): (d: nat)
    ensures d <= |h|
  {
    if h == [] then 0
    else if n in h[|h| - 1] then 0
    else Delay(h[..|h| - 1], n) + 1
  }

  /** Delay is the distance back to the last draw that contained `n`: none of the
      last `Delay` draws contains it, and the draw just before them does. */
  lemma {:induction false} DelayIsDistanceToLastHit(h: History, n: int)
    ensures forall i :: |h| - Delay(h, n) <= i < |h| ==> n !in h[i]
    ensures Delay(h, n) < |h| ==> n in h[|h| - 1 - Delay(h, n)]
  {
    if h != [] && n !in h[|h| - 1] {
      var p := h[..|h| - 1];
      DelayIsDistanceToLastHit(p, n);
      forall i | |h| - Delay(h, n) <= i < |h| ensures n !in h[i] {
        if i < |h| - 1 {
          assert h[i] == p[i];
        }
      }
      if Delay(h, n) < |h| {
        assert h[|h| - 1 - Delay(h, n)] == p[|p| - 1 - Delay(p, n)];
      }
    }
  }

  /** `delays.items()`: the dictionary's keys are 1..25 in insertion order, and
      each carries the delay of its number. */
  function DelayItems(h: History): (r: seq<(int, nat)>)
    ensures Keys(r) == Range(1, NumberCount + 1)
    ensures forall e :: e in r ==> e.1 == Delay(h, e.0)
  {
    seq(NumberCount, i requires 0 <= i < NumberCount => (i + 1, Delay(h, i + 1)))
  }

  /** The pool `estrategia_atraso` returns: the whole range on an empty table,
      otherwise the first `topN` numbers by decreasing delay. */
  function DelayPool(h: History, topN: nat): seq<int> {
    if h == [] then Range(1, NumberCount + 1)
    else Keys(Top(DelayItems(h), topN))
  }

  /** The entries of the delay ranking are (number, delay) pairs for numbers of 1..25. */
  lemma DelayTopEntries(h: History, topN: nat)
    ensures forall e :: e in Top(DelayItems(h), topN) ==> 1 <= e.0 <= NumberCount && e.1 == Delay(h, e.0)
  {
    TopMembers(DelayItems(h), topN);
  }

  /** On a non-empty table the delay pool holds min(topN, 25) distinct numbers of 1..25. */
  lemma DelayPoolShape(h: History, topN: nat)
    requires h != []
    ensures |DelayPool(h, topN)| == if topN < NumberCount then topN else NumberCount
    ensures NoDuplicates(DelayPool(h, topN))
    ensures forall x :: x in DelayPool(h, topN) ==> 1 <= x <= NumberCount
  {
    var top := Top(DelayItems(h), topN);
    var r := Keys(top);
    assert DelayPool(h, topN) == r;
    DelayTopEntries(h, topN);
    forall x | x in r ensures 1 <= x <= NumberCount {
      var i :| 0 <= i < |r| && r[i] == x;
      assert top[i] in top;
    }
    DelayPoolOrder(h, topN);
  }

  /** The delay pool runs by non-increasing delay, equal delays in ascending order. */
  lemma DelayPoolOrder(h: History, topN: nat)
    requires h != []
    ensures forall i, j :: 0 <= i < j < |DelayPool(h, topN)| ==>
              var a, b := DelayPool(h, topN)[i], DelayPool(h, topN)[j];
              Delay(h, a) > Delay(h, b) || (Delay(h, a) == Delay(h, b) && a < b)
  {
    var items := DelayItems(h);
    var top := Top(items, topN);
    var r := Keys(top);
    assert DelayPool(h, topN) == r;
    var byNumber := (n: int) => n;
    RankIsStable(items, byNumber);
    TopRankedBy(items, topN, byNumber);
    DelayTopEntries(h, topN);
    forall i, j | 0 <= i < j < |r|
      ensures Delay(h, r[i]) > Delay(h, r[j]) || (Delay(h, r[i]) == Delay(h, r[j]) && r[i] < r[j])
    {
      assert Precedes(top[i], top[j], byNumber);
      assert top[i] in top && top[j] in top;
    }
  }

  /** No number left out of the delay pool is more delayed than one kept, and
      of two equally delayed numbers the stable sort keeps the smaller. */
  lemma DelayPoolDominates(h: History, topN: nat)
    requires h != []
    ensures forall x, n :: x in DelayPool(h, topN) && 1 <= n <= NumberCount && n !in DelayPool(h, topN)
              ==> Delay(h, x) > Delay(h, n) || (Delay(h, x) == Delay(h, n) && x < n)
  {
    forall n | 1 <= n <= NumberCount && n !in DelayPool(h, topN)
      ensures forall x :: x in DelayPool(h, topN) ==> Delay(h, x) > Delay(h, n) || (Delay(h, x) == Delay(h, n) && x < n)
    {
      DelayLeftOut(h, topN, n);
    }
  }

  /** One number left out of the delay pool, against every number kept. */
  lemma DelayLeftOut(h: History, topN: nat, n: int)
    requires h != [] && 1 <= n <= NumberCount && n !in DelayPool(h, topN)
    ensures forall x :: x in DelayPool(h, topN) ==> Delay(h, x) > Delay(h, n) || (Delay(h, x) == Delay(h, n) && x < n)
  {
    var items := DelayItems(h);
    var top := Top(items, topN);
    var r := Keys(top);
    assert DelayPool(h, topN) == r;
    var byNumber := (m: int) => m;
    RankIsStable(items, byNumber);
    var e := items[n - 1];
    assert e in items;
    assert e !in top by {
      assert forall m :: 0 <= m < |top| ==> top[m].0 == r[m];
    }
    TopPrecedesLeftOut(items, topN, byNumber, e);
    DelayTopEntries(h, topN);
    forall i | 0 <= i < |r|
      ensures Delay(h, r[i]) > Delay(h, n) || (Delay(h, r[i]) == Delay(h, n) && r[i] < n)
    {
      assert Precedes(top[i], e, byNumber);
      assert top[i] in top;
    }
  }

  /** `estrategia_atraso`: builds the delay counters draw by draw, oldest first,
      then returns the `topN` most delayed numbers. */
  method DelayStrategy(h: History, topN: nat := 25) returns (r: seq<int>)
    ensures r == DelayPool(h, topN)
  {
    if |h| == 0 {
      return Range(1, NumberCount + 1);
    }
    var delays: map<int, nat> := map[];
    for num := 1 to NumberCount + 1
      invariant forall n :: 1 <= n < num ==> n in delays && delays[n] == 0
    {
      delays := delays[num := 0];
    }
    for j := 0 to |h|
      invariant forall n :: 1 <= n <= NumberCount ==> n in delays && delays[n] == Delay(h[..j], n)
    {
      var currentDraw := h[j];
      assert h[..j + 1][..j] == h[..j];
      for num := 1 to NumberCount + 1
        invariant forall n :: 1 <= n <= NumberCount ==> n in delays
        invariant forall n :: 1 <= n < num ==> delays[n] == Delay(h[..j + 1], n)
        invariant forall n :: num <= n <= NumberCount ==> delays[n] == Delay(h[..j], n)
      {
        if num !in currentDraw {
          delays := delays[num := delays[num] + 1];
        } else {
          delays := delays[num := 0];
        }
      }
    }
    assert h[..|h|] == h;
    var items := seq(NumberCount, i requires 0 <= i < NumberCount => (i + 1, delays[i + 1]));
    assert items == DelayItems(h);
    var sortedByDelay := Rank(items);
    r := Keys(sortedByDelay[..if topN < |items| then topN else |items|]);
  }

  // ---------------------------------------------------------------------------
  // Last digits

  /** `[num % 10 for num in s]` (Python's `%` and Dafny's agree for a positive
      divisor): each entry is a digit 0..9 that differs from its number by a
      multiple of ten. */
  function LastDigits(s: seq<int>): (r: seq<int>)
    ensures |r| == |s|
    ensures forall i :: 0 <= i < |s| ==> 0 <= r[i] <= 9 && (s[i] - r[i]) % 10 == 0
  {
    seq(|s|, i requires 0 <= i < |s| => s[i] % 10)
  }

  /** `[num for num in range(lo, hi) if num % 10 in digits]`. */
  function EndingIn(lo: int, hi: int, digits: seq<int>): (r: seq<int>)
    ensures StrictlyIncreasing(r)
    ensures forall x :: x in r <==> lo <= x < hi && x % 10 in digits
    decreases hi - lo
  {
    if lo >= hi then []
    else
      var rest := EndingIn(lo + 1, hi, digits);
      assert forall x :: x in rest ==> lo < x;
      if lo % 10 in digits then
        var r := [lo] + rest;
        assert forall i :: 1 <= i < |r| ==> r[i] == rest[i - 1] && r[i] in rest;
        assert forall x :: x in r <==> x == lo || x in rest;
        r
      else rest
  }

  /** The most frequent last digits, as `estrategia_finais` selects them. */
  function SelectedLastDigits(h: History, topDigits: nat): seq<int> {
    MostFrequent(LastDigits(Flatten(h)), topDigits)
  }

  /** `estrategia_finais`: every number of 1..25 whose last digit is among the
      `topDigits` most frequent last digits of the drawn balls. */
  function LastDigitStrategy(h: History, topDigits: nat := 5): (r: seq<int>)
    ensures h == [] ==> r == []
    ensures StrictlyIncreasing(r)
    ensures h != [] && WellFormed(h) ==>
              forall n :: n in r <==> 1 <= n <= NumberCount && n % 10 in SelectedLastDigits(h, topDigits)
  {
    var all := Flatten(h);
    if all == [] then []
    else
      var pool := EndingIn(1, NumberCount + 1, SelectedLastDigits(h, topDigits));
      SortAscOfSorted(pool);
      SortAsc(pool)
  }

  /** What the selected last digits are: at most `topDigits` distinct last digits
      of drawn balls, none less frequent than a last digit left out. */
  lemma SelectedLastDigitsSpec(h: History, topDigits: nat)
    ensures |SelectedLastDigits(h, topDigits)| <= topDigits
    ensures NoDuplicates(SelectedLastDigits(h, topDigits))
    ensures |SelectedLastDigits(h, topDigits)| < topDigits ==>
              forall e :: e in LastDigits(Flatten(h)) ==> e in SelectedLastDigits(h, topDigits)
    ensures forall d :: d in SelectedLastDigits(h, topDigits) ==> 0 <= d <= 9 && d in LastDigits(Flatten(h))
    ensures forall d, e :: d in SelectedLastDigits(h, topDigits) && e in LastDigits(Flatten(h))
              && e !in SelectedLastDigits(h, topDigits)
              ==> multiset(LastDigits(Flatten(h)))[d] >= multiset(LastDigits(Flatten(h)))[e]
  {
    var ds := LastDigits(Flatten(h));
    forall d | d in SelectedLastDigits(h, topDigits) ensures 0 <= d <= 9 {
      var i :| 0 <= i < |ds| && ds[i] == d;
    }
  }

  // ---------------------------------------------------------------------------
  // Fixed sets topped up from frequency

  const Primes: seq<int> := [2, 3, 5, 7, 11, 13, 17, 19, 23]
  const Fibonacci: seq<int> := [1, 2, 3, 5, 8, 13, 21]

  /** `sorted(list(set(fixed + estrategia_frequencia(df, top_n=25 - len(fixed)))))`. */
  function FixedSetPool(fixed: seq<int>, h: History): (r: seq<int>)
    requires |fixed| <= NumberCount
    ensures StrictlyIncreasing(r)
    ensures forall x :: x in r <==> x in fixed || x in Frequency(h, NumberCount - |fixed|)
  {
    SortedSet(fixed + Frequency(h, NumberCount - |fixed|))
  }

  /** `estrategia_primos`: the primes up to 25, plus the 16 most drawn numbers. */
  function PrimeStrategy(h: History): (r: seq<int>)
    ensures StrictlyIncreasing(r)
    ensures forall p :: p in Primes ==> p in r
    ensures forall x :: x in r ==> x in Primes || x in Frequency(h, 16)
    ensures forall x :: x in Frequency(h, 16) ==> x in r
  {
    FixedSetPool(Primes, h)
  }

  /** `estrategia_fibonacci`: the Fibonacci numbers up to 25, plus the 18 most drawn numbers. */
  function FibonacciStrategy(h: History): (r: seq<int>)
    ensures StrictlyIncreasing(r)
    ensures forall f :: f in Fibonacci ==> f in r
    ensures forall x :: x in r ==> x in Fibonacci || x in Frequency(h, 18)
    ensures forall x :: x in Frequency(h, 18) ==> x in r
  {
    FixedSetPool(Fibonacci, h)
  }

  /** With no history, a fixed-set pool is just the fixed set, when that is ascending. */
  lemma FixedSetPoolOnEmpty(fixed: seq<int>)
    requires |fixed| <= NumberCount && StrictlyIncreasing(fixed)
    ensures FixedSetPool(fixed, []) == fixed
  {
    var n := NumberCount - |fixed|;
    assert Frequency([], n) == [];
    assert fixed + Frequency([], n) == fixed;
    SortedSetOfStrict(fixed);
  }

  /** With no history, the prime strategy returns exactly the primes. */
  lemma PrimesOnEmptyHistory()
    ensures PrimeStrategy([]) == Primes
  {
    StrictFromNeighbours(Primes);
    FixedSetPoolOnEmpty(Primes);
  }

  /** With no history, the Fibonacci strategy returns exactly the Fibonacci numbers. */
  lemma FibonacciOnEmptyHistory()
    ensures FibonacciStrategy([]) == Fibonacci
  {
    StrictFromNeighbours(Fibonacci);
    FixedSetPoolOnEmpty(Fibonacci);
  }

  /** On a valid table the fixed-set pools stay inside 1..25, so hold at most 25 numbers. */
  lemma FixedSetPoolBound(fixed: seq<int>, h: History)
    requires |fixed| <= NumberCount && ValidHistory(h)
    requires forall x :: x in fixed ==> 1 <= x <= NumberCount
    ensures forall x :: x in FixedSetPool(fixed, h) ==> 1 <= x <= NumberCount
    ensures |FixedSetPool(fixed, h)| <= NumberCount
  {
    var n := NumberCount - |fixed|;
    FrequencyInRange(h, n);
    SortedSetWithin(fixed, Frequency(h, n), 1, NumberCount);
    assert FixedSetPool(fixed, h) == SortedSet(fixed + Frequency(h, n));
  }

  // ---------------------------------------------------------------------------
  // Hybrid

  /** Every number of the delay pool lies in 1..25. */
  lemma DelayPoolInRange(h: History, topN: nat)
    ensures forall x :: x in DelayPool(h, topN) ==> 1 <= x <= NumberCount
  {
    if h != [] {
      DelayPoolShape(h, topN);
    }
  }

  /** `estrategia_alpha_envolve`: the union of the `freqN` most frequent and the
      `delayN` most delayed numbers, ascending, cut to 25 numbers. */
  function AlphaEnvolve(h: History, freqN: nat := 15, delayN: nat := 10): (r: seq<int>)
    ensures StrictlyIncreasing(r)
    ensures |r| <= NumberCount
    ensures forall x :: x in r ==> x in Frequency(h, freqN) || x in DelayPool(h, delayN)
  {
    var both := Frequency(h, freqN) + DelayPool(h, delayN);
    var u := SortedSet(both);
    var n := if |u| < NumberCount then |u| else NumberCount;
    StrictPrefix(u, n);
    u[..n]
  }

  /** On a valid table the cut to 25 numbers removes nothing: the hybrid pool is
      exactly the union of its two parts. */
  lemma AlphaEnvolveIsUnion(h: History, freqN: nat, delayN: nat)
    requires ValidHistory(h)
    ensures forall x :: x in AlphaEnvolve(h, freqN, delayN) <==> x in Frequency(h, freqN) || x in DelayPool(h, delayN)
  {
    var f, d := Frequency(h, freqN), DelayPool(h, delayN);
    var u := SortedSet(f + d);
    FrequencyInRange(h, freqN);
    DelayPoolInRange(h, delayN);
    forall x | x in u ensures 1 <= x < NumberCount + 1 {
      assert x in f || x in d;
    }
    StrictWithinBound(u, 1, NumberCount + 1);
    assert AlphaEnvolve(h, freqN, delayN) == u[..|u|];
    assert u[..|u|] == u;
  }
}
