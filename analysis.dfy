/** The advanced analyses of the draw table: the most frequent triplets and
    quads, each draw's sum and spread, and how often each number appears in
    each of the 15 positions. */
module Analysis {
  import opened Sequences
  import opened Ranking
  import opened Combinatorics
  import opened Draws

  // ---------------------------------------------------------------------------
  // Triplets and quads

  /** Every k-combination of every draw, draw after draw: what the counting loop
      of `analyze_triplets` (k = 3) or `analyze_quads` (k = 4) visits. */
  function DrawCombos(h: History, k: nat): seq<seq<int>> {
    if h == [] then [] else DrawCombos(h[..|h| - 1], k) + Combos(SortAsc(h[|h| - 1]), k)
  }

  /** `counts.get(t, 0)` on a dictionary kept as a list of (key, count) entries
      in insertion order. */
  function Get(counts: seq<(seq<int>, nat)>, t: seq<int>): nat {
    if counts == [] then 0
    else if counts[0].0 == t then counts[0].1
    else Get(counts[1..], t)
  }

  /** The sum of all counts of the dictionary. */
  function Total(counts: seq<(seq<int>, nat)>): nat {
    if counts == [] then 0 else counts[0].1 + Total(counts[1..])
  }

  /** `counts[t] = counts.get(t, 0) + 1`: bumps the entry of `t` in place, or
      appends a new entry `(t, 1)` at the end. */
  function Bump(counts: seq<(seq<int>, nat)>, t: seq<int>): (r: seq<(seq<int>, nat)>)
    ensures Get(r, t) == Get(counts, t) + 1
    ensures forall u :: u != t ==> Get(r, u) == Get(counts, u)
    ensures Total(r) == Total(counts) + 1
  {
    if counts == [] then [(t, 1)]
    else if counts[0].0 == t then
      var r := [(t, counts[0].1 + 1)] + counts[1..];
      assert r[1..] == counts[1..];
      r
    else
      var rest := Bump(counts[1..], t);
      var r := [counts[0]] + rest;
      assert r[1..] == rest;
      r
  }

  /** Bumping keeps the keys, in their order, and appends `t` if it was missing. */
  lemma {:induction false} BumpKeys(counts: seq<(seq<int>, nat)>, t: seq<int>)
    ensures Keys(Bump(counts, t)) == if t in Keys(counts) then Keys(counts) else Keys(counts) + [t]
  {
    if counts != [] {
      var rest := counts[1..];
      assert counts == [counts[0]] + rest;
      KeysCons(counts[0], rest);
      if counts[0].0 == t {
        KeysCons((t, counts[0].1 + 1), rest);
      } else {
        BumpKeys(rest, t);
        KeysCons(counts[0], Bump(rest, t));
        assert t in Keys(counts) <==> t in Keys(rest);
        if t !in Keys(rest) {
          assert [counts[0].0] + (Keys(rest) + [t]) == ([counts[0].0] + Keys(rest)) + [t];
        }
      }
    }
  }

  lemma KeysCons<K>(e: (K, nat), es: seq<(K, nat)>)
    ensures Keys([e] + es) == [e.0] + Keys(es)
  {
    assert forall i :: 1 <= i < |es| + 1 ==> ([e] + es)[i] == es[i - 1];
  }

  /** Appending a new value keeps a sequence free of duplicates. */
  lemma SnocNoDuplicates<T>(s: seq<T>, x: T)
    requires NoDuplicates(s) && x !in s
    ensures NoDuplicates(s + [x])
  {
    var r := s + [x];
    forall i, j | 0 <= i < j < |r| ensures r[i] != r[j] {
      assert r[i] == s[i];
      if j < |s| {
        assert r[j] == s[j];
      }
    }
  }

  /** `counts` is the dictionary of `items`: each item once as a key, keys in
      the order of their first occurrence, with the number of times each
      occurs, and counts adding up to the number of items. */
  ghost predicate Tallies(counts: seq<(seq<int>, nat)>, items: seq<seq<int>>) {
    && NoDuplicates(Keys(counts))
    && (forall t :: t in Keys(counts) <==> t in items)
    && InFirstSeenOrder(Keys(counts), items)
    && (forall t :: Get(counts, t) == multiset(items)[t])
    && Total(counts) == |items|
  }

  /** Bumping one more item keeps the dictionary in step with the items. */
  lemma BumpTallies(counts: seq<(seq<int>, nat)>, items: seq<seq<int>>, x: seq<int>)
    requires Tallies(counts, items)
    ensures Tallies(Bump(counts, x), items + [x])
  {
    BumpTalliesKeys(counts, items, x);
    BumpTalliesCounts(counts, items, x);
  }

  /** The keys after a bump: still distinct, exactly the items seen, in the
      order they were first seen. */
  lemma BumpTalliesKeys(counts: seq<(seq<int>, nat)>, items: seq<seq<int>>, x: seq<int>)
    requires Tallies(counts, items)
    ensures NoDuplicates(Keys(Bump(counts, x)))
    ensures forall t :: t in Keys(Bump(counts, x)) <==> t in items + [x]
    ensures InFirstSeenOrder(Keys(Bump(counts, x)), items + [x])
  {
    BumpKeys(counts, x);
    assert x in Keys(counts) <==> x in items;
    if x !in items {
      SnocNoDuplicates(Keys(counts), x);
    }
    SnocFirstSeenOrder(Keys(counts), items, x);
    assert forall t :: t in items + [x] <==> t in items || t == x;
  }

  /** The counts after a bump: one more for `x`, the total one larger. */
  lemma BumpTalliesCounts(counts: seq<(seq<int>, nat)>, items: seq<seq<int>>, x: seq<int>)
    requires Tallies(counts, items)
    ensures forall t :: Get(Bump(counts, x), t) == multiset(items + [x])[t]
    ensures Total(Bump(counts, x)) == |items + [x]|
  {
    assert multiset(items + [x]) == multiset(items) + multiset{x};
  }

  /** The counting loop of `analyze_triplets` / `analyze_quads`: for every draw,
      sorted, and every k-combination of it, adds one to that combination's count.
      Afterwards the dictionary holds each visited combination once, with the
      number of times it was visited. */
  method CountCombinations(h: History, k: nat) returns (counts: seq<(seq<int>, nat)>)
    ensures Tallies(counts, DrawCombos(h, k))
  {
    counts := [];
    TalliesStart(h, k);
    for j := 0 to |h|
      invariant Tallies(counts, DrawCombos(h[..j], k))
    {
      var drawNumbers := SortAsc(h[j]);
      var combos := Combos(drawNumbers, k);
      ghost var before := DrawCombos(h[..j], k);
      TalliesOpen(counts, before, combos);
      for c := 0 to |combos|
        invariant Tallies(counts, before + combos[..c])
      {
        BumpNext(counts, before, combos, c);
        counts := Bump(counts, combos[c]);
      }
      TalliesClose(counts, h, j, k);
    }
    TalliesEnd(counts, h, k);
  }

  // Steps of the counting loop, each moving the tallied items to an equal sequence.

  lemma TalliesStart(h: History, k: nat)
    ensures Tallies([], DrawCombos(h[..0], k))
  {
    assert h[..0] == [];
  }

  lemma TalliesOpen(counts: seq<(seq<int>, nat)>, before: seq<seq<int>>, combos: seq<seq<int>>)
    requires Tallies(counts, before)
    ensures Tallies(counts, before + combos[..0])
  {
    assert before + combos[..0] == before;
  }

  /** Bumping the next combination of a draw extends the tallied prefix by one. */
  lemma BumpNext(counts: seq<(seq<int>, nat)>, before: seq<seq<int>>, combos: seq<seq<int>>, c: nat)
    requires c < |combos| && Tallies(counts, before + combos[..c])
    ensures Tallies(Bump(counts, combos[c]), before + combos[..c + 1])
  {
    assert before + combos[..c + 1] == (before + combos[..c]) + [combos[c]];
    BumpTallies(counts, before + combos[..c], combos[c]);
  }

  lemma TalliesClose(counts: seq<(seq<int>, nat)>, h: History, j: nat, k: nat)
    requires j < |h|
    requires Tallies(counts, DrawCombos(h[..j], k) + Combos(SortAsc(h[j]), k)[..|Combos(SortAsc(h[j]), k)|])
    ensures Tallies(counts, DrawCombos(h[..j + 1], k))
  {
    var combos := Combos(SortAsc(h[j]), k);
    assert combos[..|combos|] == combos;
    assert h[..j + 1][..j] == h[..j];
    assert DrawCombos(h[..j + 1], k) == DrawCombos(h[..j], k) + combos;
  }

  lemma TalliesEnd(counts: seq<(seq<int>, nat)>, h: History, k: nat)
    requires Tallies(counts, DrawCombos(h[..|h|], k))
    ensures Tallies(counts, DrawCombos(h, k))
  {
    assert h[..|h|] == h;
  }

  /** The ranking both analyses return: the `topN` entries of the dictionary by
      decreasing count. Each reported combination comes with the number of
      times it was visited, none left out was visited more often than one
      reported, fewer than `topN` entries means every visited combination is
      reported, and since the sort is stable, combinations of equal count come
      in the order in which they were first visited. */
  method TopCombinations(h: History, k: nat, topN: nat) returns (r: seq<(seq<int>, nat)>)
    ensures |r| <= topN
    ensures CountsNonIncreasing(r)
    ensures NoDuplicates(Keys(r))
    ensures forall e :: e in r ==> e.0 in DrawCombos(h, k) && e.1 == multiset(DrawCombos(h, k))[e.0]
    ensures BeatsLeftOut(r, DrawCombos(h, k))
    ensures |r| < topN ==> forall t :: t in DrawCombos(h, k) ==> t in Keys(r)
    ensures forall i, j :: 0 <= i < j < |r| && r[i].1 == r[j].1 ==>
              FirstIndex(DrawCombos(h, k), r[i].0) < FirstIndex(DrawCombos(h, k), r[j].0)
  {
    var counts := CountCombinations(h, k);
    r := Top(counts, topN);
    TopEntries(counts, DrawCombos(h, k), topN);
    TopBeatsLeftOut(counts, DrawCombos(h, k), topN);
    if |r| < topN {
      TopAll(counts, topN);
    }
    TiesInFirstSeenOrder(counts, DrawCombos(h, k), topN);
  }

  /** The cut of a tally reports distinct items, each with its exact count. */
  lemma TopEntries(counts: seq<(seq<int>, nat)>, items: seq<seq<int>>, topN: nat)
    requires Tallies(counts, items)
    ensures NoDuplicates(Keys(Top(counts, topN)))
    ensures forall e :: e in Top(counts, topN) ==> e.0 in items && e.1 == multiset(items)[e.0]
  {
    EntriesAreCounts(counts);
    TopMembers(counts, topN);
    TopKeysDistinct(counts, topN);
    forall e | e in Top(counts, topN) ensures e.0 in items {
      var i :| 0 <= i < |counts| && counts[i] == e;
      assert Keys(counts)[i] == e.0;
    }
  }

  /** Every entry of `r` beats every item of `items` it leaves out: the item
      occurs less often, or as often but is first seen later. */
  ghost predicate BeatsLeftOut(r: seq<(seq<int>, nat)>, items: seq<seq<int>>) {
    forall e, t :: e in r && t in items && t !in Keys(r) ==>
      multiset(items)[t] < e.1 || (multiset(items)[t] == e.1 && FirstIndex(items, e.0) < FirstIndex(items, t))
  }

  /** No item left out of the cut of a tally occurs more often than one
      reported, and of two equally frequent items the one seen first is kept. */
  lemma TopBeatsLeftOut(counts: seq<(seq<int>, nat)>, items: seq<seq<int>>, topN: nat)
    requires Tallies(counts, items)
    ensures BeatsLeftOut(Top(counts, topN), items)
  {
    forall t | t in items && t !in Keys(Top(counts, topN))
      ensures forall e :: e in Top(counts, topN) ==>
                multiset(items)[t] < e.1 || (multiset(items)[t] == e.1 && FirstIndex(items, e.0) < FirstIndex(items, t))
    {
      TallyLeftOut(counts, items, topN, t);
    }
  }

  /** One item left out of the cut of a tally, against every entry kept. */
  lemma TallyLeftOut(counts: seq<(seq<int>, nat)>, items: seq<seq<int>>, topN: nat, t: seq<int>)
    requires Tallies(counts, items) && t in items && t !in Keys(Top(counts, topN))
    ensures forall e :: e in Top(counts, topN) ==>
              multiset(items)[t] < e.1 || (multiset(items)[t] == e.1 && FirstIndex(items, e.0) < FirstIndex(items, t))
  {
    var r := Top(counts, topN);
    EntriesAreCounts(counts);
    TalliesRanked(counts, items);
    var f := EntryOf(counts, t);
    assert f !in r by {
      assert forall m :: 0 <= m < |r| ==> r[m].0 == Keys(r)[m];
    }
    TopPrecedesLeftOut(counts, topN, FirstSeen(items), f);
    forall i | 0 <= i < |r|
      ensures multiset(items)[t] < r[i].1 || (multiset(items)[t] == r[i].1 && FirstIndex(items, r[i].0) < FirstIndex(items, t))
    {
      assert Precedes(r[i], f, FirstSeen(items));
    }
  }

  /** The position at which an item is first met: the order of a tally's keys. */
  function FirstSeen(items: seq<seq<int>>): seq<int> -> int {
    t => FirstIndex(items, t)
  }

  /** Ranking a tally by count keeps equal counts in first-seen order. */
  lemma TalliesRanked(counts: seq<(seq<int>, nat)>, items: seq<seq<int>>)
    requires Tallies(counts, items)
    ensures RankedBy(Rank(counts), FirstSeen(items))
  {
    assert forall i :: 0 <= i < |counts| ==> Keys(counts)[i] == counts[i].0;
    RankIsStable(counts, FirstSeen(items));
  }

  /** The stable sort and the cut keep equal counts in the dictionary's order,
      which is the order of first occurrence. */
  lemma TiesInFirstSeenOrder(counts: seq<(seq<int>, nat)>, items: seq<seq<int>>, topN: nat)
    requires Tallies(counts, items)
    ensures forall i, j :: 0 <= i < j < |Top(counts, topN)| && Top(counts, topN)[i].1 == Top(counts, topN)[j].1 ==>
              FirstIndex(items, Top(counts, topN)[i].0) < FirstIndex(items, Top(counts, topN)[j].0)
  {
    TalliesRanked(counts, items);
    TopRankedBy(counts, topN, FirstSeen(items));
    var r := Top(counts, topN);
    assert forall i, j :: 0 <= i < j < |r| ==> Precedes(r[i], r[j], FirstSeen(items));
  }

  /** `analyze_triplets`: the `topN` most frequent triplets. */
  method AnalyzeTriplets(h: History, topN: nat := 20) returns (r: seq<(seq<int>, nat)>)
    ensures |r| <= topN && CountsNonIncreasing(r) && NoDuplicates(Keys(r))
    ensures forall e :: e in r ==> e.0 in DrawCombos(h, 3) && e.1 == multiset(DrawCombos(h, 3))[e.0]
    ensures BeatsLeftOut(r, DrawCombos(h, 3))
    ensures |r| < topN ==> forall t :: t in DrawCombos(h, 3) ==> t in Keys(r)
    ensures forall i, j :: 0 <= i < j < |r| && r[i].1 == r[j].1 ==>
              FirstIndex(DrawCombos(h, 3), r[i].0) < FirstIndex(DrawCombos(h, 3), r[j].0)
  {
    r := TopCombinations(h, 3, topN);
  }

  /** `analyze_quads`: the `topN` most frequent quads. */
  method AnalyzeQuads(h: History, topN: nat := 20) returns (r: seq<(seq<int>, nat)>)
    ensures |r| <= topN && CountsNonIncreasing(r) && NoDuplicates(Keys(r))
    ensures forall e :: e in r ==> e.0 in DrawCombos(h, 4) && e.1 == multiset(DrawCombos(h, 4))[e.0]
    ensures BeatsLeftOut(r, DrawCombos(h, 4))
    ensures |r| < topN ==> forall t :: t in DrawCombos(h, 4) ==> t in Keys(r)
    ensures forall i, j :: 0 <= i < j < |r| && r[i].1 == r[j].1 ==>
              FirstIndex(DrawCombos(h, 4), r[i].0) < FirstIndex(DrawCombos(h, 4), r[j].0)
  {
    r := TopCombinations(h, 4, topN);
  }

  /** The dictionary entry of a key it holds. */
  lemma EntryOf(counts: seq<(seq<int>, nat)>, t: seq<int>) returns (e: (seq<int>, nat))
    requires t in Keys(counts)
    ensures e in counts && e.0 == t
  {
    var i :| 0 <= i < |counts| && Keys(counts)[i] == t;
    e := counts[i];
  }

  /** With distinct keys, every entry holds the count `Get` finds for its key. */
  lemma {:induction false} EntriesAreCounts(counts: seq<(seq<int>, nat)>)
    requires NoDuplicates(Keys(counts))
    ensures forall e :: e in counts ==> e.1 == Get(counts, e.0)
  {
    if counts != [] {
      var rest := counts[1..];
      assert Keys(rest) == Keys(counts)[1..];
      EntriesAreCounts(rest);
      forall e | e in rest ensures e.0 != counts[0].0 {
        var i :| 0 <= i < |rest| && rest[i] == e;
        assert Keys(counts)[i + 1] == e.0;
      }
    }
  }

  /** Cutting a ranking of entries with distinct keys keeps the keys distinct. */
  lemma TopKeysDistinct(es: seq<(seq<int>, nat)>, k: nat)
    requires NoDuplicates(Keys(es))
    ensures NoDuplicates(Keys(Top(es, k)))
  {
    var top, rk := Top(es, k), Rank(es);
    assert NoDuplicates(es) by {
      forall i, j | 0 <= i < j < |es| ensures es[i] != es[j] {
        assert Keys(es)[i] != Keys(es)[j];
      }
    }
    NoDuplicatesIsOnce(es);
    assert forall e :: multiset(rk)[e] == multiset(es)[e];
    NoDuplicatesIsOnce(rk);
    forall i, j | 0 <= i < j < |top| ensures top[i].0 != top[j].0 {
      assert top[i] == rk[i] && top[j] == rk[j];
      assert rk[i] in multiset(es) && rk[j] in multiset(es);
      var a :| 0 <= a < |es| && es[a] == rk[i];
      var b :| 0 <= b < |es| && es[b] == rk[j];
      assert a != b;
      assert Keys(es)[a] == rk[i].0 && Keys(es)[b] == rk[j].0;
    }
  }

  /** A well-formed table yields c = C(15, k) combinations per draw. */
  lemma {:induction false} DrawCombosLength(h: History, k: nat, c: nat)
    requires WellFormed(h) && c == Choose(BallsPerDraw, k)
    ensures |DrawCombos(h, k)| == c * |h|
  {
    if h != [] {
      var p := h[..|h| - 1];
      assert WellFormed(p) by {
        forall j | 0 <= j < |p| ensures |p[j]| == BallsPerDraw {
          assert p[j] == h[j];
        }
      }
      DrawCombosLength(p, k, c);
      CombosCount(SortAsc(h[|h| - 1]), k);
      assert |DrawCombos(h, k)| == c * |p| + c;
      MulSucc(c, |p|);
    }
  }

  lemma MulSucc(c: nat, a: nat)
    ensures c * a + c == c * (a + 1)
  {
  }

  /** A draw of 15 numbers has 455 triplets. */
  lemma TripletsPerDraw()
    ensures Choose(BallsPerDraw, 3) == 455
  {
    ChooseThree(BallsPerDraw);
  }

  /** A draw of 15 numbers has 1365 quads. */
  lemma QuadsPerDraw()
    ensures Choose(BallsPerDraw, 4) == 1365
  {
    ChooseFour(BallsPerDraw);
  }

  /** Hence a table yields 455 triplets per draw ... */
  lemma TripletTotal(h: History)
    requires WellFormed(h)
    ensures |DrawCombos(h, 3)| == 455 * |h|
  {
    DrawCombosLength(h, 3, Choose(BallsPerDraw, 3));
    TripletsPerDraw();
  }

  /** ... and 1365 quads per draw. */
  lemma QuadTotal(h: History)
    requires WellFormed(h)
    ensures |DrawCombos(h, 4)| == 1365 * |h|
  {
    DrawCombosLength(h, 4, Choose(BallsPerDraw, 4));
    QuadsPerDraw();
  }

  /** Whether the draw contains every number of `t`. */
  predicate Covers(d: Draw, t: seq<int>) {
    forall x :: x in t ==> x in d
  }

  /** The number of draws of the table that contain every number of `t`. */
  function DrawsWith(h: History, t: seq<int>): nat {
    if h == [] then 0 else DrawsWith(h[..|h| - 1], t) + if Covers(h[|h| - 1], t) then 1 else 0
  }

  /** In a valid draw, an ascending k-combination is visited once if the draw
      contains it and never otherwise. */
  lemma CombosOfDraw(d: Draw, k: nat, t: seq<int>)
    requires ValidDraw(d) && StrictlyIncreasing(t) && |t| == k
    ensures multiset(Combos(SortAsc(d), k))[t] == if Covers(d, t) then 1 else 0
  {
    SortAscOfSorted(d);
    var cs := Combos(d, k);
    CombosNoDuplicates(d, k);
    NoDuplicatesIsOnce(cs);
    if Covers(d, t) {
      CombosComplete(d, k, t);
    } else if t in cs {
      CombosOfStrict(d, k, t);
      assert false;
    }
  }

  /** Over a valid table, the count of an ascending k-combination is the number of
      draws that contain all of its numbers. */
  lemma {:induction false} CountIsDrawsWith(h: History, k: nat, t: seq<int>)
    requires ValidHistory(h) && StrictlyIncreasing(t) && |t| == k
    ensures multiset(DrawCombos(h, k))[t] == DrawsWith(h, t)
  {
    if h != [] {
      var p := h[..|h| - 1];
      ValidHistoryPrefix(h);
      CountIsDrawsWith(p, k, t);
      CombosOfDraw(h[|h| - 1], k, t);
    }
  }

  /** Only ascending k-combinations of drawn numbers are ever counted. */
  lemma {:induction false} DrawCombosShape(h: History, k: nat, t: seq<int>)
    requires ValidHistory(h) && t in DrawCombos(h, k)
    ensures |t| == k && StrictlyIncreasing(t)
    ensures exists j :: 0 <= j < |h| && Covers(h[j], t)
  {
    var p := h[..|h| - 1];
    var d := h[|h| - 1];
    SortAscOfSorted(d);
    if t in Combos(SortAsc(d), k) {
      CombosOfStrict(d, k, t);
      assert Covers(h[|h| - 1], t);
    } else {
      ValidHistoryPrefix(h);
      DrawCombosShape(p, k, t);
      var j :| 0 <= j < |p| && Covers(p[j], t);
      assert p[j] == h[j];
    }
  }

  // ---------------------------------------------------------------------------
  // Sum and range

  /** The largest ball of a row (`max(axis=1)`). */
  function Max(s: seq<int>): (m: int)
    requires s != []
    ensures m in s && forall x :: x in s ==> x <= m
  {
    if |s| == 1 then s[0]
    else
      var p := s[..|s| - 1];
      assert s == p + [s[|s| - 1]];
      var m := Max(p);
      if s[|s| - 1] > m then s[|s| - 1] else m
  }

  /** The smallest ball of a row (`min(axis=1)`). */
  function Min(s: seq<int>): (m: int)
    requires s != []
    ensures m in s && forall x :: x in s ==> m <= x
  {
    if |s| == 1 then s[0]
    else
      var p := s[..|s| - 1];
      assert s == p + [s[|s| - 1]];
      var m := Min(p);
      if s[|s| - 1] < m then s[|s| - 1] else m
  }

  /** `analyze_sum_and_range`: for each draw, the sum of its balls ("Soma") and
      the largest minus the smallest ("Faixa"). */
  function SumAndRange(h: History): (r: seq<(int, int)>)
    requires WellFormed(h)
    ensures |r| == |h|
    ensures forall j :: 0 <= j < |h| ==> r[j].1 >= 0
  {
    seq(|h|, j requires 0 <= j < |h| => (Sum(h[j]), Max(h[j]) - Min(h[j])))
  }

  /** If the ball in position i is at least i + 1, twice the sum is at least n(n + 1). */
  lemma {:induction false} SumAtLeast(s: seq<int>)
    requires forall i :: 0 <= i < |s| ==> s[i] >= i + 1
    ensures 2 * Sum(s) >= |s| * (|s| + 1)
  {
    if s != [] {
      var p := s[..|s| - 1];
      SumAtLeast(p);
    }
  }

  /** If the ball in position i is at most i + 11, twice the sum is at most n(n + 1) + 20n. */
  lemma {:induction false} SumAtMost(s: seq<int>)
    requires forall i :: 0 <= i < |s| ==> s[i] <= i + 11
    ensures 2 * Sum(s) <= |s| * (|s| + 1) + 20 * |s|
  {
    if s != [] {
      var p := s[..|s| - 1];
      SumAtMost(p);
    }
  }

  /** For a valid draw the spread is last ball minus first ball, between 14 and 24,
      and the sum lies between 1 + .. + 15 = 120 and 11 + .. + 25 = 270. */
  lemma ValidDrawSumAndRange(d: Draw)
    requires ValidDraw(d)
    ensures Max(d) - Min(d) == d[|d| - 1] - d[0]
    ensures 14 <= Max(d) - Min(d) <= 24
    ensures 120 <= Sum(d) <= 270
  {
    ValidDrawPositions(d);
    StrictGap(d, 0, |d| - 1);
    assert d[0] in d && d[|d| - 1] in d;
    forall x | x in d ensures d[0] <= x <= d[|d| - 1] {
      var i :| 0 <= i < |d| && d[i] == x;
      if i > 0 {
        StrictGap(d, 0, i);
      }
      if i < |d| - 1 {
        StrictGap(d, i, |d| - 1);
      }
    }
    SumAtLeast(d);
    SumAtMost(d);
  }

  /** Every row of the sum-and-range table of a valid history lies in those bounds. */
  lemma SumAndRangeBounds(h: History)
    requires ValidHistory(h)
    ensures forall j :: 0 <= j < |h| ==>
              var r := SumAndRange(h)[j];
              120 <= r.0 <= 270 && 14 <= r.1 <= 24 && r.1 == h[j][BallsPerDraw - 1] - h[j][0]
  {
    forall j | 0 <= j < |h|
      ensures 120 <= SumAndRange(h)[j].0 <= 270 && 14 <= SumAndRange(h)[j].1 <= 24
      ensures SumAndRange(h)[j].1 == h[j][BallsPerDraw - 1] - h[j][0]
    {
      ValidDrawSumAndRange(h[j]);
    }
  }

  // ---------------------------------------------------------------------------
  // Positional frequencies

  /** `analyze_positional_frequencies`: for each of the 15 positions, how many
      times each number 1..25 was drawn in that position (0 when never). */
  method PositionalFrequencies(h: History) returns (table: seq<seq<nat>>)
    requires WellFormed(h)
    ensures |table| == BallsPerDraw
    ensures forall i :: 0 <= i < BallsPerDraw ==> |table[i]| == NumberCount
    ensures forall i, n :: 0 <= i < BallsPerDraw && 1 <= n <= NumberCount ==>
              table[i][n - 1] == multiset(Column(h, i))[n]
  {
    table := [];
    for i := 0 to BallsPerDraw
      invariant |table| == i
      invariant forall p :: 0 <= p < i ==> |table[p]| == NumberCount
      invariant forall p, n :: 0 <= p < i && 1 <= n <= NumberCount ==> table[p][n - 1] == multiset(Column(h, p))[n]
    {
      var freq := multiset(Column(h, i));
      var counts: seq<nat> := [];
      for num := 1 to NumberCount + 1
        invariant |counts| == num - 1
        invariant forall n :: 1 <= n < num ==> counts[n - 1] == freq[n]
      {
        counts := counts + [freq[num]];
      }
      table := table + [counts];
    }
  }

  /** On a valid table, number n never appears in position i (from 0) unless
      i + 1 <= n <= i + 11. */
  lemma PositionWindow(h: History, i: nat, n: int)
    requires ValidHistory(h) && i < BallsPerDraw
    requires n < i + 1 || n > i + 11
    ensures multiset(Column(h, i))[n] == 0
  {
    var c := Column(h, i);
    forall j | 0 <= j < |c| ensures c[j] != n {
      ValidDrawPositions(h[j]);
    }
  }

  /** On a valid table, the counts of one position over the numbers 1..25 add
      up to the number of draws. */
  lemma {:induction false} PositionTotal(h: History, i: nat)
    requires ValidHistory(h) && i < BallsPerDraw
    ensures CountOver(multiset(Column(h, i)), Range(1, NumberCount + 1)) == |h|
  {
    var cells := Range(1, NumberCount + 1);
    if h == [] {
      CountOverNone(cells);
    } else {
      var p := h[..|h| - 1];
      ValidHistoryPrefix(h);
      PositionTotal(p, i);
      ColumnSnoc(h, i);
      CountOverAddNumber(multiset(Column(p, i)), h[|h| - 1][i]);
    }
  }

  /** Counting one more number of 1..25 adds one to the total over 1..25. */
  lemma CountOverAddNumber(m: multiset<int>, x: int)
    requires 1 <= x <= NumberCount
    ensures CountOver(m + multiset{x}, Range(1, NumberCount + 1)) == CountOver(m, Range(1, NumberCount + 1)) + 1
  {
    var cells := Range(1, NumberCount + 1);
    assert NoDuplicates(cells);
    CountOverAdd(m, x, cells);
  }
}
