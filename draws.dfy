/** The draw table: one row per Lotofácil contest, in contest order, each row
    holding the 15 balls of that draw in ascending order (columns Bola1..Bola15). */
module Draws {
  import opened Sequences

  /** `NUM_DEZENAS`: the numbers of the game are 1..25. */
  const NumberCount: nat := 25
  /** `DEZENAS_POR_JOGO`: a draw and a ticket both have 15 numbers. */
  const BallsPerDraw: nat := 15

  type Draw = seq<int>
  type History = seq<Draw>

  /** Every row has the 15 ball columns. */
  predicate WellFormed(h: History) {
    forall j :: 0 <= j < |h| ==> |h[j]| == BallsPerDraw
  }

  /** A draw as the loader stores it: 15 distinct numbers of 1..25, sorted. */
  predicate ValidDraw(d: Draw) {
    && |d| == BallsPerDraw
    && StrictlyIncreasing(d)
    && forall i :: 0 <= i < |d| ==> 1 <= d[i] <= NumberCount
  }

  predicate ValidHistory(h: History) {
    forall j :: 0 <= j < |h| ==> ValidDraw(h[j])
  }

  /** All balls of all rows, row after row. */
  function Flatten(h: History): seq<int> {
    if h == [] then [] else Flatten(h[..|h| - 1]) + h[|h| - 1]
  }

  /** How many times `n` was drawn in the whole table. */
  function Occurrences(h: History, n: int): nat {
    multiset(Flatten(h))[n]
  }

  /** Dropping the latest draw of a valid table leaves a valid table. */
  lemma ValidHistoryPrefix(h: History)
    requires ValidHistory(h) && h != []
    ensures ValidHistory(h[..|h| - 1]) && ValidDraw(h[|h| - 1])
  {
    var p := h[..|h| - 1];
    forall j | 0 <= j < |p| ensures ValidDraw(p[j]) {
      assert p[j] == h[j];
    }
  }

  /** Every drawn number of a valid table lies in 1..25. */
  lemma {:induction false} FlattenInRange(h: History)
    requires ValidHistory(h)
    ensures forall x :: x in Flatten(h) ==> 1 <= x <= NumberCount
  {
    if h != [] {
      var p := h[..|h| - 1];
      ValidHistoryPrefix(h);
      FlattenInRange(p);
      var d := h[|h| - 1];
      assert ValidDraw(d);
      forall x | x in d ensures 1 <= x <= NumberCount {
        var i :| 0 <= i < |d| && d[i] == x;
      }
    }
  }

  /** In a valid draw the ball in position i (from 0) is between i + 1 and i + 11:
      i smaller numbers come before it and 14 - i larger ones after it. */
  lemma ValidDrawPositions(d: Draw)
    requires ValidDraw(d)
    ensures forall i :: 0 <= i < |d| ==> i + 1 <= d[i] <= i + 11
  {
    forall i | 0 <= i < |d| ensures i + 1 <= d[i] <= i + 11 {
      StrictGap(d, 0, i);
      StrictGap(d, i, |d| - 1);
    }
  }

  /** A table with at least one well-formed row has drawn numbers. */
  lemma FlattenEmpty(h: History)
    requires WellFormed(h)
    ensures Flatten(h) == [] <==> h == []
  {
    if h != [] {
      assert |h[|h| - 1]| == BallsPerDraw;
      assert |Flatten(h)| >= |h[|h| - 1]|;
    }
  }

  /** Column `i` of the table (`df[f'Bola{i+1}'].tolist()`). */
  function Column(h: History, i: nat): (c: seq<int>)
    requires forall j :: 0 <= j < |h| ==> i < |h[j]|
    ensures |c| == |h| && forall j :: 0 <= j < |h| ==> c[j] == h[j][i]
  {
    seq(|h|, j requires 0 <= j < |h| => h[j][i])
  }

  /** The column of a table is the column of all rows but the last, then the last row's ball. */
  lemma ColumnSnoc(h: History, i: nat)
    requires h != [] && forall j :: 0 <= j < |h| ==> i < |h[j]|
    ensures multiset(Column(h, i)) == multiset(Column(h[..|h| - 1], i)) + multiset{h[|h| - 1][i]}
  {
    assert Column(h, i) == Column(h[..|h| - 1], i) + [h[|h| - 1][i]];
  }

  /** The first `n` balls of every row, row after row. */
  function RowPrefixes(h: History, n: nat): seq<int>
    requires forall j :: 0 <= j < |h| ==> n <= |h[j]|
  {
    if h == [] then [] else RowPrefixes(h[..|h| - 1], n) + h[|h| - 1][..n]
  }

  /** Adding column `n` to the collected balls adds ball `n` of every row. */
  lemma {:induction false} RowPrefixesStep(h: History, n: nat)
    requires forall j :: 0 <= j < |h| ==> n < |h[j]|
    ensures multiset(RowPrefixes(h, n + 1)) == multiset(RowPrefixes(h, n)) + multiset(Column(h, n))
  {
    if h != [] {
      var p := h[..|h| - 1];
      var d := h[|h| - 1];
      RowPrefixesStep(p, n);
      assert Column(h, n) == Column(p, n) + [d[n]];
      assert d[..n + 1] == d[..n] + [d[n]];
    }
  }

  /** All 15 balls of every row are exactly the flattened table. */
  lemma {:induction false} RowPrefixesFull(h: History)
    requires WellFormed(h)
    ensures RowPrefixes(h, BallsPerDraw) == Flatten(h)
  {
    if h != [] {
      var p := h[..|h| - 1];
      assert WellFormed(p) by {
        forall j | 0 <= j < |p| ensures |p[j]| == BallsPerDraw {
          assert p[j] == h[j];
        }
      }
      RowPrefixesFull(p);
      assert h[|h| - 1][..BallsPerDraw] == h[|h| - 1];
    }
  }

  lemma {:induction false} RowPrefixesNone(h: History)
    ensures RowPrefixes(h, 0) == []
  {
    if h != [] {
      RowPrefixesNone(h[..|h| - 1]);
    }
  }

  /** `get_all_numbers`: appends the columns Bola1..Bola15 one after the other,
      then sorts. The result is the sorted list of every ball drawn. */
  method GetAllNumbers(h: History) returns (all: seq<int>)
    requires WellFormed(h)
    ensures Sorted(all)
    ensures multiset(all) == multiset(Flatten(h))
    ensures all == [] <==> h == []
  {
    if |h| == 0 {
      return [];
    }
    var acc: seq<int> := [];
    RowPrefixesNone(h);
    for i := 0 to BallsPerDraw
      invariant multiset(acc) == multiset(RowPrefixes(h, i))
    {
      RowPrefixesStep(h, i);
      acc := acc + Column(h, i);
    }
    RowPrefixesFull(h);
    FlattenEmpty(h);
    all := SortAsc(acc);
    assert |all| == |Flatten(h)|;
  }
}
