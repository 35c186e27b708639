/** `estrategia_linhas_colunas`: the 25 numbers laid out on the 5×5 ticket
    grid (row r holds 5r-4..5r, column c holds c, c+5, .., c+20); the strategy
    returns the row, or the column, whose numbers were drawn most often. */
module Grid {
  import opened Sequences
  import opened Draws

  /** Row `(n - 1) // 5 + 1` or column `(n - 1) % 5 + 1` of number `n`
      (Python's `//` and `%` agree with Dafny's for the positive divisor 5). */
  function LineOf(byRow: bool, n: int): int {
    if byRow then (n - 1) / 5 + 1 else (n - 1) % 5 + 1
  }

  /** The numbers of row `i` (5i-4 .. 5i) or of column `i` (i, i+5, .., i+20), ascending. */
  function Cells(byRow: bool, i: int): (r: seq<int>)
    ensures |r| == 5
    ensures StrictlyIncreasing(r)
  {
    seq(5, k requires 0 <= k < 5 => if byRow then 5 * (i - 1) + k + 1 else i + 5 * k)
  }

  /** Every number of 1..25 lies on exactly one row and one column, and a line
      holds exactly the numbers placed on it. */
  lemma CellsOfLine(byRow: bool, i: int, x: int)
    requires 1 <= i <= 5
    ensures x in Cells(byRow, i) <==> 1 <= x <= NumberCount && LineOf(byRow, x) == i
  {
    var c := Cells(byRow, i);
    if x in c {
      var k :| 0 <= k < 5 && c[k] == x;
      if byRow {
        assert x - 1 == 5 * (i - 1) + k;
      } else {
        assert x - 1 == 5 * k + (i - 1);
      }
    }
    if 1 <= x <= NumberCount && LineOf(byRow, x) == i {
      if byRow {
        var k := (x - 1) % 5;
        assert c[k] == x;
      } else {
        var k := (x - 1) / 5;
        assert c[k] == x;
      }
    }
  }

  /** The numbers 1..m-1 placed on line `i`, in the order the grid loop appends them. */
  function LineUpTo(byRow: bool, i: int, m: int): (r: seq<int>)
    ensures StrictlyIncreasing(r)
    ensures forall x :: x in r <==> 1 <= x < m && LineOf(byRow, x) == i
    decreases m
  {
    if m <= 1 then []
    else
      var p := LineUpTo(byRow, i, m - 1);
      assert forall j :: 0 <= j < |p| ==> p[j] in p;
      if LineOf(byRow, m - 1) == i then p + [m - 1] else p
  }

  /** Once every number of 1..25 has been placed, each line is exactly its cells. */
  lemma LineUpToIsCells(byRow: bool, i: int)
    requires 1 <= i <= 5
    ensures LineUpTo(byRow, i, NumberCount + 1) == Cells(byRow, i)
  {
    forall x ensures x in LineUpTo(byRow, i, NumberCount + 1) <==> x in Cells(byRow, i) {
      CellsOfLine(byRow, i, x);
    }
    StrictlyIncreasingUnique(LineUpTo(byRow, i, NumberCount + 1), Cells(byRow, i));
  }

  /** `grid` (or `col_grid`): for each number of 1..25, append it to its line. */
  method BuildLines(byRow: bool) returns (grid: map<int, seq<int>>)
    ensures forall i :: 1 <= i <= 5 ==> i in grid && grid[i] == Cells(byRow, i)
  {
    grid := map[1 := [], 2 := [], 3 := [], 4 := [], 5 := []];
    for num := 1 to NumberCount + 1
      invariant forall i :: 1 <= i <= 5 ==> i in grid && grid[i] == LineUpTo(byRow, i, num)
    {
      var line := LineOf(byRow, num);
      grid := grid[line := grid[line] + [num]];
    }
    forall i | 1 <= i <= 5 ensures grid[i] == Cells(byRow, i) {
      LineUpToIsCells(byRow, i);
    }
  }

  /** The number of times the numbers of line `i` were drawn, in total. */
  function LineHits(h: History, byRow: bool, i: int): nat {
    CountOver(multiset(Flatten(h)), Cells(byRow, i))
  }

  /** `freq_grid` (or `freq_col`): one pass over the drawn balls, adding one to
      the counter of the line of each. A ball outside 1..25 would be a missing key. */
  method CountLines(all: seq<int>, byRow: bool) returns (freq: map<int, nat>)
    requires forall x :: x in all ==> 1 <= x <= NumberCount
    ensures forall i :: 1 <= i <= 5 ==> i in freq && freq[i] == CountOver(multiset(all), Cells(byRow, i))
  {
    freq := map[1 := 0, 2 := 0, 3 := 0, 4 := 0, 5 := 0];
    NoLineTotals(freq, byRow);
    assert all[..0] == [];
    for k := 0 to |all|
      invariant LineTotals(freq, all[..k], byRow)
    {
      var num := all[k];
      assert num in all;
      CountLinesStep(freq, all, k, byRow);
      var line := LineOf(byRow, num);
      freq := freq[line := freq[line] + 1];
    }
    assert all[..|all|] == all;
  }

  /** `freq` holds, for each line 1..5, how many of `balls` lie on it. */
  ghost predicate LineTotals(freq: map<int, nat>, balls: seq<int>, byRow: bool) {
    forall i :: 1 <= i <= 5 ==> i in freq && freq[i] == CountOver(multiset(balls), Cells(byRow, i))
  }

  /** Before any ball is counted, every line stands at zero. */
  lemma NoLineTotals(freq: map<int, nat>, byRow: bool)
    requires forall i :: 1 <= i <= 5 ==> i in freq && freq[i] == 0
    ensures LineTotals(freq, [], byRow)
  {
    forall i | 1 <= i <= 5 ensures CountOver(multiset([]), Cells(byRow, i)) == 0 {
      CountOverNone(Cells(byRow, i));
    }
  }

  /** Counting ball `k` adds one to its own line and nothing to the others. */
  lemma CountLinesStep(freq: map<int, nat>, all: seq<int>, k: nat, byRow: bool)
    requires k < |all| && 1 <= all[k] <= NumberCount
    requires LineTotals(freq, all[..k], byRow)
    ensures LineOf(byRow, all[k]) in freq
    ensures LineTotals(freq[LineOf(byRow, all[k]) := freq[LineOf(byRow, all[k])] + 1], all[..k + 1], byRow)
  {
    var line := LineOf(byRow, all[k]);
    var next := freq[line := freq[line] + 1];
    assert all[..k + 1] == all[..k] + [all[k]];
    forall i | 1 <= i <= 5
      ensures i in next && next[i] == CountOver(multiset(all[..k + 1]), Cells(byRow, i))
    {
      CellsOfLine(byRow, i, all[k]);
      CountOverAdd(multiset(all[..k]), all[k], Cells(byRow, i));
    }
  }

  /** Line `b` has the largest total and no line before it ties with it:
      what `max(freq, key=freq.get)` picks over the keys 1..5 in order. */
  predicate IsFirstMax(freq: map<int, nat>, b: int)
    requires forall i :: 1 <= i <= 5 ==> i in freq
  {
    && 1 <= b <= 5
    && (forall i :: 1 <= i <= 5 ==> freq[i] <= freq[b])
    && (forall i :: 1 <= i < b ==> freq[i] < freq[b])
  }

  /** `max(freq, key=freq.get)`: scans the keys 1..5 and keeps the first largest. */
  method FirstMax(freq: map<int, nat>) returns (best: int)
    requires forall i :: 1 <= i <= 5 ==> i in freq
    ensures IsFirstMax(freq, best)
  {
    best := 1;
    for i := 2 to 6
      invariant 1 <= best < i
      invariant forall j :: 1 <= j < i ==> freq[j] <= freq[best]
      invariant forall j :: 1 <= j < best ==> freq[j] < freq[best]
    {
      if freq[i] > freq[best] {
        best := i;
      }
    }
  }

  /** Line `b` is the busiest line of the table: its numbers were drawn most
      often in total, and strictly more often than those of any earlier line. */
  predicate IsBusiestLine(h: History, byRow: bool, b: int) {
    && 1 <= b <= 5
    && (forall i :: 1 <= i <= 5 ==> LineHits(h, byRow, i) <= LineHits(h, byRow, b))
    && (forall i :: 1 <= i < b ==> LineHits(h, byRow, i) < LineHits(h, byRow, b))
  }

  /** The busiest line, when there is a table, is unique. */
  lemma BusiestLineUnique(h: History, byRow: bool, a: int, b: int)
    requires IsBusiestLine(h, byRow, a) && IsBusiestLine(h, byRow, b)
    ensures a == b
  {
    assert LineHits(h, byRow, a) <= LineHits(h, byRow, b);
    assert LineHits(h, byRow, b) <= LineHits(h, byRow, a);
  }

  /** The strategy ranks rows for mode "row" and columns for any other mode. */
  function RowMode(mode: string): bool {
    mode == "row"
  }

  /** `estrategia_linhas_colunas`: with mode "row", the busiest row; with any
      other mode, the busiest column; nothing for an empty table. */
  method RowOrColumnStrategy(h: History, mode: string := "row") returns (r: seq<int>)
    requires WellFormed(h)
    requires forall x :: x in Flatten(h) ==> 1 <= x <= NumberCount
    ensures h == [] ==> r == []
    ensures h != [] ==> exists b :: IsBusiestLine(h, RowMode(mode), b) && r == Cells(RowMode(mode), b)
  {
    var grid := BuildLines(true);
    var allNumbers := GetAllNumbers(h);
    if |allNumbers| == 0 {
      return [];
    }
    forall x | x in allNumbers ensures 1 <= x <= NumberCount {
      assert x in multiset(allNumbers);
      assert x in Flatten(h);
    }
    var freqGrid := CountLines(allNumbers, true);
    assert forall i :: 1 <= i <= 5 ==> freqGrid[i] == LineHits(h, true, i);
    if mode == "row" {
      var mostFrequentRow := FirstMax(freqGrid);
      r := grid[mostFrequentRow];
      assert IsBusiestLine(h, RowMode(mode), mostFrequentRow) && r == Cells(RowMode(mode), mostFrequentRow);
    } else {
      var colGrid := BuildLines(false);
      var freqCol := CountLines(allNumbers, false);
      assert forall i :: 1 <= i <= 5 ==> freqCol[i] == LineHits(h, false, i);
      var mostFrequentCol := FirstMax(freqCol);
      r := colGrid[mostFrequentCol];
      assert IsBusiestLine(h, RowMode(mode), mostFrequentCol) && r == Cells(RowMode(mode), mostFrequentCol);
    }
  }
}
