/** Generic facts about integer sequences that the strategies share: ranges,
    sums, ascending sort, duplicate removal and Python's `sorted(set(...))`. */
module Sequences {

  /** Python's `range(lo, hi)`. */
  function Range(lo: int, hi: int): (r: seq<int>)
    ensures |r| == if lo <= hi then hi - lo else 0
    ensures forall i :: 0 <= i < |r| ==> r[i] == lo + i
    ensures forall x :: x in r <==> lo <= x < hi
    decreases hi - lo
  {
    if lo >= hi then [] else [lo] + Range(lo + 1, hi)
  }

  predicate Sorted(s: seq<int>) {
    forall i, j :: 0 <= i < j < |s| ==> s[i] <= s[j]
  }

  predicate StrictlyIncreasing(s: seq<int>) {
    forall i, j :: 0 <= i < j < |s| ==> s[i] < s[j]
  }

  /** No value occurs twice (for any element type). */
  predicate NoDuplicates<T(==)>(s: seq<T>) {
    forall i, j :: 0 <= i < j < |s| ==> s[i] != s[j]
  }

  /** Every value occurs at most once, stated on the multiset. */
  ghost predicate AtMostOnce<T(!new)>(s: seq<T>) {
    forall x :: multiset(s)[x] <= 1
  }

  /** Where `x` first occurs in `s`, or `|s|` when it does not occur. */
  function FirstIndex<T(==)>(s: seq<T>, x: T): (i: nat)
    ensures i <= |s|
    ensures i < |s| ==> s[i] == x
    ensures forall j :: 0 <= j < i ==> s[j] != x
  {
    if s == [] then 0
    else if s[0] == x then 0
    else 1 + FirstIndex(s[1..], x)
  }

  /** Appending to `s` leaves the first occurrence of a value of `s` where it was,
      and puts that of a new value at the end. */
  lemma FirstIndexSnoc<T>(s: seq<T>, x: T, t: T)
    ensures t in s ==> FirstIndex(s + [x], t) == FirstIndex(s, t) < |s|
    ensures t !in s && t == x ==> FirstIndex(s + [x], t) == |s|
  {
    var i, k := FirstIndex(s, t), FirstIndex(s + [x], t);
    if t in s {
      var m :| 0 <= m < |s| && s[m] == t;
      assert i <= m;
      assert (s + [x])[i] == t;
    } else if t == x {
      assert (s + [x])[|s|] == t;
    }
  }

  /** `keys` lists values in the order in which they first occur in `items`. */
  predicate InFirstSeenOrder<T(==)>(keys: seq<T>, items: seq<T>) {
    forall i, j :: 0 <= i < j < |keys| ==> FirstIndex(items, keys[i]) < FirstIndex(items, keys[j])
  }

  /** Appending an item keeps the keys in first-seen order, with the item added
      at the end when it is new. */
  lemma SnocFirstSeenOrder<T>(keys: seq<T>, items: seq<T>, x: T)
    requires forall t :: t in keys ==> t in items
    requires InFirstSeenOrder(keys, items)
    ensures InFirstSeenOrder(if x in items then keys else keys + [x], items + [x])
  {
    var ks := if x in items then keys else keys + [x];
    forall i, j | 0 <= i < j < |ks| ensures FirstIndex(items + [x], ks[i]) < FirstIndex(items + [x], ks[j]) {
      assert ks[i] == keys[i] && ks[i] in keys;
      FirstIndexSnoc(items, x, ks[i]);
      FirstIndexSnoc(items, x, ks[j]);
      if j < |keys| {
        assert ks[j] == keys[j] && ks[j] in keys;
      }
    }
  }

  function Sum(s: seq<int>): int {
    if s == [] then 0 else Sum(s[..|s| - 1]) + s[|s| - 1]
  }

  /** Two equal values at distinct positions make a value occur twice. */
  lemma {:induction false} TwiceInMultiset<T>(s: seq<T>, i: nat, j: nat)
    requires i < j < |s| && s[i] == s[j]
    ensures multiset(s)[s[i]] >= 2
  {
    assert s == s[..j] + s[j..];
    assert s[..j][i] == s[i];
    assert s[j..][0] == s[j];
    assert multiset(s) == multiset(s[..j]) + multiset(s[j..]);
  }

  /** A sorted sequence in which nothing occurs twice is strictly increasing. */
  lemma SortedOnceIsStrict(s: seq<int>)
    requires Sorted(s) && AtMostOnce(s)
    ensures StrictlyIncreasing(s)
  {
    forall i, j | 0 <= i < j < |s| ensures s[i] < s[j] {
      if s[i] == s[j] {
        TwiceInMultiset(s, i, j);
        assert false;
      }
    }
  }

  /** Stated on positions or on the multiset, "no duplicates" is the same. */
  lemma {:induction false} NoDuplicatesIsOnce<T(!new)>(s: seq<T>)
    ensures NoDuplicates(s) <==> AtMostOnce(s)
  {
    if NoDuplicates(s) && s != [] {
      var p := s[..|s| - 1];
      assert NoDuplicates(p);
      NoDuplicatesIsOnce(p);
      assert s == p + [s[|s| - 1]];
      assert s[|s| - 1] !in p;
    }
    if AtMostOnce(s) {
      forall i, j | 0 <= i < j < |s| ensures s[i] != s[j] {
        if s[i] == s[j] {
          TwiceInMultiset(s, i, j);
        }
      }
    }
  }

  /** A strictly increasing sequence has no value twice. */
  lemma StrictIsOnce(s: seq<int>)
    requires StrictlyIncreasing(s)
    ensures AtMostOnce(s)
  {
    NoDuplicatesIsOnce(s);
  }

  /** A strictly increasing sequence inside [lo, hi) has at most hi - lo elements. */
  lemma {:induction false} StrictWithinBound(s: seq<int>, lo: int, hi: int)
    requires StrictlyIncreasing(s)
    requires forall x :: x in s ==> lo <= x < hi
    ensures |s| <= if lo <= hi then hi - lo else 0
  {
    if s != [] {
      assert s[0] in s;
      assert StrictlyIncreasing(s[1..]);
      forall x | x in s[1..] ensures s[0] + 1 <= x < hi {
        var i :| 0 <= i < |s[1..]| && s[1..][i] == x;
        assert x == s[i + 1] && s[i + 1] in s;
      }
      StrictWithinBound(s[1..], s[0] + 1, hi);
    }
  }

  /** A prefix of a strictly increasing sequence is strictly increasing and holds only its values. */
  lemma StrictPrefix(s: seq<int>, n: nat)
    requires StrictlyIncreasing(s) && n <= |s|
    ensures StrictlyIncreasing(s[..n])
    ensures forall x :: x in s[..n] ==> x in s
  {
    assert forall i :: 0 <= i < n ==> s[..n][i] == s[i];
  }

  /** Strict increase between neighbours is strict increase throughout. */
  lemma {:induction false} StrictFromNeighbours(s: seq<int>)
    requires forall i :: 0 <= i < |s| - 1 ==> s[i] < s[i + 1]
    ensures StrictlyIncreasing(s)
  {
    if s != [] {
      var t := s[1..];
      forall i | 0 <= i < |t| - 1 ensures t[i] < t[i + 1] {
        assert t[i] == s[i + 1] && t[i + 1] == s[i + 2];
      }
      StrictFromNeighbours(t);
      forall i, j | 0 <= i < j < |s| ensures s[i] < s[j] {
        if i > 0 {
          assert s[i] == t[i - 1] && s[j] == t[j - 1];
        } else if j > 1 {
          assert s[1] == t[0] && s[j] == t[j - 1];
        }
      }
    }
  }

  /** In a strictly increasing sequence, entries `j - i` places apart differ by at least `j - i`. */
  lemma {:induction false} StrictGap(s: seq<int>, i: nat, j: nat)
    requires StrictlyIncreasing(s) && i <= j < |s|
    ensures s[j] - s[i] >= j - i
    decreases j - i
  {
    if i < j {
      StrictGap(s, i, j - 1);
    }
  }

  /** How many of the elements counted in `m` are among the numbers of `cells`. */
  function CountOver(m: multiset<int>, cells: seq<int>): nat {
    if cells == [] then 0 else CountOver(m, cells[..|cells| - 1]) + m[cells[|cells| - 1]]
  }

  lemma {:induction false} CountOverNone(cells: seq<int>)
    ensures CountOver(multiset{}, cells) == 0
  {
    if cells != [] {
      CountOverNone(cells[..|cells| - 1]);
    }
  }

  /** Counting one more element adds one to the total exactly when it is among `cells`. */
  lemma {:induction false} CountOverAdd(m: multiset<int>, x: int, cells: seq<int>)
    requires NoDuplicates(cells)
    ensures CountOver(m + multiset{x}, cells) == CountOver(m, cells) + if x in cells then 1 else 0
  {
    if cells != [] {
      var p := cells[..|cells| - 1];
      assert NoDuplicates(p);
      CountOverAdd(m, x, p);
      assert x in cells <==> x in p || x == cells[|cells| - 1];
      assert cells[|cells| - 1] !in p;
    }
  }

  // ---- insertion sort (Python's `sorted` on a list of integers) ----

  function Insert(x: int, s: seq<int>): (r: seq<int>)
    ensures multiset(r) == multiset(s) + multiset{x}
    ensures |r| == |s| + 1
  {
    if s == [] || x <= s[0] then [x] + s
    else
      assert s == [s[0]] + s[1..];
      [s[0]] + Insert(x, s[1..])
  }

  lemma {:induction false} InsertKeepsSorted(x: int, s: seq<int>)
    requires Sorted(s)
    ensures Sorted(Insert(x, s))
  {
    if s == [] || x <= s[0] {
      SortedCons(x, s);
    } else {
      var t := s[1..];
      SortedTail(s);
      InsertKeepsSorted(x, t);
      var r := Insert(x, t);
      forall i | 0 <= i < |r| ensures s[0] <= r[i] {
        assert r[i] in multiset(r);
        assert r[i] == x || r[i] in multiset(t);
      }
      SortedCons(s[0], r);
    }
  }

  lemma SortedTail(s: seq<int>)
    requires Sorted(s) && s != []
    ensures Sorted(s[1..])
    ensures forall x :: x in s[1..] ==> s[0] <= x
  {
  }

  lemma SortedCons(x: int, s: seq<int>)
    requires Sorted(s) && forall j :: 0 <= j < |s| ==> x <= s[j]
    ensures Sorted([x] + s)
  {
    var c := [x] + s;
    forall i, j | 0 <= i < j < |c| ensures c[i] <= c[j] {
      assert c[j] == s[j - 1];
      if i > 0 {
        assert c[i] == s[i - 1];
      }
    }
  }

  /** `sorted(s)`: the ascending permutation of `s`. */
  function SortAsc(s: seq<int>): (r: seq<int>)
    ensures multiset(r) == multiset(s) && |r| == |s|
    ensures Sorted(r)
  {
    if s == [] then []
    else
      var t := SortAsc(s[1..]);
      assert s == [s[0]] + s[1..];
      InsertKeepsSorted(s[0], t);
      Insert(s[0], t)
  }

  /** Sorting an already sorted list changes nothing. */
  lemma {:induction false} SortAscOfSorted(s: seq<int>)
    requires Sorted(s)
    ensures SortAsc(s) == s
  {
    if s != [] {
      assert Sorted(s[1..]);
      SortAscOfSorted(s[1..]);
    }
  }

  /** Membership is preserved by sorting. */
  lemma SortAscMembers(s: seq<int>)
    ensures forall x :: x in SortAsc(s) <==> x in s
  {
    var r := SortAsc(s);
    forall x ensures x in r <==> x in s {
      assert x in r <==> x in multiset(r);
      assert x in s <==> x in multiset(s);
    }
  }

  /** Duplicate removal: Python's `set(s)` as a list, order of first occurrence. */
  function Dedup(s: seq<int>): (r: seq<int>)
    ensures AtMostOnce(r)
    ensures forall x :: x in r <==> x in s
  {
    if s == [] then []
    else
      var p := s[..|s| - 1];
      var last := s[|s| - 1];
      assert s == p + [last];
      var d := Dedup(p);
      if last in p then d else d + [last]
  }

  /** `sorted(set(s))`: the distinct values of `s` in ascending order. */
  function SortedSet(s: seq<int>): (r: seq<int>)
    ensures StrictlyIncreasing(r)
    ensures forall x :: x in r <==> x in s
  {
    var d := Dedup(s);
    var r := SortAsc(d);
    assert forall x :: multiset(r)[x] == multiset(d)[x];
    SortedOnceIsStrict(r);
    SortAscMembers(d);
    r
  }

  /** The distinct values of two sequences inside [lo, hi] are at most hi - lo + 1. */
  lemma SortedSetWithin(a: seq<int>, b: seq<int>, lo: int, hi: int)
    requires lo <= hi
    requires forall x :: x in a ==> lo <= x <= hi
    requires forall x :: x in b ==> lo <= x <= hi
    ensures forall x :: x in SortedSet(a + b) ==> lo <= x <= hi
    ensures |SortedSet(a + b)| <= hi - lo + 1
  {
    var s := SortedSet(a + b);
    forall x | x in s ensures lo <= x < hi + 1 {
      assert x in a || x in b;
    }
    StrictWithinBound(s, lo, hi + 1);
  }

  /** A strictly increasing sequence is the sorted set of its own elements. */
  lemma {:induction false} SortedSetOfStrict(s: seq<int>)
    requires StrictlyIncreasing(s)
    ensures SortedSet(s) == s
  {
    var r := SortedSet(s);
    StrictIsOnce(s);
    StrictlyIncreasingUnique(r, s);
  }

  /** Two strictly increasing sequences with the same members are equal. */
  lemma {:induction false} StrictlyIncreasingUnique(a: seq<int>, b: seq<int>)
    requires StrictlyIncreasing(a) && StrictlyIncreasing(b)
    requires forall x :: x in a <==> x in b
    ensures a == b
  {
    if a != [] {
      assert a[0] in a;
    }
    if b != [] {
      assert b[0] in b;
    }
    if a != [] && b != [] {
      assert a[0] == b[0] by {
        var j :| 0 <= j < |b| && b[j] == a[0];
        assert b[0] <= b[j];
        var i :| 0 <= i < |a| && a[i] == b[0];
        assert a[0] <= a[i];
      }
      assert StrictlyIncreasing(a[1..]) && StrictlyIncreasing(b[1..]);
      forall x ensures x in a[1..] <==> x in b[1..] {
        assert x in a[1..] <==> x in a && x != a[0];
        assert x in b[1..] <==> x in b && x != b[0];
      }
      StrictlyIncreasingUnique(a[1..], b[1..]);
      assert a == [a[0]] + a[1..] && b == [b[0]] + b[1..];
    }
  }

  /** A sequence without duplicates has as many members as elements. */
  lemma {:induction false} CardOfNoDuplicates<T>(s: seq<T>)
    requires NoDuplicates(s)
    ensures |set x | x in s| == |s|
  {
    if s != [] {
      var p := s[..|s| - 1];
      assert NoDuplicates(p);
      CardOfNoDuplicates(p);
      assert s == p + [s[|s| - 1]];
      assert (set x | x in s) == (set x | x in p) + {s[|s| - 1]};
      assert s[|s| - 1] !in (set x | x in p);
    }
  }
}
