/** `generate_games`: draws distinct 15-number tickets at random from a pool. */
module Games {
  import opened Sequences
  import opened Combinatorics
  import opened Draws

  /** Every ticket `tuple(sorted(np.random.choice(pool, 15, replace=False)))`
      can produce: 15 entries of the pool, taken at distinct positions, in
      ascending order. A pool of fewer than 15 entries offers none, which is
      the case the guard of `generate_games` turns away. */
  function GameSet(pool: seq<int>): (r: set<seq<int>>)
    ensures |pool| < BallsPerDraw ==> r == {}
  {
    if |pool| < BallsPerDraw then
      CombosTooMany(SortAsc(pool), BallsPerDraw);
      {}
    else set c | c in Combos(SortAsc(pool), BallsPerDraw)
  }

  /** A ticket is 15 entries of the pool, sorted; from a pool without repeats
      they are 15 different numbers. */
  lemma GameShape(pool: seq<int>, g: seq<int>)
    requires g in GameSet(pool)
    ensures |g| == BallsPerDraw && Sorted(g)
    ensures multiset(g) <= multiset(pool)
    ensures NoDuplicates(pool) ==> StrictlyIncreasing(g)
  {
    var s := SortAsc(pool);
    CombosShape(s, BallsPerDraw, g);
    CombosSorted(s, BallsPerDraw, g);
    if NoDuplicates(pool) {
      PoolWithoutRepeats(pool);
      CombosOfStrict(s, BallsPerDraw, g);
    }
  }

  /** A pool without repeats sorts to a strictly increasing sequence. */
  lemma PoolWithoutRepeats(pool: seq<int>)
    requires NoDuplicates(pool)
    ensures StrictlyIncreasing(SortAsc(pool))
  {
    var s := SortAsc(pool);
    NoDuplicatesIsOnce(pool);
    assert forall x :: multiset(s)[x] == multiset(pool)[x];
    SortedOnceIsStrict(s);
  }

  /** A pool of n different numbers offers C(n, 15) different tickets. */
  lemma GameCount(pool: seq<int>)
    requires NoDuplicates(pool)
    ensures |GameSet(pool)| == Choose(|pool|, BallsPerDraw)
  {
    if |pool| < BallsPerDraw {
      ChooseTooMany(|pool|, BallsPerDraw);
    } else {
      PoolWithoutRepeats(pool);
      CombosSetSize(SortAsc(pool), BallsPerDraw);
    }
  }

  /** A pool of exactly 15 entries offers a single ticket: the pool, sorted. */
  lemma FifteenPoolHasOneGame(pool: seq<int>)
    requires |pool| == BallsPerDraw
    ensures GameSet(pool) == {SortAsc(pool)}
  {
    var s := SortAsc(pool);
    CombosOfAll(s);
    assert Combos(s, BallsPerDraw) == [s];
  }

  /** Hence any set of tickets drawn from a 15-entry pool has at most one member. */
  lemma FifteenPoolStallsAtOneGame(pool: seq<int>, found: set<seq<int>>)
    requires |pool| == BallsPerDraw && found <= GameSet(pool)
    ensures |found| <= 1
  {
    FifteenPoolHasOneGame(pool);
    if found != {} {
      var g :| g in found;
      assert found == {SortAsc(pool)};
    }
  }

  /** `[list(game) for game in games]`: the tickets of a set, each once, in some order. */
  method ListGames(found: set<seq<int>>) returns (games: seq<seq<int>>)
    ensures |games| == |found|
    ensures NoDuplicates(games)
    ensures forall g :: g in games <==> g in found
  {
    games := [];
    var rest := found;
    while rest != {}
      invariant rest <= found
      invariant forall g :: g in games <==> g in found && g !in rest
      invariant NoDuplicates(games)
      invariant |games| + |rest| == |found|
      decreases |rest|
    {
      var g :| g in rest;
      games := games + [g];
      rest := rest - {g};
    }
  }

  /** `generate_games` as written: adds random tickets to a set until it holds
      `numGames` of them. A draw already in the set leaves it unchanged, so the
      model lets each round add a ticket not yet present; the loop ends only
      when the pool offers at least `numGames` tickets. */
  method CollectGames(pool: seq<int>, numGames: nat) returns (games: seq<seq<int>>)
    requires |pool| >= BallsPerDraw ==> numGames <= |GameSet(pool)|
    ensures |pool| < BallsPerDraw ==> games == []
    ensures |pool| >= BallsPerDraw ==> |games| == numGames
    ensures NoDuplicates(games)
    ensures forall g :: g in games ==> g in GameSet(pool)
  {
    if |pool| < BallsPerDraw {
      return [];
    }
    var found: set<seq<int>> := {};
    while |found| < numGames
      invariant found <= GameSet(pool)
      invariant |found| <= numGames
      decreases numGames - |found|
    {
      var unseen := GameSet(pool) - found;
      assert |unseen| == |GameSet(pool)| - |found|;
      var game :| game in unseen;
      found := found + {game};
    }
    games := ListGames(found);
  }

  /** `generate_games` with the loop bounded by the number of tickets the pool
      offers: `min(numGames, |tickets|)` distinct tickets, none when the pool
      has fewer than 15 entries. */
  method GenerateGames(pool: seq<int>, numGames: nat) returns (games: seq<seq<int>>)
    ensures |pool| < BallsPerDraw ==> games == []
    ensures |pool| >= BallsPerDraw ==>
              |games| == if numGames < |GameSet(pool)| then numGames else |GameSet(pool)|
    ensures NoDuplicates(games)
    ensures forall g :: g in games ==> g in GameSet(pool)
  {
    if |pool| < BallsPerDraw {
      return [];
    }
    var available := GameSet(pool);
    var target := if numGames < |available| then numGames else |available|;
    var found: set<seq<int>> := {};
    while |found| < target
      invariant found <= available
      invariant |found| <= target
      decreases target - |found|
    {
      var unseen := available - found;
      assert |unseen| == |available| - |found|;
      var game :| game in unseen;
      found := found + {game};
    }
    games := ListGames(found);
  }
}
