# Lotofácil analyser — verified model of the strategy and analysis core

Lotofácil is drawn from the numbers 1..25; every contest draws 15 of them and
a ticket names 15. `utils.py` turns the table of past draws (one row per
contest, balls `Bola1`..`Bola15` in ascending order) into pools of candidate
numbers, draws tickets from a pool, and computes statistics over the table.
This project models that core in Dafny and proves what each part computes:

- `Draws`: the draw table, `NUM_DEZENAS` = 25 and `DEZENAS_POR_JOGO` = 15, and
  `get_all_numbers` (every ball drawn, sorted).
- `Strategies`: the strategies `estrategia_frequencia` (most drawn numbers),
  `estrategia_atraso` (most delayed numbers), `estrategia_finais` (numbers
  whose last digit is among the most frequent last digits),
  `estrategia_primos` and `estrategia_fibonacci` (a fixed set topped up with
  the most drawn numbers), and `estrategia_alpha_envolve` (the union of the
  frequency and delay pools).
- `Grid`: `estrategia_linhas_colunas`, the busiest row or column of the 5×5
  ticket grid.
- `Games`: `generate_games`, as written and with its loop bounded.
- `Analysis`: `analyze_triplets`, `analyze_quads`, `analyze_sum_and_range` and
  `analyze_positional_frequencies`.
- `Ranking`, `Combinatorics`, `Sequences`: the building blocks shared by the
  above. These are a stable sort by count, `value_counts().nlargest`,
  `itertools.combinations`, binomial coefficients, sorting and deduplication.

A table is a `seq<seq<int>>`. `WellFormed` says that every row has 15 balls.
`ValidHistory` says that every row is 15 distinct numbers of 1..25 in
ascending order, which is how the loader stores them. Python dictionaries
are maps, or association lists where their insertion order matters (the
combination counters). `np.random.choice` is a nondeterministic choice.

`analyze_triplets` and `analyze_quads` sort the counter dictionary by count
with Python's stable sort. Equally frequent combinations therefore keep the
order in which they were first met, draw by draw. The same order decides
which of several equally frequent combinations survive the `top_n` cut.
`Analysis.TopCombinations` states both. Equally delayed numbers in
`estrategia_atraso` likewise stay in ascending order, and the cut keeps the
smaller ones (`Strategies.DelayPoolDominates`).

Parameters with a default value in the source carry the same default in the
model: `top_n=25` for the frequency and delay strategies, `top_n_finais=5`,
`mode='row'`, `freq_n=15` and `atraso_n=10`, and `top_n=20` for the triplet
and quadruplet analyses.

## Model

| member | source | states |
|---|---|---|
| Draws.GetAllNumbers | utils.py:69-76 | The result is sorted, holds exactly the balls of the table with their multiplicities, and is empty exactly when the table is |
| Draws.ValidDrawPositions | utils.py:13-14 | In a draw of 15 distinct sorted numbers of 1..25, the ball in position i lies in i+1..i+11 |
| Draws.FlattenInRange | utils.py:13-14 | Every ball of a valid table is a number of 1..25 |
| Strategies.Frequency | utils.py:79-83 | The pool is ascending, has at most top_n numbers, all of them drawn, and is empty for an empty table |
| Strategies.FrequencyKeepsMostDrawn | utils.py:82-83 | No number left out of the pool was drawn more often than one kept; the pool falls short of top_n only when it holds every drawn number |
| Ranking.MostFrequent | utils.py:82 | `value_counts().nlargest(k)`: at most k distinct values of the list, none less frequent than a value left out, and all values when fewer than k exist |
| Sequences.Range | utils.py:88 | `range(lo, hi)`: hi − lo consecutive integers from lo, and exactly the integers of lo..hi−1 |
| Sequences.SortAsc | utils.py:76 | `sorted`: a permutation of its input in non-decreasing order |
| Sequences.SortedSet | utils.py:111 | `sorted(set(...))`: strictly increasing, holding exactly the values of its input |
| Ranking.Tally | utils.py:82 | `value_counts()`: one entry per distinct value, with its exact count |
| Ranking.Rank | utils.py:96 | The sort by count, descending, is a permutation of its input with non-increasing counts |
| Ranking.RankIsStable | utils.py:96 | Python's sort is stable: when the input lists keys in increasing order of a position, entries with equal counts stay in that order |
| Ranking.TopRankedBy | utils.py:97 | Slicing a ranking keeps that tie order |
| Ranking.Top | utils.py:97 | Slicing the ranking to k keeps min(k, n) entries in non-increasing order |
| Ranking.TopDominates | utils.py:97 | Every entry kept by the slice has a count at least that of any entry cut off |
| Ranking.TopPrecedesLeftOut | utils.py:96-97 | When the stable sort breaks ties by input position, every kept entry has a larger count than an entry cut off, or the same count and an earlier position: which of several tied entries survive the slice |
| Ranking.TopAll | utils.py:97 | A slice shorter than k keeps every key |
| Strategies.DelayIsDistanceToLastHit | utils.py:88-95 | The delay of n is the number of latest draws without n; the draw just before them contains n, unless n was never drawn |
| Strategies.DelayItems | utils.py:96 | The keys of the delay dictionary are exactly 1..25, in insertion order, and each carries the delay of its number |
| Strategies.DelayStrategy | utils.py:85-97 | The counters built draw by draw, then ranked and sliced, give exactly `DelayPool` |
| Strategies.DelayPoolShape | utils.py:96-97 | On a non-empty table the pool is min(top_n, 25) distinct numbers of 1..25 |
| Strategies.DelayPoolOrder | utils.py:96-97 | The pool lists numbers by decreasing delay, equal delays in ascending order |
| Strategies.DelayPoolDominates | utils.py:96-97 | Every number in the pool is more delayed than every number of 1..25 left out, or as delayed and smaller |
| Strategies.DelayLeftOut | utils.py:96-97 | The same for one left-out number against every number in the pool |
| Strategies.DelayPoolInRange | utils.py:85-97 | The pool, empty table included, holds only numbers of 1..25 |
| Strategies.LastDigits | utils.py:102 | One entry per ball, in the same order; each entry is a digit 0..9 congruent to its ball modulo 10 |
| Strategies.EndingIn | utils.py:105 | The numbers of a range whose last digit is selected, ascending, and no others |
| Strategies.SelectedLastDigitsSpec | utils.py:103-104 | At most top_n_finais distinct last digits, each a last digit of a drawn ball, none less frequent than a digit left out; fewer than top_n_finais only when every last digit drawn is kept |
| Strategies.LastDigitStrategy | utils.py:99-106 | The pool is exactly the numbers of 1..25 ending in a selected digit, ascending; empty for an empty table |
| Strategies.FixedSetPool | utils.py:110-111 | The pool is ascending, without repeats, and is the union of the fixed set and the 25-minus-size most drawn numbers |
| Strategies.PrimeStrategy | utils.py:108-111 | The pool contains all nine primes up to 25 and otherwise only numbers among the 16 most drawn, and every one of those 16 |
| Strategies.FibonacciStrategy | utils.py:113-116 | The pool contains the seven Fibonacci numbers up to 21 and otherwise only numbers among the 18 most drawn, and every one of those 18 |
| Strategies.FixedSetPoolOnEmpty | utils.py:108-116 | On an empty table the pool is the fixed set itself |
| Strategies.PrimesOnEmptyHistory | utils.py:108-111 | On an empty table the prime pool is [2, 3, 5, 7, 11, 13, 17, 19, 23] |
| Strategies.FibonacciOnEmptyHistory | utils.py:113-116 | On an empty table the Fibonacci pool is [1, 2, 3, 5, 8, 13, 21] |
| Strategies.FixedSetPoolBound | utils.py:108-116 | A fixed set of numbers of 1..25 gives a pool of at most 25 numbers of 1..25 |
| Strategies.AlphaEnvolve | utils.py:146-150 | The hybrid pool is ascending, has at most 25 numbers, each from the frequency or the delay pool |
| Strategies.AlphaEnvolveIsUnion | utils.py:146-150 | On a valid table the cut to 25 removes nothing: the pool is exactly the union of the two pools |
| Grid.Cells | utils.py:119-122 | A line of the grid has 5 numbers in ascending order |
| Grid.CellsOfLine | utils.py:121 | A number is on line i exactly when it is in 1..25 and its row (or column) index is i |
| Grid.LineUpTo | utils.py:120-122 | After placing 1..m-1, a line holds exactly the placed numbers on it, ascending |
| Grid.BuildLines | utils.py:119-122 | `grid` and `col_grid` map each index 1..5 to exactly the numbers of that row or column |
| Grid.CountLines | utils.py:126-129 | `freq_grid` and `freq_col` give each line the number of drawn balls on it |
| Grid.FirstMax | utils.py:132 | `max(freq, key=freq.get)` returns a line of largest total with no earlier line tied with it |
| Grid.BusiestLineUnique | utils.py:131-133 | Only one line has the largest total and no earlier tie, so the strategy's answer is determined |
| Grid.RowOrColumnStrategy | utils.py:118-144 | Empty for an empty table; otherwise the five numbers of the busiest row (mode "row") or column (any other mode) |
| Games.GameSet | utils.py:154-159 | The tickets a pool offers; a pool of fewer than 15 entries offers none |
| Games.GameShape | utils.py:159 | A ticket is 15 pool entries in ascending order, taken at distinct positions; from a pool without repeats, 15 distinct numbers |
| Games.PoolWithoutRepeats | utils.py:159 | A pool without repeats sorts to a strictly increasing list |
| Games.GameCount | utils.py:158-160 | A pool of n distinct numbers offers exactly C(n, 15) tickets |
| Games.FifteenPoolHasOneGame | utils.py:159 | A pool of 15 entries offers only one ticket, the sorted pool |
| Games.FifteenPoolStallsAtOneGame | utils.py:158-160 | Tickets collected from a pool of 15 never number more than one |
| Games.ListGames | utils.py:161 | The list holds every ticket of the set once |
| Games.CollectGames | utils.py:153-161 | As written: nothing for a pool under 15; otherwise exactly num_games distinct tickets of the pool, when the pool offers that many |
| Games.GenerateGames | utils.py:153-161 | Bounded: nothing for a pool under 15; otherwise min(num_games, tickets the pool offers) distinct tickets of the pool |
| Combinatorics.CombosTooMany | utils.py:199 | `combinations` of fewer than k items yields nothing |
| Combinatorics.CombosOfAll | utils.py:159 | Taking all n of n items yields the list itself, once |
| Combinatorics.CombosCount | utils.py:199 | `combinations` of n items taken k at a time yields C(n, k) tuples |
| Combinatorics.CombosOfStrict | utils.py:199 | The tuples drawn from an ascending list are ascending, of length k, with members from the list |
| Combinatorics.CombosNoDuplicates | utils.py:199 | From a list without repeats, no tuple appears twice |
| Combinatorics.CombosComplete | utils.py:199 | Every ascending k-subset of an ascending list is among its tuples |
| Combinatorics.ChooseThree | utils.py:199 | C(n, 3) = n(n-1)(n-2)/6 |
| Combinatorics.ChooseFour | utils.py:210 | C(n, 4) = n(n-1)(n-2)(n-3)/24 |
| Analysis.Bump | utils.py:200 | `counts[t] = counts.get(t, 0) + 1` adds one to t, leaves every other count alone, and adds one to the total |
| Analysis.BumpKeys | utils.py:200 | A new key is appended to the dictionary's key order; an existing key leaves the order unchanged |
| Analysis.BumpTallies | utils.py:200 | Counting one more combination keeps the counter equal to the tally of all combinations seen, with distinct keys in order of first occurrence |
| Analysis.BumpTalliesKeys | utils.py:200 | After counting one more combination the keys are distinct, are exactly the combinations seen, and follow the order in which each was first seen |
| Analysis.BumpTalliesCounts | utils.py:200 | After counting one more combination each key's count is its number of occurrences and the counts add up to the number seen |
| Analysis.CountCombinations | utils.py:196-200 | After the loop, each key's count is how often it occurs among the k-combinations of all draws, and the keys are distinct and in order of first occurrence |
| Analysis.TopCombinations | utils.py:201-202 | At most top_n entries with distinct keys and non-increasing exact counts; each kept combination occurs more often than any left out, or as often and was first seen earlier; a short result holds every combination; equal counts appear in order of first occurrence |
| Analysis.TopEntries | utils.py:201-202 | The slice of a counter reports distinct combinations that occur, each with its exact count |
| Analysis.TopBeatsLeftOut | utils.py:201-202 | Each combination reported occurs more often than any left out of the slice, or as often and was first seen earlier |
| Analysis.TallyLeftOut | utils.py:201-202 | The same for one left-out combination against every entry reported |
| Analysis.TalliesRanked | utils.py:201 | Sorting the counter by count keeps equally frequent combinations in first-seen order |
| Analysis.TiesInFirstSeenOrder | utils.py:201-202 | The stable sort and the slice keep equally frequent combinations in the order they were first met |
| Analysis.AnalyzeTriplets | utils.py:193-202 | The top_n triplets with their exact counts, in non-increasing count order, each kept one more frequent than any left out or as frequent and first seen earlier, every triplet when fewer than top_n are returned, ties in order of first occurrence |
| Analysis.AnalyzeQuads | utils.py:204-213 | The top_n quadruplets with their exact counts, in non-increasing count order, each kept one more frequent than any left out or as frequent and first seen earlier, every quadruplet when fewer than top_n are returned, ties in order of first occurrence |
| Analysis.TripletsPerDraw | utils.py:199 | Each draw contributes C(15, 3) = 455 triplets |
| Analysis.QuadsPerDraw | utils.py:210 | Each draw contributes C(15, 4) = 1365 quadruplets |
| Analysis.TripletTotal | utils.py:196-200 | The loop visits 455 triplets per draw; since `Analysis.CountCombinations` makes the counts add up to the number of visits, they add up to 455 times the number of draws |
| Analysis.QuadTotal | utils.py:207-211 | The loop visits 1365 quadruplets per draw; since `Analysis.CountCombinations` makes the counts add up to the number of visits, they add up to 1365 times the number of draws |
| Analysis.CombosOfDraw | utils.py:198-199 | A draw yields an ascending k-tuple once if it contains all its numbers, and never otherwise |
| Analysis.CountIsDrawsWith | utils.py:196-200 | The count of a combination is the number of draws containing all its numbers |
| Analysis.DrawCombosShape | utils.py:198-199 | Every counted combination is an ascending k-tuple of numbers that some draw contains |
| Analysis.Max | utils.py:190 | The row maximum is a ball of the row and no ball exceeds it |
| Analysis.Min | utils.py:190 | The row minimum is a ball of the row and no ball is below it |
| Analysis.SumAndRange | utils.py:187-191 | One (Soma, Faixa) pair per draw, with a non-negative Faixa |
| Analysis.ValidDrawSumAndRange | utils.py:189-190 | For a valid draw, Faixa is last ball minus first, between 14 and 24, and Soma is between 120 and 270 |
| Analysis.SumAndRangeBounds | utils.py:187-191 | Every row of the result on a valid table has 120 ≤ Soma ≤ 270 and 14 ≤ Faixa ≤ 24, Faixa being Bola15 − Bola1 |
| Analysis.PositionalFrequencies | utils.py:180-185 | A 15 × 25 table whose entry (i, n) is how often n was drawn in position i + 1, 0 when never |
| Analysis.PositionWindow | utils.py:180-185 | On a valid table, position i + 1 never holds a number outside i+1..i+11 |
| Analysis.PositionTotal | utils.py:180-185 | On a valid table, each position's counts over 1..25 add up to the number of draws |

## Left out

- `fetch_all_results`, `fetch_latest_contest` and `fetch_data_from_api` (utils.py:15-66) are left out. They are network access, caching and DataFrame construction. The model takes the draw table as a parameter.
- `save_strategy`, `load_strategies` and `delete_strategy` (utils.py:164-177) are left out. They keep state in the UI session and read the clock.
- The `st.error`, `st.info` and `st.warning` messages are user-interface side effects. The error path of `generate_games` is modelled as its empty result.
- `app.py` is the landing page of the user interface and is not part of this model.
- The backtest (`pages/3_📊_Backtest.py`), the strategy comparison (`pages/5_🔍_Comparador.py`), the Monte Carlo simulation (`pages/8_🎲_Simulacao_Monte_Carlo.py`) and the other pages are not part of this model. They are user interface built on the functions modelled here.
- `np.random.choice` is modelled as a nondeterministic choice of a ticket not yet collected. A repeated ticket leaves the set unchanged. The distribution of tickets is not modelled.
- The order of the list `generate_games` returns is set iteration order. `Games.ListGames` states only that the list holds each ticket once.
- Strategies.Frequency: pandas does not document which of several equally frequent numbers `nlargest` keeps. The model keeps the smaller numbers. The proved properties hold for any choice.
- Strategies.SelectedLastDigitsSpec: the same pandas tie rule applies to last digits. The model keeps the smaller digits.
- Grid.RowOrColumnStrategy: requires every drawn ball to be in 1..25. In the source, any other value is a missing key in `freq_grid`.
- Draws.GetAllNumbers: requires all 15 ball columns in every row (`WellFormed`). In the source, a missing column is a missing key. The same requirement is on `Analysis.PositionalFrequencies` and `Analysis.SumAndRange`.
- DataFrame layouts are not modelled. The `Posição i` columns and the `Soma`/`Faixa` columns are a nested sequence and a sequence of pairs. The `Concurso` and `Data` columns are not modelled.
- Games.CollectGames: requires the pool to offer at least `num_games` tickets. Otherwise the source loop never ends (see Findings).

## Findings

| source | as written | input that shows it | evidently intended | confidence | as-written member | corrected member |
|---|---|---|---|---|---|---|
| utils.py:158-160 | `while len(games) < num_games` keeps adding random tickets to a set. It ends only if the pool offers at least `num_games` distinct tickets. | A pool of exactly 15 numbers with `num_games = 2`: every draw is the same ticket, so the set stays at one ticket and the loop never exits. | Stop at min(num_games, C(n, 15)) tickets for a pool of n distinct numbers. | not executed | Games.CollectGames, Games.FifteenPoolStallsAtOneGame | Games.GenerateGames |
