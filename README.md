# Randomized greedy solvers: a Dafny model

This project models the core of `code/cod.cpp`: the class `AlgorithmesGloutonsRandomises` and the
data it works on. The class has four parts:

- a randomized greedy knapsack (`resoudreSacADosRandomise`). It sorts the products by value per
  weight, walks them in blocks of `N`, and takes one random fitting product per block;
- a randomized nearest-neighbour tour (`resoudreTourneeRandomisee`). From the current city it
  sorts the unvisited cities by energy cost and moves to a random one of the `M` cheapest;
- the evaluator (`calculerResultats`). It computes the benefit of a selection and the energy of
  the closed tour, which ends with a leg back to city 0;
- one replication (`executerReplication`). It loads the data, runs both solvers on a fresh
  solver seeded with the replication's seed and evaluates the result. Then, under the lock, it
  updates the two best-solution slots and writes one result line.

The model is split into modules:

- `Domain` (`domain.dfy`): products, cities, the dataset, and what a successful load guarantees.
  That is the validity predicate `ValidDataset`: positive weights and values, positive capacity,
  at least one product and one city, and a square matrix of non-negative entries.
- `Knapsack` (`knapsack.dfy`): the block walk `Run`, the loops' position-by-position view
  `Select`, and the selector's properties.
- `Routing` (`routing.dfy`): the candidate pool, the tour `Tour` under any cost sort, the
  insertion-sort tour `InsertionTour`, and their properties.
- `Evaluation` (`evaluation.dfy`): the energy of a tour.
- `Tracking` (`tracker.dfy`): the best-score slots, with minus infinity as a proper value.
- `Solver` (`solver.dfy`): the class `RandomizedGreedy` with its loops on arrays and sequences,
  and `ResultFile`, the results stream.
- `Scenarios` (`tests.dfy`): the program's own test scenarios on its fixture data.

Randomness is modelled as the output of the engine: a stream `nat -> nat` of raw draws, used in
order. One call `dist(gen)` on a distribution over `0 .. B-1` takes the next draw `r` and yields
`r % B`. The knapsack takes one draw per block that has candidates. The tour then takes one draw
per move, continuing where the knapsack stopped. The class field `drawn` counts the draws used.
Every property is proved for all streams, so it holds whatever the seed.

The code sorts with `std::sort`, which promises no order among equal keys, so the model assumes
none. The knapsack's guarantees hold for every ratio-sorted permutation (`KnapsackOutcome`). The tour `Tour`
takes the sort as a parameter, and its guarantees hold for every sort by ascending cost
(`CostSorter`), whatever order it gives to equal costs. The solver's loop is proved against
`InsertionTour`, the tour for one such sort, the insertion sort `SortByCost`.

## Model

| member | source | states |
|---|---|---|
| Domain.Choice | code/cod.cpp:196 | the index `dist(gen) % size` is a valid candidate index, and below the distribution's bound |
| Domain.TotalValuePositive | code/cod.cpp:238-239 | a non-empty selection of products with positive values has a positive benefit |
| Knapsack.InsertByRatioSpec | code/cod.cpp:180-182 | inserting into a ratio-sorted list keeps it sorted and adds exactly the new product |
| Knapsack.SortByRatioSpec | code/cod.cpp:179-182 | the sorted copy is a permutation of the products, in non-increasing ratio order |
| Knapsack.FitListAt | code/cod.cpp:190-193 | every candidate lies in its block and fits next to the capacity already used |
| Knapsack.FitListEmpty | code/cod.cpp:189-195 | a block has no candidates exactly when none of its products fits |
| Knapsack.RunStep | code/cod.cpp:188-200 | a block commits the candidate chosen by the next draw and consumes that draw, or, with no candidates, is skipped and consumes nothing |
| Knapsack.RunView | code/cod.cpp:188-200 | a block either is skipped or commits one of its own positions, which fits |
| Knapsack.SelectIsRun | code/cod.cpp:188-200 | the two nested loops, scanned one position at a time, commit exactly the positions of the block walk |
| Knapsack.RunAbove | code/cod.cpp:188-199 | the walk commits only positions from its starting block to the end of the list |
| Knapsack.RunCapacity | code/cod.cpp:191-198 | a non-empty result never weighs more than the capacity left |
| Knapsack.RunEmptyIff | code/cod.cpp:188-200 | nothing is committed exactly when no remaining product fits the remaining capacity |
| Knapsack.RunBlocks | code/cod.cpp:188-199 | the committed positions lie in strictly increasing blocks: at most one per block |
| Knapsack.OnePerBlockIncreasing | code/cod.cpp:188-199 | positions in strictly later blocks are strictly increasing |
| Knapsack.BlocksCeil | code/cod.cpp:188 | the loop `for (i = 0; i < size; i += N)` runs ceil(len / N) times: the last block starts before the end of the list, and the blocks cover it |
| Knapsack.RunCount | code/cod.cpp:188-199 | at most one product per iteration of the block loop, that is at most ceil(len / N), is committed |
| Knapsack.PickedMultiset | code/cod.cpp:192-197 | the products at increasing positions are a sub-multiset of the list |
| Knapsack.PickedSorted | code/cod.cpp:179-197 | the result keeps the sorted order of the sorted copy |
| Knapsack.KnapsackOnePerBlock | code/cod.cpp:188-199 | no two committed positions of the whole walk share a block of N |
| Knapsack.KnapsackGuarantees | code/cod.cpp:178-202 | for every outcome: weight at most the capacity, ratio-sorted, products drawn from the input, at most ceil(len / N) of them, and empty exactly when no single product fits |
| Solver.Candidates | code/cod.cpp:189-194 | the inner loop collects exactly the fitting positions of the block, in order |
| Solver.SelectProducts | code/cod.cpp:178-202 | the method's result is a greedy block walk over a ratio-sorted permutation of the products, driven by the next draws of the stream |
| Solver.RandomizedGreedy.SolveKnapsack | code/cod.cpp:178-202 | the selection over this dataset, using one draw per committed product; only the draw counter changes |
| Routing.InsertByCostSpec | code/cod.cpp:220-222 | inserting into a cost-sorted list keeps it sorted and adds exactly the new entry |
| Routing.SortByCostSpec | code/cod.cpp:220-222 | the sorted `distances` is a permutation of the candidates, cheapest first |
| Routing.UnvisitedSize | code/cod.cpp:214-219 | the candidates and the marked cities among the first hi together number hi |
| Routing.UnvisitedEntry | code/cod.cpp:215-218 | a candidate is an unvisited city and carries its cost from the current city |
| Routing.PoolEntry | code/cod.cpp:214-226 | each entry of the sorted pool is an unvisited city, with its cost from the current city |
| Routing.PoolNonEmpty | code/cod.cpp:223-224 | while cities remain, the pool is non-empty, so `nbCandidats > 0` always holds |
| Routing.MarkedStart | code/cod.cpp:206-210 | at the start exactly one city, city 0, is marked |
| Routing.MarkedSet | code/cod.cpp:228 | marking an unvisited city raises the visited count by exactly one |
| Routing.MarkedAll | code/cod.cpp:213 | when the visited count reaches the city count, every city is visited |
| Routing.TourStep | code/cod.cpp:225-229 | one loop iteration moves to the drawn candidate, which was unvisited, and the count of visited cities rises by one |
| Routing.SortByCostSorts | code/cod.cpp:220-222 | the insertion sort is a sort by ascending cost in the sense `Tour` accepts: a permutation, cheapest first |
| Routing.RemoveAt | code/cod.cpp:220-222 | removing one entry from a list removes it from the multiset and from the count of entries strictly cheaper than a cost, if it was cheaper |
| Routing.CountBelowPerm | code/cod.cpp:220-222 | any permutation of the candidates, whatever its order among equal costs, has the same number of entries strictly cheaper than a cost |
| Routing.CountBelowSorted | code/cod.cpp:220-225 | in the sorted pool, at most k entries are strictly cheaper than entry k |
| Routing.CountBelowUnvisited | code/cod.cpp:214-219 | the candidates strictly cheaper than a cost are the unvisited cities strictly cheaper than it |
| Routing.PoolRuleStep | code/cod.cpp:223-226 | the city taken had fewer than M strictly cheaper unvisited cities |
| Routing.Extend | code/cod.cpp:227-229 | appending the chosen city keeps the tour duplicate-free, in range, consistent with `visite`, and obeying the pool rule |
| Routing.Advance | code/cod.cpp:213-231 | one move preserves every fact the tour's invariant needs |
| Routing.TourSpec | code/cod.cpp:213-232 | from any consistent state, the loop completes a tour of all cities, duplicate-free, that keeps its first city and the pool rule |
| Routing.TourGuarantees | code/cod.cpp:204-233 | for every stream and every sort by ascending cost, whatever its order among equal costs, the tour has one entry per city, starts at city 0, visits every city once, and obeys the pool rule |
| Routing.SortedPoolEntry | code/cod.cpp:214-226 | each entry of the insertion-sorted candidates is an unvisited city, with its cost from the current city |
| Routing.InsertionTourIsTour | code/cod.cpp:213-232 | the tour with the insertion sort is `Tour` for that sort |
| Routing.InsertionTourGuarantees | code/cod.cpp:204-233 | the tour the solver builds has one entry per city, starts at city 0, visits every city once, and obeys the pool rule |
| Routing.NearestNeighbour | code/cod.cpp:223-226 | with M = 1 each move goes to a cheapest unvisited city |
| Routing.CheaperCounts | code/cod.cpp:223-226 | an unvisited city strictly cheaper than the one taken counts towards the pool rule |
| Solver.Distances | code/cod.cpp:214-219 | the loop collects the unvisited cities with their costs, by ascending city |
| Solver.Move | code/cod.cpp:214-229 | one iteration takes the drawn candidate of the sorted pool and marks it visited, changing no other mark, and advances `InsertionTour` by that move |
| Solver.BuildTour | code/cod.cpp:204-233 | the loop over the array `visite` returns the tour `InsertionTour` built from the window of draws it consumes |
| Solver.RandomizedGreedy.SolveTour | code/cod.cpp:204-233 | the tour over this dataset, using `nbVilles - 1` draws, one per loop iteration; only the draw counter changes |
| Evaluation.PathCostNonNegative | code/cod.cpp:242-244 | the legs of a tour never cost a negative amount |
| Evaluation.EnergyNonNegative | code/cod.cpp:241-247 | with a matrix of non-negative entries, the energy is never negative |
| Evaluation.OneCity | code/cod.cpp:241-247 | a one-city tour costs only its closing leg back to city 0 |
| Evaluation.EnergyPositive | code/cod.cpp:241-247 | a tour over two or more distinct cities from city 0 has positive energy when off-diagonal costs are positive |
| Evaluation.SizeMinusOneNonEmpty | code/cod.cpp:242 | for a non-empty tour the unsigned bound `tournee.size() - 1` is the number of legs |
| Evaluation.EmptyTourOverrun | code/cod.cpp:242-246 | for an empty tour the unsigned bound wraps to a positive value past the end of the vector |
| Evaluation.LegsAgree | code/cod.cpp:242 | the corrected bound agrees with the source's bound on every non-empty tour |
| Solver.RandomizedGreedy.Evaluate | code/cod.cpp:237-249 | the benefit is the sum of the selection's values, and the energy is the sum of the tour's legs plus the closing leg; with the corrected loop bound an empty tour has energy 0 and nothing past its end is read |
| Tracking.Improve | code/cod.cpp:274-283 | after an update the slot's score is at least the offered score and never lower than before; the slot changes only on a strictly greater score, and then holds the offered score and solution |
| Tracking.TrackFirstBest | code/cod.cpp:271-286 | after any non-empty run of replications a slot holds the greatest score and the solution of the first replication that reached it |
| Tracking.TrackMonotone | code/cod.cpp:274-283 | the best score never decreases as replications follow one another |
| Solver.RandomizedGreedy.constructor | code/cod.cpp:168-172 | both slots start at minus infinity with empty solutions, and no draw has been used |
| Solver.RandomizedGreedy.BestSoFar | code/cod.cpp:271-286 | the object's slots hold the best benefit, and the best benefit minus energy, of all replications so far |
| Solver.RandomizedGreedy.Record | code/cod.cpp:271-284 | the P1 slot and the P2 slot are updated independently, each only on a strictly greater score |
| Solver.ResultFile.Write | code/cod.cpp:285 | writing appends exactly one line |
| Solver.Replicate | code/cod.cpp:261-266 | a fresh solver over the loaded data runs the selection with N = 2, then the tour with M = 2 from the following draws, then the evaluation |
| Solver.RandomizedGreedy.ExecuteReplication | code/cod.cpp:253-287 | a load failure changes nothing and writes nothing; otherwise both slots are offered their scores and exactly one line `seed,benefit,energy,benefit-energy` is written |
| Scenarios.Fixture | code/cod.cpp:360-396 | the fixture files load: five products, four cities, and a square matrix with positive off-diagonal entries |
| Scenarios.TestGreedy | code/cod.cpp:398-415 | on the fixture, for every engine output, the benefit and the energy are both positive |
| Scenarios.TestReplications | code/cod.cpp:417-434 | two replications over the fixture files write two lines |

## Left out

- Parsing of the product and city files (`lireProduits`, `lireVilles`): a replication receives
  the load's outcome as `Option<Dataset>`. A loaded dataset satisfies `ValidDataset`, which
  states the checks at code/cod.cpp lines 64, 85, 90, 119, 135 and 149.
- `std::mt19937` and `std::uniform_int_distribution`: the engine is a parameter (a stream of raw
  draws). The model lets each `dist(gen)` call use exactly one raw draw, as `r % bound`. A real
  distribution may use more draws per call and map them differently.
- Solver.BuildTour: it sorts the candidates with `Routing.SortByCost`, which keeps ascending city
  order among equal costs. `std::sort` leaves that order unspecified, so the exact tour matches
  the source only when the two orders agree. `Routing.TourGuarantees` is proved for every sort
  by ascending cost (`CostSorter`), so its guarantees hold whatever order `std::sort` picks.
- Knapsack.KnapsackGuarantees: it holds for every ratio-sorted permutation of the products. Which
  permutation `std::sort` returns is not modelled.
- Floating point: weights, values, ratios and energies are exact reals, so rounding in the sums
  and in `valeur / poids` is not modelled.
- The mutex: a replication's critical section runs as one atomic method, and concurrent
  replications are not modelled.
- The console messages and the `std::cerr` message on a load failure. Also the formatting of a
  result line: it is a `LogLine` record, not text.
- The dead `else` of `if (nbCandidats > 0)`: `Routing.PoolNonEmpty` proves the branch is always
  taken.
- `afficherResultats`, the getters, `main`, script generation, the large-input generators, the
  benchmark and `testLectureFichiers`' own I/O: none of them is part of the solvers' core.
- The callers' `N <= 0` and `M <= 0`: the solvers require N >= 1 and M >= 1, which the
  defaults (2) and every call in the program satisfy.

## Findings

| source | as written | input that shows it | evidently intended | confidence | as-written member | corrected member |
|---|---|---|---|---|---|---|
| code/cod.cpp:242 | the loop bound `tournee.size() - 1` is computed in unsigned `size_t`, so for an empty tour it wraps to 2^64 - 1 and the first iteration reads `tournee[0]` and `tournee[1]` of an empty vector | `calculerResultats(sac, {})` | an empty tour has no legs and energy 0, as the `!tournee.empty()` test at line 245 expects | not executed; the tour solver itself never returns an empty tour | Evaluation.EmptyTourOverrun | Solver.RandomizedGreedy.Evaluate |
