/**
 * The class `AlgorithmesGloutonsRandomises`: one dataset, one random engine, and
 * the best solutions seen so far by the replications.
 */
module Solver {
  import opened Domain
  import opened Knapsack
  import opened Routing
  import opened Evaluation
  import opened Tracking

  /** The draws `from`, `from + 1`, ... `from + len - 1` of the engine's output stream. */
  ghost function Window(stream: nat -> nat, from: nat, len: nat): (w: seq<nat>)
    ensures |w| == len
  {
    seq(len, k requires 0 <= k < len => stream(from + k))
  }

  lemma WindowAt(stream: nat -> nat, from: nat, len: nat, k: nat)
    requires k < len
    ensures Window(stream, from, len)[k] == stream(from + k)
  {
  }

  lemma PickedSnoc(s: seq<Item>, r: seq<nat>, j: nat)
    requires InBounds(r, |s|) && j < |s|
    ensures InBounds(r + [j], |s|)
    ensures Picked(s, r + [j]) == Picked(s, r) + [s[j]]
  {
    assert Picked(s, r + [j]) == Picked(s, r) + [s[j]];
  }

  /** The selector's result, described by the walk over the sorted copy it built. */
  lemma OutcomeIntro(items: seq<Item>, capacity: real, n: nat, w: seq<nat>, r: seq<nat>, sel: seq<Item>)
    requires n >= 1 && BlocksFrom(|items|, 0, n) <= |w|
    requires r == Select(SortByRatio(items), capacity, n, 0, 0, 0.0, [], w, [])
    requires InBounds(r, |items|) && sel == Picked(SortByRatio(items), r)
    ensures KnapsackOutcome(items, capacity, n, w, 0, sel)
  {
    var sorted := SortByRatio(items);
    SelectIsRun(sorted, capacity, n, 0, 0.0, w, []);
    SortByRatioSpec(items);
    assert [] + Run(sorted, capacity, n, 0, 0.0, w, 0) == Run(sorted, capacity, n, 0, 0.0, w, 0);
  }

  /**
   * The selector's two loops over the sorted copy: blocks of `n`, the candidates of
   * each block, and one of them committed per block that has any, chosen by the draw
   * `stream(from + number of commits so far)`.
   */
  method SelectProducts(items: seq<Item>, capacity: real, n: nat, stream: nat -> nat, from: nat) returns (sel: seq<Item>)
    requires n >= 1
    ensures KnapsackOutcome(items, capacity, n, Window(stream, from, BlocksFrom(|items|, 0, n)), 0, sel)
  {
    var sorted := SortByRatio(items);
    ghost var w := Window(stream, from, BlocksFrom(|items|, 0, n));
    ghost var r: seq<nat> := [];
    ghost var goal := Select(sorted, capacity, n, 0, 0, 0.0, [], w, []);
    sel := [];
    var used := 0.0;
    var i := 0;
    while i < |sorted|
      invariant |r| + BlocksFrom(|sorted|, i, n) <= |w|
      invariant InBounds(r, |sorted|) && sel == Picked(sorted, r)
      invariant used == TotalWeight(sel)
      invariant Select(sorted, capacity, n, i, i, used, [], w, r) == goal
      decreases |sorted| - i
    {
      var candidates, c := Candidates(sorted, capacity, n, i, used);
      SelectBlock(sorted, capacity, n, i, used, w, r);
      if candidates != [] {
        var taken := |sel|;
        var choice := Choice(stream(from + taken), n, |candidates|);
        WindowAt(stream, from, BlocksFrom(|items|, 0, n), taken);
        PickedSnoc(sorted, r, c[choice]);
        assert (sel + [candidates[choice]])[..|sel|] == sel;
        sel := sel + [candidates[choice]];
        used := used + candidates[choice].weight;
        r := r + [c[choice]];
      }
      i := i + n;
    }
    OutcomeIntro(items, capacity, n, w, r, sel);
  }

  /**
   * The inner loop of the selector: the products of the block starting at `i` that
   * fit next to `used`, in sorted order, with their positions `c`.
   */
  method Candidates(sorted: seq<Item>, capacity: real, n: nat, i: nat, used: real)
    returns (candidates: seq<Item>, ghost c: seq<nat>)
    requires n >= 1 && i <= |sorted|
    ensures c == FitList(sorted, i, Min(i + n, |sorted|), used, capacity)
    ensures InBounds(c, |sorted|) && candidates == Picked(sorted, c)
  {
    candidates := [];
    c := [];
    var j := i;
    while j < i + n && j < |sorted|
      invariant i <= j <= Min(i + n, |sorted|)
      invariant c == FitList(sorted, i, j, used, capacity)
      invariant InBounds(c, |sorted|) && candidates == Picked(sorted, c)
    {
      if used + sorted[j].weight <= capacity {
        PickedSnoc(sorted, c, j);
        candidates := candidates + [sorted[j]];
        c := c + [j];
      }
      j := j + 1;
    }
  }

  /**
   * The tour loop: `visited` is the vector `visite`; each iteration collects the
   * unvisited cities with their cost from `cur`, sorts them, and moves to the
   * candidate chosen by the draw `stream(from + number of moves so far)`.
   */
  method BuildTour(mat: seq<seq<real>>, m: nat, stream: nat -> nat, from: nat) returns (tour: seq<nat>)
    requires m >= 1 && |mat| >= 1 && IsSquare(mat, |mat|)
    ensures Marked(Start(|mat|), |mat|) == 1
    ensures tour == InsertionTour(mat, m, Window(stream, from, |mat| - 1), Start(|mat|), 0, [0])
  {
    var n := |mat|;
    ghost var w := Window(stream, from, n - 1);
    MarkedStart(n, n);
    ghost var goal := InsertionTour(mat, m, w, Start(n), 0, [0]);
    var visited := new bool[n](c => false);
    tour := [0];
    visited[0] := true;
    var cur: nat := 0;
    assert visited[..] == Start(n);
    while |tour| < n
      invariant 1 <= |tour| <= n && cur < n
      invariant Marked(visited[..], n) == |tour|
      invariant InsertionTour(mat, m, w, visited[..], cur, tour) == goal
      decreases n - |tour|
    {
      var moves := |tour| - 1;
      var r := stream(from + moves);
      WindowAt(stream, from, n - 1, moves);
      var next := Move(visited, mat, m, cur, r, w, tour);
      tour := tour + [next];
      cur := next;
    }
  }

  /**
   * One iteration of the tour loop from `cur`: the unvisited cities sorted by cost,
   * the first `min(M, size)` of them as candidates, and the move to the one the draw
   * `r` selects, which is marked visited.
   */
  method Move(visited: array<bool>, mat: seq<seq<real>>, m: nat, cur: nat, r: nat, ghost rs: seq<nat>,
              ghost tour: seq<nat>)
    returns (next: nat)
    requires m >= 1 && IsSquare(mat, visited.Length) && cur < visited.Length
    requires 1 <= |tour| < visited.Length && Marked(visited[..], visited.Length) == |tour|
    requires visited.Length - 1 <= |rs| && r == rs[|tour| - 1]
    modifies visited
    ensures var pool := SortByCost(Unvisited(old(visited[..]), mat[cur], visited.Length));
            |pool| > 0 && next == pool[Choice(r, m, Min(m, |pool|))].city
    ensures next < visited.Length && visited[..] == old(visited[..])[next := true]
    ensures Marked(visited[..], visited.Length) == |tour| + 1
    ensures InsertionTour(mat, m, rs, old(visited[..]), cur, tour)
            == InsertionTour(mat, m, rs, visited[..], next, tour + [next])
  {
    ghost var marks := visited[..];
    var distances := Distances(visited, mat[cur]);
    distances := SortByCost(distances);
    UnvisitedSize(marks, mat[cur], visited.Length);
    var count := Min(m, |distances|);
    var choice := Choice(r, m, count);
    next := distances[choice].city;
    SortedPoolEntry(mat, marks, cur, choice);
    MarkedSet(marks, visited.Length, next);
    visited[next] := true;
    assert visited[..] == marks[next := true];
  }

  /** The vector `distances`: the unvisited cities with their cost in `row`, by ascending city. */
  method Distances(visited: array<bool>, row: seq<real>) returns (distances: seq<Leg>)
    requires visited.Length <= |row|
    ensures distances == Unvisited(visited[..], row, visited.Length)
  {
    distances := [];
    var v := 0;
    while v < visited.Length
      invariant 0 <= v <= visited.Length
      invariant distances == Unvisited(visited[..], row, v)
    {
      if !visited[v] {
        distances := distances + [Leg(v, row[v])];
      }
      v := v + 1;
    }
  }

  /** One line of the results file: `graine,benefice,energie,benefice-energie`. */
  datatype LogLine = LogLine(seed: nat, benefit: real, energy: real, score: real)

  /** The results file the replications append to. */
  class ResultFile {
    var lines: seq<LogLine>

    constructor ()
      ensures lines == []
    {
      lines := [];
    }

    method Write(line: LogLine)
      modifies this
      ensures lines == old(lines) + [line]
    {
      lines := lines + [line];
    }
  }

  class RandomizedGreedy {
    /** The dataset the solvers read. */
    const data: Dataset
    /** The output of the random engine seeded with the replication's seed. */
    const stream: nat -> nat
    /** How many draws the solvers have taken from the engine so far. */
    var drawn: nat
    /** `meilleurScoreP1` with `meilleureSolutionP1`: the best benefit of any replication. */
    var best1: Slot<seq<Item>>
    /** `meilleurScoreP2` with `meilleureSolutionP2`: the best benefit minus energy. */
    var best2: Slot<seq<nat>>
    /** The scores and solutions the replications offered the two slots, in order. */
    ghost var history1: seq<Entry<seq<Item>>>
    ghost var history2: seq<Entry<seq<nat>>>

    /** Each slot is what its replications, in order, made of minus infinity and an empty solution. */
    ghost predicate Valid()
      reads this
    {
      best1 == Track(Slot(NegInfinity, []), history1)
      && best2 == Track(Slot(NegInfinity, []), history2)
      && |history1| == |history2|
    }

    /**
     * After at least one replication each slot holds the greatest score offered to it
     * and the solution of the first replication that reached that score.
     */
    lemma BestSoFar() returns (k1: nat, k2: nat)
      requires Valid() && history1 != []
      ensures FirstBest(history1, k1) && best1 == Slot(Finite(history1[k1].score), history1[k1].solution)
      ensures FirstBest(history2, k2) && best2 == Slot(Finite(history2[k2].score), history2[k2].solution)
    {
      k1 := TrackFirstBest([], history1);
      k2 := TrackFirstBest([], history2);
    }

    constructor (d: Dataset, engine: nat -> nat)
      ensures data == d && stream == engine && drawn == 0
      ensures best1 == Slot(NegInfinity, []) && best2 == Slot(NegInfinity, [])
      ensures history1 == [] && history2 == [] && Valid()
    {
      data := d;
      stream := engine;
      drawn := 0;
      best1 := Slot(NegInfinity, []);
      best2 := Slot(NegInfinity, []);
      history1 := [];
      history2 := [];
    }

    /**
     * `calculerResultats`: the sum of the values of the selection, and the energy of
     * the tour's legs plus the closing leg back to city 0.
     */
    method Evaluate(sac: seq<Item>, tour: seq<nat>) returns (benefit: real, energy: real)
      requires IsSquare(data.matrix, |data.matrix|) && |data.matrix| >= 1 && InRange(tour, |data.matrix|)
      ensures benefit == TotalValue(sac)
      ensures energy == TourEnergy(data.matrix, tour)
      ensures tour == [] ==> energy == 0.0
    {
      benefit := 0.0;
      var k := 0;
      while k < |sac|
        invariant 0 <= k <= |sac|
        invariant benefit == TotalValue(sac[..k])
      {
        assert sac[..k + 1][..k] == sac[..k];
        benefit := benefit + sac[k].value;
        k := k + 1;
      }
      assert sac[..|sac|] == sac;
      energy := 0.0;
      var i := 0;
      while i < Legs(|tour|)
        invariant 0 <= i <= Legs(|tour|)
        invariant i < |tour| || tour == []
        invariant tour != [] ==> energy == PathCost(data.matrix, tour, i)
        invariant tour == [] ==> energy == 0.0
      {
        energy := energy + data.matrix[tour[i]][tour[i + 1]];
        i := i + 1;
      }
      if tour != [] {
        energy := energy + data.matrix[tour[|tour| - 1]][0];
      }
    }

    /** One replication's scores offered to the two slots, under the lock. */
    method Record(sac: seq<Item>, tour: seq<nat>, score1: real, score2: real)
      requires Valid()
      modifies this
      ensures best1 == Improve(old(best1), score1, sac) && best2 == Improve(old(best2), score2, tour)
      ensures history1 == old(history1) + [Entry(score1, sac)]
      ensures history2 == old(history2) + [Entry(score2, tour)]
      ensures drawn == old(drawn) && Valid()
    {
      if Beats(score1, best1.score) {
        best1 := Slot(Finite(score1), sac);
      }
      if Beats(score2, best2.score) {
        best2 := Slot(Finite(score2), tour);
      }
      ghost var h1 := history1 + [Entry(score1, sac)];
      ghost var h2 := history2 + [Entry(score2, tour)];
      assert h1[..|h1| - 1] == history1;
      assert h2[..|h2| - 1] == history2;
      history1 := h1;
      history2 := h2;
    }

    /**
     * `executerReplication`: when both files load, a solver of its own over the loaded
     * data and the engine seeded with `seed` runs the selection (N = 2), the tour
     * (M = 2) and the evaluation; then the two slots of this object are offered the
     * benefit and the benefit minus the energy, and one line is written.  When a file
     * fails to load, nothing changes.
     */
    method ExecuteReplication(seed: nat, loaded: Option<Dataset>, engine: nat -> (nat -> nat), out: ResultFile)
      returns (ghost sac: seq<Item>, ghost tour: seq<nat>, ghost benefit: real, ghost energy: real)
      requires Valid() && (loaded.Some? ==> ValidDataset(loaded.value))
      modifies this, out
      ensures drawn == old(drawn) && Valid()
      ensures loaded.None? ==>
                best1 == old(best1) && best2 == old(best2) && out.lines == old(out.lines)
                && history1 == old(history1) && history2 == old(history2)
      ensures loaded.Some? ==> Replication(loaded.value, engine(seed), sac, tour, benefit, energy)
      ensures loaded.Some? ==>
                best1 == Improve(old(best1), benefit, sac)
                && best2 == Improve(old(best2), benefit - energy, tour)
                && history1 == old(history1) + [Entry(benefit, sac)]
                && history2 == old(history2) + [Entry(benefit - energy, tour)]
                && out.lines == old(out.lines) + [LogLine(seed, benefit, energy, benefit - energy)]
    {
      if loaded.None? {
        return [], [], 0.0, 0.0;
      }
      var s, t, b, e := Replicate(loaded.value, engine(seed));
      sac, tour, benefit, energy := s, t, b, e;
      var score := b - e;
      Record(s, t, b, score);
      out.Write(LogLine(seed, b, e, score));
    }

    /**
     * `resoudreSacADosRandomise(N)`: the greedy selection over this dataset, consuming
     * one draw of the engine per block that has candidates.
     */
    method SolveKnapsack(n: nat) returns (sel: seq<Item>)
      requires n >= 1
      modifies this`drawn
      ensures KnapsackOutcome(data.items, data.capacity, n, Window(stream, old(drawn), BlocksFrom(|data.items|, 0, n)), 0, sel)
      ensures drawn == old(drawn) + |sel|
    {
      sel := SelectProducts(data.items, data.capacity, n, stream, drawn);
      drawn := drawn + |sel|;
    }

    /**
     * `resoudreTourneeRandomisee(M)`: the tour over this dataset's cities, consuming
     * one draw of the engine per move, `nbVilles - 1` in all.
     */
    method SolveTour(m: nat) returns (tour: seq<nat>)
      requires m >= 1 && |data.cities| >= 1 && IsSquare(data.matrix, |data.cities|)
      modifies this`drawn
      ensures Marked(Start(|data.matrix|), |data.matrix|) == 1
      ensures tour == InsertionTour(data.matrix, m, Window(stream, old(drawn), |data.matrix| - 1), Start(|data.matrix|), 0, [0])
      ensures drawn == old(drawn) + |data.cities| - 1
    {
      tour := BuildTour(data.matrix, m, stream, drawn);
      drawn := drawn + |data.cities| - 1;
    }
  }

  /**
   * What one replication computes from a loaded dataset `d` and the engine's output
   * `rs`: the selection with N = 2 from the first draws, the tour with M = 2 from the
   * draws after those, and their benefit and energy.
   */
  ghost predicate Replication(d: Dataset, rs: nat -> nat, sac: seq<Item>, tour: seq<nat>, benefit: real, energy: real)
  {
    KnapsackOutcome(d.items, d.capacity, 2, Window(rs, 0, BlocksFrom(|d.items|, 0, 2)), 0, sac)
    && |d.matrix| >= 1 && IsSquare(d.matrix, |d.matrix|)
    && Marked(Start(|d.matrix|), |d.matrix|) == 1
    && tour == InsertionTour(d.matrix, 2, Window(rs, |sac|, |d.matrix| - 1), Start(|d.matrix|), 0, [0])
    && InRange(tour, |d.matrix|)
    && benefit == TotalValue(sac) && energy == TourEnergy(d.matrix, tour)
  }

  /** The solving part of a replication, on a solver of its own. */
  method Replicate(d: Dataset, rs: nat -> nat) returns (sac: seq<Item>, tour: seq<nat>, benefit: real, energy: real)
    requires ValidDataset(d)
    ensures Replication(d, rs, sac, tour, benefit, energy)
  {
    var algo := new RandomizedGreedy(d, rs);
    sac := algo.SolveKnapsack(2);
    tour := algo.SolveTour(2);
    InsertionTourGuarantees(d.matrix, 2, Window(rs, |sac|, |d.matrix| - 1));
    benefit, energy := algo.Evaluate(sac, tour);
  }
}
