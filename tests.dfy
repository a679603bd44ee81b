/**
 * The two scenario tests of the program, on its five-product, four-city fixture
 * files, for every output of the random engine.
 */
module Scenarios {
  import opened Domain
  import opened Knapsack
  import opened Routing
  import opened Evaluation
  import opened Solver

  /**
   * The data of the fixture files: capacity 30 and five products, and four cities
   * with a symmetric matrix whose off-diagonal entries are positive.
   */
  function Fixture(): (d: Dataset)
    ensures ValidDataset(d) && PositiveOffDiagonal(d.matrix)
    ensures |d.items| == 5 && |d.cities| == 4
  {
    Dataset(
      30.0,
      [Item(1, 6.0, 3.0, 3.0 / 6.0), Item(2, 10.0, 4.0, 4.0 / 10.0), Item(3, 11.0, 4.0, 4.0 / 11.0),
       Item(4, 15.0, 6.0, 6.0 / 15.0), Item(5, 8.0, 3.0, 3.0 / 8.0)],
      [City(0, "Lille"), City(1, "Arros"), City(2, "Amiens"), City(3, "Loos")],
      [[0.0, 10.0, 15.0, 20.0],
       [10.0, 0.0, 12.0, 18.0],
       [15.0, 12.0, 0.0, 8.0],
       [20.0, 18.0, 8.0, 0.0]])
  }

  /**
   * The selection and the tour with the default N = 2 and M = 2 on the fixture,
   * then the evaluation: whatever the engine draws, the benefit and the energy are
   * both positive.
   */
  method TestGreedy(rs: nat -> nat) returns (benefit: real, energy: real)
    ensures benefit > 0.0 && energy > 0.0
  {
    var d := Fixture();
    var algo := new RandomizedGreedy(d, rs);
    var sac := algo.SolveKnapsack(2);
    var tour := algo.SolveTour(2);
    InsertionTourGuarantees(d.matrix, 2, Window(rs, |sac|, |d.matrix| - 1));
    benefit, energy := algo.Evaluate(sac, tour);
    KnapsackGuarantees(d.items, d.capacity, 2, Window(rs, 0, BlocksFrom(|d.items|, 0, 2)), 0, sac);
    assert d.items[0].weight <= d.capacity;
    forall k | 0 <= k < |sac|
      ensures sac[k].value > 0.0
    {
      assert sac[k] in multiset(d.items);
    }
    TotalValuePositive(sac);
    EnergyPositive(d.matrix, tour);
  }

  /**
   * Two replications with seeds 1 and 2 over the fixture files write two lines.
   */
  method TestReplications(engine: nat -> (nat -> nat)) returns (count: nat)
    ensures count == 2
  {
    var file := new ResultFile();
    var algo := new RandomizedGreedy(Dataset(0.0, [], [], []), engine(42));
    var s1, t1, b1, e1 := algo.ExecuteReplication(1, Some(Fixture()), engine, file);
    var s2, t2, b2, e2 := algo.ExecuteReplication(2, Some(Fixture()), engine, file);
    count := |file.lines|;
  }
}
