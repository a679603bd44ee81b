/**
 * The evaluator `calculerResultats`: the benefit of a selection and the energy of
 * a tour, the closed tour that returns to city 0 at the end.
 */
module Evaluation {
  import opened Domain
  import opened Routing

  /** The cost of the first `k` legs t[0] -> t[1], ..., t[k-1] -> t[k]. */
  function PathCost(mat: seq<seq<real>>, t: seq<nat>, k: nat): real
    requires IsSquare(mat, |mat|) && InRange(t, |mat|) && k < |t|
  {
    if k == 0 then 0.0 else PathCost(mat, t, k - 1) + mat[t[k - 1]][t[k]]
  }

  /**
   * The energy of the tour: its legs and the closing leg from the last city back to
   * city 0.  An empty tour has no legs (see `SizeMinusOne` for what the loop bound
   * of the source makes of it).
   */
  function TourEnergy(mat: seq<seq<real>>, t: seq<nat>): real
    requires IsSquare(mat, |mat|) && |mat| >= 1 && InRange(t, |mat|)
  {
    if t == [] then 0.0 else PathCost(mat, t, |t| - 1) + mat[t[|t| - 1]][0]
  }

  lemma {:induction false} PathCostNonNegative(mat: seq<seq<real>>, t: seq<nat>, k: nat)
    requires IsSquare(mat, |mat|) && NonNegative(mat) && InRange(t, |mat|) && k < |t|
    ensures PathCost(mat, t, k) >= 0.0
  {
    if k > 0 {
      PathCostNonNegative(mat, t, k - 1);
      assert mat[t[k - 1]][t[k]] >= 0.0;
    }
  }

  /** With entries >= 0, as the loader guarantees, no tour has negative energy. */
  lemma EnergyNonNegative(mat: seq<seq<real>>, t: seq<nat>)
    requires IsSquare(mat, |mat|) && |mat| >= 1 && NonNegative(mat) && InRange(t, |mat|)
    ensures TourEnergy(mat, t) >= 0.0
  {
    if t != [] {
      PathCostNonNegative(mat, t, |t| - 1);
      assert mat[t[|t| - 1]][0] >= 0.0;
    }
  }

  /** A tour of one city costs the closing leg from that city to city 0 and nothing else. */
  lemma OneCity(mat: seq<seq<real>>, c: nat)
    requires IsSquare(mat, |mat|) && |mat| >= 1 && c < |mat|
    ensures TourEnergy(mat, [c]) == mat[c][0]
  {
  }

  /** Every entry off the diagonal is positive, as in the four-city test matrix. */
  ghost predicate PositiveOffDiagonal(mat: seq<seq<real>>)
  {
    forall i, j :: 0 <= i < |mat| && 0 <= j < |mat[i]| && i != j ==> mat[i][j] > 0.0
  }

  /**
   * A tour over two or more distinct cities that starts at city 0 has positive energy
   * when every off-diagonal entry is positive: its closing leg leaves a city other than 0.
   */
  lemma EnergyPositive(mat: seq<seq<real>>, t: seq<nat>)
    requires IsSquare(mat, |mat|) && |mat| >= 1 && NonNegative(mat) && PositiveOffDiagonal(mat)
    requires InRange(t, |mat|) && NoDup(t) && |t| >= 2 && t[0] == 0
    ensures TourEnergy(mat, t) > 0.0
  {
    PathCostNonNegative(mat, t, |t| - 1);
    assert t[|t| - 1] != t[0];
    assert mat[t[|t| - 1]][0] > 0.0;
  }

  // ---------------------------------------------------------------------------
  // The loop bound `tournee.size() - 1`

  /** `size - 1` on the unsigned 64-bit `size_t`: it wraps around at 0. */
  function SizeMinusOne(size: nat): nat
    requires size < 0x1_0000_0000_0000_0000
  {
    (size + 0xFFFF_FFFF_FFFF_FFFF) % 0x1_0000_0000_0000_0000
  }

  /** For a non-empty tour the source's bound is the number of legs. */
  lemma SizeMinusOneNonEmpty(size: nat)
    requires 1 <= size < 0x1_0000_0000_0000_0000
    ensures SizeMinusOne(size) == size - 1
  {
  }

  /**
   * For an empty tour the source's bound wraps to 2^64 - 1, so its first iteration
   * reads `tournee[0]` and `tournee[1]` of an empty vector, although the closing-leg
   * test `!tournee.empty()` shows that an empty tour was meant to be accepted.
   */
  lemma EmptyTourOverrun(t: seq<nat>)
    requires t == []
    ensures 0 < SizeMinusOne(|t|) && |t| <= 0
  {
  }

  /** The corrected bound: the number of legs of the tour, 0 for an empty tour. */
  function Legs(size: nat): nat
  {
    if size == 0 then 0 else size - 1
  }

  lemma LegsAgree(size: nat)
    requires 1 <= size < 0x1_0000_0000_0000_0000
    ensures Legs(size) == SizeMinusOne(size)
  {
  }
}
