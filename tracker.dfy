/**
 * The best-solution slots of `AlgorithmesGloutonsRandomises`: a score that starts
 * at minus infinity, and the solution that reached it.  A replication replaces a
 * slot only with a strictly greater score.
 */
module Tracking {

  /** A best score: minus infinity until the first replication, then a number. */
  datatype Score = NegInfinity | Finite(value: real)

  /** A slot: `meilleurScoreP1` with `meilleureSolutionP1`, or the P2 pair. */
  datatype Slot<T> = Slot(score: Score, solution: T)

  /** The test `score > meilleurScore`, with minus infinity below every number. */
  predicate Beats(x: real, best: Score)
  {
    best.NegInfinity? || x > best.value
  }

  /** The order of scores, minus infinity lowest. */
  predicate Le(a: Score, b: Score)
  {
    a.NegInfinity? || (b.Finite? && a.value <= b.value)
  }

  /** A slot that holds a number at least `x`. */
  predicate AtLeast(best: Score, x: real)
  {
    best.Finite? && best.value >= x
  }

  /** One update of a slot with the score `x` of solution `s`. */
  function Improve<T>(slot: Slot<T>, x: real, s: T): (r: Slot<T>)
    ensures AtLeast(r.score, x) && Le(slot.score, r.score)
    ensures r == slot || (Beats(x, slot.score) && r == Slot(Finite(x), s))
    ensures Beats(x, slot.score) ==> r.solution == s
    ensures slot.score == Finite(x) ==> r == slot
  {
    if Beats(x, slot.score) then Slot(Finite(x), s) else slot
  }

  /** What one replication offers a slot. */
  datatype Entry<T> = Entry(score: real, solution: T)

  /** The slot after the replications `xs`, in order, starting from `slot`. */
  function Track<T>(slot: Slot<T>, xs: seq<Entry<T>>): Slot<T>
  {
    if xs == [] then slot
    else
      var last := xs[|xs| - 1];
      Improve(Track(slot, xs[..|xs| - 1]), last.score, last.solution)
  }

  /** Entry `k` has the greatest score of `xs`, and no earlier entry reaches it. */
  ghost predicate FirstBest<T>(xs: seq<Entry<T>>, k: nat)
  {
    k < |xs|
    && (forall i :: 0 <= i < |xs| ==> xs[i].score <= xs[k].score)
    && (forall i :: 0 <= i < k ==> xs[i].score < xs[k].score)
  }

  /**
   * After any non-empty run of replications the slot holds the greatest score and
   * the solution of the first replication that reached it: ties keep the older one.
   */
  lemma {:induction false} TrackFirstBest<T>(init: T, xs: seq<Entry<T>>) returns (k: nat)
    requires xs != []
    ensures FirstBest(xs, k)
    ensures Track(Slot(NegInfinity, init), xs) == Slot(Finite(xs[k].score), xs[k].solution)
    decreases |xs|
  {
    var n := |xs|;
    var prefix := xs[..n - 1];
    if n == 1 {
      k := 0;
      assert Track(Slot(NegInfinity, init), prefix) == Slot(NegInfinity, init);
    } else {
      var k' := TrackFirstBest(init, prefix);
      assert forall i :: 0 <= i < n - 1 ==> prefix[i] == xs[i];
      if xs[n - 1].score > xs[k'].score {
        k := n - 1;
      } else {
        k := k';
      }
    }
  }

  /** Scores never go down from one replication to the next. */
  lemma {:induction false} TrackMonotone<T>(slot: Slot<T>, xs: seq<Entry<T>>, ys: seq<Entry<T>>)
    ensures Le(Track(slot, xs).score, Track(slot, xs + ys).score)
    decreases |ys|
  {
    if ys == [] {
      assert xs + ys == xs;
    } else {
      var zs := xs + ys;
      assert zs[..|zs| - 1] == xs + ys[..|ys| - 1];
      TrackMonotone(slot, xs, ys[..|ys| - 1]);
    }
  }
}
