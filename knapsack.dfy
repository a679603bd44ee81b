/**
 * The specification of the randomized greedy selector (`resoudreSacADosRandomise`):
 * the products, sorted by ratio, are walked in blocks of `n`; in each block the
 * products that still fit are the candidates, and one of them, chosen by the next
 * random draw, is committed.  Indices below are positions in the sorted copy.
 */
module Knapsack {
  import opened Domain

  /** Non-increasing by ratio: what `std::sort` with `a.ratio > b.ratio` guarantees (tie order is free). */
  ghost predicate SortedByRatio(s: seq<Item>)
  {
    forall i, j :: 0 <= i < j < |s| ==> s[i].ratio >= s[j].ratio
  }

  /** Insertion of `p` into a ratio-sorted list, below every entry of ratio at least its own. */
  function InsertByRatio(p: Item, s: seq<Item>): (r: seq<Item>)
    ensures |r| == |s| + 1
  {
    if s == [] then [p]
    else if s[0].ratio >= p.ratio then [s[0]] + InsertByRatio(p, s[1..])
    else [p] + s
  }

  lemma {:induction false} InsertByRatioSpec(p: Item, s: seq<Item>)
    requires SortedByRatio(s)
    ensures SortedByRatio(InsertByRatio(p, s))
    ensures multiset(InsertByRatio(p, s)) == multiset(s) + multiset{p}
  {
    if s != [] && s[0].ratio >= p.ratio {
      assert s == [s[0]] + s[1..];
      InsertByRatioSpec(p, s[1..]);
      HeadAbove(s[0], p, s[1..], InsertByRatio(p, s[1..]));
    }
  }

  /** Inserting `p` below a head `h` keeps `h` above everything that follows it. */
  lemma HeadAbove(h: Item, p: Item, t: seq<Item>, rest: seq<Item>)
    requires SortedByRatio([h] + t) && h.ratio >= p.ratio
    requires SortedByRatio(rest) && multiset(rest) == multiset(t) + multiset{p}
    ensures SortedByRatio([h] + rest)
  {
    forall k | 0 <= k < |rest| ensures h.ratio >= rest[k].ratio {
      assert rest[k] in multiset(rest);
      if rest[k] != p {
        assert rest[k] in multiset(t);
        var m :| 0 <= m < |t| && t[m] == rest[k];
        assert ([h] + t)[0] == h && ([h] + t)[m + 1] == t[m];
      }
    }
    var q := [h] + rest;
    forall i, j | 0 <= i < j < |q| ensures q[i].ratio >= q[j].ratio {
      if i > 0 {
        assert q[i] == rest[i - 1] && q[j] == rest[j - 1];
      } else {
        assert q[j] == rest[j - 1];
      }
    }
  }

  /** The sorted copy `produitsTries` (an insertion sort standing for `std::sort`). */
  function SortByRatio(s: seq<Item>): (r: seq<Item>)
    ensures |r| == |s|
  {
    if s == [] then [] else InsertByRatio(s[0], SortByRatio(s[1..]))
  }

  /** The sorted copy is a permutation of the products, highest ratio first. */
  lemma {:induction false} SortByRatioSpec(s: seq<Item>)
    ensures SortedByRatio(SortByRatio(s))
    ensures multiset(SortByRatio(s)) == multiset(s)
  {
    if s != [] {
      SortByRatioSpec(s[1..]);
      InsertByRatioSpec(s[0], SortByRatio(s[1..]));
      assert s == [s[0]] + s[1..];
    }
  }

  /** The capacity test of the selector: `p` fits when `used` capacity is already taken. */
  predicate Fits(p: Item, used: real, capacity: real)
  {
    used + p.weight <= capacity
  }

  /** The candidate list `candidats` of positions lo .. hi-1 whose products fit next to `used`, in list order. */
  function FitList(s: seq<Item>, lo: nat, hi: nat, used: real, capacity: real): seq<nat>
    requires lo <= hi <= |s|
    decreases hi
  {
    if lo == hi then []
    else if Fits(s[hi - 1], used, capacity) then FitList(s, lo, hi - 1, used, capacity) + [hi - 1]
    else FitList(s, lo, hi - 1, used, capacity)
  }

  /** Every candidate lies in lo .. hi-1 and fits. */
  lemma {:induction false} FitListAt(s: seq<Item>, lo: nat, hi: nat, used: real, capacity: real, k: nat)
    requires lo <= hi <= |s| && k < |FitList(s, lo, hi, used, capacity)|
    ensures lo <= FitList(s, lo, hi, used, capacity)[k] < hi
    ensures Fits(s[FitList(s, lo, hi, used, capacity)[k]], used, capacity)
    decreases hi
  {
    if k < |FitList(s, lo, hi - 1, used, capacity)| {
      FitListAt(s, lo, hi - 1, used, capacity, k);
    }
  }

  lemma FitListInBounds(s: seq<Item>, lo: nat, hi: nat, used: real, capacity: real)
    requires lo <= hi <= |s|
    ensures InBounds(FitList(s, lo, hi, used, capacity), |s|)
  {
    forall k | 0 <= k < |FitList(s, lo, hi, used, capacity)|
      ensures FitList(s, lo, hi, used, capacity)[k] < |s|
    {
      FitListAt(s, lo, hi, used, capacity, k);
    }
  }

  /** The candidate list is empty exactly when no product of lo .. hi-1 fits. */
  lemma {:induction false} FitListEmpty(s: seq<Item>, lo: nat, hi: nat, used: real, capacity: real)
    requires lo <= hi <= |s|
    ensures FitList(s, lo, hi, used, capacity) == [] <==> forall j :: lo <= j < hi ==> !Fits(s[j], used, capacity)
    decreases hi
  {
    if lo < hi {
      FitListEmpty(s, lo, hi - 1, used, capacity);
    }
  }

  /**
   * The number of blocks from block start `i` on in a list of `len` positions:
   * the iterations left to the loop `for (i ...; i < len; i += n)`, ceil((len - i) / n).
   */
  function BlocksFrom(len: nat, i: nat, n: nat): nat
    requires n >= 1
    decreases len - i
  {
    if i >= len then 0 else 1 + BlocksFrom(len, i + n, n)
  }

  /** The block count is the ceiling of `(len - i) / n`: the last block starts before `len`, and the blocks cover it. */
  lemma {:induction false} BlocksCeil(len: nat, i: nat, n: nat)
    requires n >= 1
    ensures i >= len ==> BlocksFrom(len, i, n) == 0
    ensures i < len ==> var b := BlocksFrom(len, i, n);
                        b >= 1 && i + (b - 1) * n < len <= i + b * n
    decreases len - i
  {
    if i < len {
      BlocksCeil(len, i + n, n);
      var b' := BlocksFrom(len, i + n, n);
      assert (1 + b') * n == n + b' * n;
      if b' >= 1 {
        assert b' * n == n + (b' - 1) * n;
      }
    }
  }

  /**
   * The positions committed by the block walk that starts at block start `i`, with
   * `used` capacity taken.  `rs` is the stream of raw generator outputs and `pos` the
   * next one to be consumed; the stream holds at least one draw per remaining block.
   * A block with candidates consumes the draw `r` and takes candidate
   * `(r % n) % |candidates|`; a block without candidates is skipped and consumes nothing.
   */
  function Run(s: seq<Item>, capacity: real, n: nat, i: nat, used: real, rs: seq<nat>, pos: nat): seq<nat>
    requires n >= 1 && pos + BlocksFrom(|s|, i, n) <= |rs|
    decreases |s| - i
  {
    if i >= |s| then []
    else
      var hi := Min(i + n, |s|);
      var c := FitList(s, i, hi, used, capacity);
      if c == [] then Run(s, capacity, n, i + n, used, rs, pos)
      else
        var k := Choice(rs[pos], n, |c|);
        assert c[k] < |s| by { FitListAt(s, i, hi, used, capacity, k); }
        [c[k]] + Run(s, capacity, n, i + n, used + s[c[k]].weight, rs, pos + 1)
  }


  predicate InBounds(r: seq<nat>, len: nat)
  {
    forall k :: 0 <= k < |r| ==> r[k] < len
  }

  /** One step of the block walk: the first block either commits one candidate and consumes a draw, or is skipped. */
  lemma RunStep(s: seq<Item>, capacity: real, n: nat, i: nat, used: real, rs: seq<nat>, pos: nat)
    requires n >= 1 && i < |s| && pos + BlocksFrom(|s|, i, n) <= |rs|
    ensures BlocksFrom(|s|, i, n) == 1 + BlocksFrom(|s|, i + n, n)
    ensures FitList(s, i, Min(i + n, |s|), used, capacity) == [] ==>
              Run(s, capacity, n, i, used, rs, pos) == Run(s, capacity, n, i + n, used, rs, pos)
    ensures FitList(s, i, Min(i + n, |s|), used, capacity) != [] ==>
              pos < |rs| &&
              var c := FitList(s, i, Min(i + n, |s|), used, capacity);
              var j := c[Choice(rs[pos], n, |c|)];
              j < |s| && Run(s, capacity, n, i, used, rs, pos) == [j] + Run(s, capacity, n, i + n, used + s[j].weight, rs, pos + 1)
  {
    var c := FitList(s, i, Min(i + n, |s|), used, capacity);
    if c != [] {
      FitListAt(s, i, Min(i + n, |s|), used, capacity, Choice(rs[pos], n, |c|));
    }
  }

  /**
   * One step of the walk without the candidate arithmetic: either the block is
   * skipped, or position `j` of the block, which fits next to `used`, is committed.
   */
  lemma RunView(s: seq<Item>, capacity: real, n: nat, i: nat, used: real, rs: seq<nat>, pos: nat)
    returns (take: bool, j: nat)
    requires n >= 1 && i < |s| && pos + BlocksFrom(|s|, i, n) <= |rs|
    ensures BlocksFrom(|s|, i, n) == 1 + BlocksFrom(|s|, i + n, n)
    ensures !take ==> Run(s, capacity, n, i, used, rs, pos) == Run(s, capacity, n, i + n, used, rs, pos)
    ensures take ==> i <= j < Min(i + n, |s|) && Fits(s[j], used, capacity) && pos < |rs|
                     && Run(s, capacity, n, i, used, rs, pos) == [j] + Run(s, capacity, n, i + n, used + s[j].weight, rs, pos + 1)
  {
    RunStep(s, capacity, n, i, used, rs, pos);
    var c := FitList(s, i, Min(i + n, |s|), used, capacity);
    take := c != [];
    if take {
      j := c[Choice(rs[pos], n, |c|)];
      FitListAt(s, i, Min(i + n, |s|), used, capacity, Choice(rs[pos], n, |c|));
    } else {
      j := 0;
    }
  }

  /** The products at the given positions, in order. */
  function Picked(s: seq<Item>, r: seq<nat>): seq<Item>
    requires InBounds(r, |s|)
  {
    seq(|r|, k requires 0 <= k < |r| => s[r[k]])
  }

  /**
   * The selector's two nested loops, one position at a time: `i` is the block start,
   * `j` the next position of the block to test, `cands` the candidates found so far
   * in the block, and `acc` the positions committed so far (the vector `solution`);
   * the next draw is the `|acc|`-th of the stream.
   */
  function Select(s: seq<Item>, capacity: real, n: nat, i: nat, j: nat, used: real, cands: seq<nat>,
                  rs: seq<nat>, acc: seq<nat>): seq<nat>
    requires n >= 1 && i <= j && InBounds(cands, |s|) && |acc| + BlocksFrom(|s|, i, n) <= |rs|
    decreases |s| - i, |s| - j
  {
    if i >= |s| then acc
    else if j < i + n && j < |s| then
      if Fits(s[j], used, capacity) then Select(s, capacity, n, i, j + 1, used, cands + [j], rs, acc)
      else Select(s, capacity, n, i, j + 1, used, cands, rs, acc)
    else if cands == [] then Select(s, capacity, n, i + n, i + n, used, [], rs, acc)
    else
      var p := cands[Choice(rs[|acc|], n, |cands|)];
      Select(s, capacity, n, i + n, i + n, used + s[p].weight, [], rs, acc + [p])
  }

  /** Scanning the rest of a block extends the candidate list to the whole block. */
  lemma {:induction false} SelectScan(s: seq<Item>, capacity: real, n: nat, i: nat, j: nat, used: real, rs: seq<nat>, acc: seq<nat>)
    requires n >= 1 && i <= j <= Min(i + n, |s|) && i < |s| && |acc| + BlocksFrom(|s|, i, n) <= |rs|
    requires InBounds(FitList(s, i, j, used, capacity), |s|) && InBounds(FitList(s, i, Min(i + n, |s|), used, capacity), |s|)
    ensures Select(s, capacity, n, i, j, used, FitList(s, i, j, used, capacity), rs, acc)
            == Select(s, capacity, n, i, Min(i + n, |s|), used, FitList(s, i, Min(i + n, |s|), used, capacity), rs, acc)
    decreases Min(i + n, |s|) - j
  {
    if j < Min(i + n, |s|) {
      FitListInBounds(s, i, j + 1, used, capacity);
      SelectScan(s, capacity, n, i, j + 1, used, rs, acc);
    }
  }

  /** One whole block of the loops' view: the same choice as one step of the block walk. */
  lemma SelectBlock(s: seq<Item>, capacity: real, n: nat, i: nat, used: real, rs: seq<nat>, acc: seq<nat>)
    requires n >= 1 && i < |s| && |acc| + BlocksFrom(|s|, i, n) <= |rs|
    ensures BlocksFrom(|s|, i, n) == 1 + BlocksFrom(|s|, i + n, n)
    ensures FitList(s, i, Min(i + n, |s|), used, capacity) == [] ==>
              Select(s, capacity, n, i, i, used, [], rs, acc) == Select(s, capacity, n, i + n, i + n, used, [], rs, acc)
    ensures FitList(s, i, Min(i + n, |s|), used, capacity) != [] ==>
              |acc| < |rs| &&
              var c := FitList(s, i, Min(i + n, |s|), used, capacity);
              var j := c[Choice(rs[|acc|], n, |c|)];
              j < |s| && Select(s, capacity, n, i, i, used, [], rs, acc) == Select(s, capacity, n, i + n, i + n, used + s[j].weight, [], rs, acc + [j])
  {
    var hi := Min(i + n, |s|);
    FitListInBounds(s, i, hi, used, capacity);
    SelectScan(s, capacity, n, i, i, used, rs, acc);
  }

  /** The loops' view and the block walk agree: from a block start, the loops append the walk's commits. */
  lemma {:induction false} SelectIsRun(s: seq<Item>, capacity: real, n: nat, i: nat, used: real, rs: seq<nat>, acc: seq<nat>)
    requires n >= 1 && |acc| + BlocksFrom(|s|, i, n) <= |rs|
    ensures Select(s, capacity, n, i, i, used, [], rs, acc) == acc + Run(s, capacity, n, i, used, rs, |acc|)
    decreases |s| - i
  {
    if i < |s| {
      var hi := Min(i + n, |s|);
      RunStep(s, capacity, n, i, used, rs, |acc|);
      SelectBlock(s, capacity, n, i, used, rs, acc);
      var c := FitList(s, i, hi, used, capacity);
      if c == [] {
        SelectIsRun(s, capacity, n, i + n, used, rs, acc);
      } else {
        var j := c[Choice(rs[|acc|], n, |c|)];
        SelectIsRun(s, capacity, n, i + n, used + s[j].weight, rs, acc + [j]);
        AppendAssoc(acc, [j], Run(s, capacity, n, i + n, used + s[j].weight, rs, |acc| + 1));
      }
    }
  }

  lemma AppendAssoc(a: seq<nat>, b: seq<nat>, c: seq<nat>)
    ensures a + (b + c) == (a + b) + c
  {
  }

  /** One greedy run over some sorted permutation of `items`: what the selector may return. */
  ghost predicate KnapsackOutcome(items: seq<Item>, capacity: real, n: nat, rs: seq<nat>, pos: nat, sel: seq<Item>)
  {
    n >= 1 && pos + BlocksFrom(|items|, 0, n) <= |rs|
    && exists sorted :: |sorted| == |items| && SortedByRatio(sorted) && multiset(sorted) == multiset(items)
                      && InBounds(Run(sorted, capacity, n, 0, 0.0, rs, pos), |sorted|)
                      && sel == Picked(sorted, Run(sorted, capacity, n, 0, 0.0, rs, pos))
  }

  /** The block that position `j` falls in when blocks of `n` start at 0, n, 2n, ... (j div n). */
  function Block(j: nat, n: nat): nat
    requires n >= 1
    decreases j
  {
    if j < n then 0 else 1 + Block(j - n, n)
  }

  /** A position where a block begins: the values the loop index `i` takes. */
  predicate IsBlockStart(i: nat, n: nat)
    requires n >= 1
    decreases i
  {
    i == 0 || (i >= n && IsBlockStart(i - n, n))
  }

  lemma {:induction false} BlockMonotone(j: nat, j': nat, n: nat)
    requires n >= 1 && j <= j'
    ensures Block(j, n) <= Block(j', n)
    decreases j
  {
    if j >= n {
      BlockMonotone(j - n, j' - n, n);
    }
  }

  /** The positions of the block that begins at `i` share its block number; later ones are in later blocks. */
  lemma {:induction false} BlockOf(i: nat, j: nat, n: nat)
    requires n >= 1 && IsBlockStart(i, n)
    ensures i <= j < i + n ==> Block(j, n) == Block(i, n)
    ensures i + n <= j ==> Block(i, n) < Block(j, n)
    decreases i
  {
    if i == 0 {
      if n <= j {
        BlockMonotone(0, j - n, n);
      }
    } else {
      if i <= j {
        BlockOf(i - n, j - n, n);
      }
    }
  }

  /** Every position is at least `lo`. */
  predicate Above(r: seq<nat>, lo: nat)
  {
    forall k :: 0 <= k < |r| ==> lo <= r[k]
  }

  /** Each position is smaller than the next one. */
  predicate Increasing(r: seq<nat>)
  {
    forall k :: 0 < k < |r| ==> r[k - 1] < r[k]
  }

  /** Each position lies in a later block of `n` than the one before it. */
  predicate OnePerBlock(r: seq<nat>, n: nat)
    requires n >= 1
  {
    forall k :: 0 < k < |r| ==> Block(r[k - 1], n) < Block(r[k], n)
  }

  /** An increasing list is increasing between any two of its entries. */
  lemma {:induction false} IncreasingPairwise(r: seq<nat>, k: nat, k': nat)
    requires Increasing(r) && k < k' < |r|
    ensures r[k] < r[k']
    decreases k' - k
  {
    if k + 1 < k' {
      IncreasingPairwise(r, k, k' - 1);
    }
  }

  /** Block numbers that increase step by step increase between any two entries: no block is used twice. */
  lemma {:induction false} OnePerBlockPairwise(r: seq<nat>, n: nat, k: nat, k': nat)
    requires n >= 1 && OnePerBlock(r, n) && k < k' < |r|
    ensures Block(r[k], n) < Block(r[k'], n)
    decreases k' - k
  {
    if k + 1 < k' {
      OnePerBlockPairwise(r, n, k, k' - 1);
    }
  }

  lemma ConsOnePerBlock(i: nat, j: nat, rest: seq<nat>, n: nat)
    requires n >= 1 && IsBlockStart(i, n) && i <= j < i + n
    requires Above(rest, i + n) && OnePerBlock(rest, n)
    ensures OnePerBlock([j] + rest, n)
  {
    var r := [j] + rest;
    BlockOf(i, j, n);
    forall k | 0 < k < |r| ensures Block(r[k - 1], n) < Block(r[k], n) {
      assert r[k] == rest[k - 1];
      if k == 1 {
        BlockOf(i, rest[0], n);
      } else {
        assert r[k - 1] == rest[k - 2];
      }
    }
  }

  // ---------------------------------------------------------------------------
  // Properties of the block walk

  /** The weight of the products at the given positions. */
  function PosWeight(s: seq<Item>, r: seq<nat>): real
    requires InBounds(r, |s|)
  {
    if r == [] then 0.0 else s[r[0]].weight + PosWeight(s, r[1..])
  }

  lemma PosWeightCons(s: seq<Item>, j: nat, rest: seq<nat>)
    requires j < |s| && InBounds(rest, |s|)
    ensures PosWeight(s, [j] + rest) == s[j].weight + PosWeight(s, rest)
  {
    assert ([j] + rest)[1..] == rest;
  }

  lemma ConsAbove(j: nat, rest: seq<nat>, lo: nat, hi: nat, len: nat)
    requires lo <= j < len && hi >= lo && Above(rest, hi) && InBounds(rest, len)
    ensures Above([j] + rest, lo) && InBounds([j] + rest, len)
  {
  }

  /** Every committed position lies between the start `i` of the walk and the end of the list. */
  lemma {:induction false} RunAbove(s: seq<Item>, capacity: real, n: nat, i: nat, used: real, rs: seq<nat>, pos: nat)
    requires n >= 1 && pos + BlocksFrom(|s|, i, n) <= |rs|
    ensures Above(Run(s, capacity, n, i, used, rs, pos), i)
    ensures InBounds(Run(s, capacity, n, i, used, rs, pos), |s|)
    decreases |s| - i
  {
    if i < |s| {
      var take, j := RunView(s, capacity, n, i, used, rs, pos);
      if !take {
        RunAbove(s, capacity, n, i + n, used, rs, pos);
        AboveWeaken(Run(s, capacity, n, i + n, used, rs, pos), i, i + n);
      } else {
        RunAbove(s, capacity, n, i + n, used + s[j].weight, rs, pos + 1);
        ConsAbove(j, Run(s, capacity, n, i + n, used + s[j].weight, rs, pos + 1), i, i + n, |s|);
      }
    }
  }

  lemma AboveWeaken(r: seq<nat>, lo: nat, hi: nat)
    requires lo <= hi && Above(r, hi)
    ensures Above(r, lo)
  {
  }

  /** The capacity bound: a non-empty result weighs, on top of `used`, at most `capacity`. */
  lemma {:induction false} RunCapacity(s: seq<Item>, capacity: real, n: nat, i: nat, used: real, rs: seq<nat>, pos: nat)
    requires n >= 1 && pos + BlocksFrom(|s|, i, n) <= |rs|
    ensures InBounds(Run(s, capacity, n, i, used, rs, pos), |s|)
    ensures Run(s, capacity, n, i, used, rs, pos) == []
            || used + PosWeight(s, Run(s, capacity, n, i, used, rs, pos)) <= capacity
    decreases |s| - i
  {
    RunAbove(s, capacity, n, i, used, rs, pos);
    if i < |s| {
      var take, j := RunView(s, capacity, n, i, used, rs, pos);
      if !take {
        RunCapacity(s, capacity, n, i + n, used, rs, pos);
      } else {
        var rest := Run(s, capacity, n, i + n, used + s[j].weight, rs, pos + 1);
        RunCapacity(s, capacity, n, i + n, used + s[j].weight, rs, pos + 1);
        PosWeightCons(s, j, rest);
      }
    }
  }

  /** Nothing is taken exactly when no remaining product fits the remaining capacity. */
  lemma {:induction false} RunEmptyIff(s: seq<Item>, capacity: real, n: nat, i: nat, used: real, rs: seq<nat>, pos: nat)
    requires n >= 1 && pos + BlocksFrom(|s|, i, n) <= |rs|
    ensures Run(s, capacity, n, i, used, rs, pos) == []
            <==> forall j :: i <= j < |s| ==> !Fits(s[j], used, capacity)
    decreases |s| - i
  {
    if i < |s| {
      RunStep(s, capacity, n, i, used, rs, pos);
      var hi := Min(i + n, |s|);
      FitListEmpty(s, i, hi, used, capacity);
      if FitList(s, i, hi, used, capacity) == [] {
        RunEmptyIff(s, capacity, n, i + n, used, rs, pos);
      }
    }
  }

  /** At most one product per block: the block numbers of the committed positions strictly increase. */
  lemma {:induction false} RunBlocks(s: seq<Item>, capacity: real, n: nat, i: nat, used: real, rs: seq<nat>, pos: nat)
    requires n >= 1 && IsBlockStart(i, n) && pos + BlocksFrom(|s|, i, n) <= |rs|
    ensures OnePerBlock(Run(s, capacity, n, i, used, rs, pos), n)
    decreases |s| - i
  {
    if i < |s| {
      var take, j := RunView(s, capacity, n, i, used, rs, pos);
      NextBlockStart(i, n);
      if !take {
        RunBlocks(s, capacity, n, i + n, used, rs, pos);
      } else {
        var rest := Run(s, capacity, n, i + n, used + s[j].weight, rs, pos + 1);
        RunBlocks(s, capacity, n, i + n, used + s[j].weight, rs, pos + 1);
        RunAbove(s, capacity, n, i + n, used + s[j].weight, rs, pos + 1);
        ConsOnePerBlock(i, j, rest, n);
      }
    }
  }

  lemma NextBlockStart(i: nat, n: nat)
    requires n >= 1 && IsBlockStart(i, n)
    ensures IsBlockStart(i + n, n)
  {
  }

  /** Positions in strictly later blocks are strictly larger: the walk only moves forward. */
  lemma OnePerBlockIncreasing(r: seq<nat>, n: nat)
    requires n >= 1 && OnePerBlock(r, n)
    ensures Increasing(r)
  {
    forall k | 0 < k < |r| ensures r[k - 1] < r[k] {
      if r[k] <= r[k - 1] {
        BlockMonotone(r[k], r[k - 1], n);
      }
    }
  }

  /** One commit per block at most: the result has at most BlocksFrom(|s|, i, n) positions. */
  lemma {:induction false} RunCount(s: seq<Item>, capacity: real, n: nat, i: nat, used: real, rs: seq<nat>, pos: nat)
    requires n >= 1 && pos + BlocksFrom(|s|, i, n) <= |rs|
    ensures |Run(s, capacity, n, i, used, rs, pos)| <= BlocksFrom(|s|, i, n)
    decreases |s| - i
  {
    if i < |s| {
      var take, j := RunView(s, capacity, n, i, used, rs, pos);
      if !take {
        RunCount(s, capacity, n, i + n, used, rs, pos);
      } else {
        RunCount(s, capacity, n, i + n, used + s[j].weight, rs, pos + 1);
      }
    }
  }

  lemma {:induction false} PosWeightIsTotal(s: seq<Item>, r: seq<nat>)
    requires InBounds(r, |s|)
    ensures PosWeight(s, r) == TotalWeight(Picked(s, r))
    decreases |r|
  {
    if r != [] {
      PosWeightIsTotal(s, r[1..]);
      assert Picked(s, r) == [s[r[0]]] + Picked(s, r[1..]);
      TotalWeightCons(s[r[0]], Picked(s, r[1..]));
    }
  }

  lemma SubMultisetCons(x: Item, a: seq<Item>, pre: seq<Item>, b: seq<Item>)
    requires multiset(a) <= multiset(b)
    ensures multiset([x] + a) <= multiset(pre + [x] + b)
  {
  }

  /** The products at increasing positions in `s[lo..]` form a sub-multiset of `s[lo..]`. */
  lemma {:induction false} PickedMultiset(s: seq<Item>, r: seq<nat>, lo: nat)
    requires lo <= |s| && InBounds(r, |s|) && Above(r, lo) && Increasing(r)
    ensures multiset(Picked(s, r)) <= multiset(s[lo..])
    decreases |r|
  {
    if r != [] {
      var j := r[0];
      var rest := r[1..];
      forall k | 0 <= k < |rest| ensures j + 1 <= rest[k] {
        IncreasingPairwise(r, 0, k + 1);
      }
      forall k | 0 < k < |rest| ensures rest[k - 1] < rest[k] {
        assert rest[k - 1] == r[k] && rest[k] == r[k + 1];
      }
      PickedMultiset(s, rest, j + 1);
      assert Picked(s, r) == [s[j]] + Picked(s, rest);
      assert s[lo..] == s[lo..j] + [s[j]] + s[j + 1..];
      SubMultisetCons(s[j], Picked(s, rest), s[lo..j], s[j + 1..]);
    }
  }

  /** The result keeps the sorted order: a subsequence of a ratio-sorted list is ratio-sorted. */
  lemma PickedSorted(s: seq<Item>, r: seq<nat>)
    requires SortedByRatio(s)
    requires InBounds(r, |s|) && Increasing(r)
    ensures SortedByRatio(Picked(s, r))
  {
    var p := Picked(s, r);
    forall i, j | 0 <= i < j < |p| ensures p[i].ratio >= p[j].ratio {
      assert p[i] == s[r[i]] && p[j] == s[r[j]];
      IncreasingPairwise(r, i, j);
    }
  }

  /** The whole walk from position 0 commits at most one position of each block of `n`. */
  lemma KnapsackOnePerBlock(s: seq<Item>, capacity: real, n: nat, rs: seq<nat>, pos: nat)
    requires n >= 1 && pos + BlocksFrom(|s|, 0, n) <= |rs|
    ensures forall k, k' :: 0 <= k < k' < |Run(s, capacity, n, 0, 0.0, rs, pos)| ==>
              Block(Run(s, capacity, n, 0, 0.0, rs, pos)[k], n) != Block(Run(s, capacity, n, 0, 0.0, rs, pos)[k'], n)
  {
    var r := Run(s, capacity, n, 0, 0.0, rs, pos);
    RunBlocks(s, capacity, n, 0, 0.0, rs, pos);
    forall k, k' | 0 <= k < k' < |r| ensures Block(r[k], n) != Block(r[k'], n) {
      OnePerBlockPairwise(r, n, k, k');
    }
  }

  /**
   * What a caller of the selector can rely on: the capacity bound, the sorted order,
   * the items come from the input, at most one per block, and nothing is selected
   * exactly when no single product fits.
   */
  lemma KnapsackGuarantees(items: seq<Item>, capacity: real, n: nat, rs: seq<nat>, pos: nat, sel: seq<Item>)
    requires KnapsackOutcome(items, capacity, n, rs, pos, sel)
    ensures sel == [] || TotalWeight(sel) <= capacity
    ensures SortedByRatio(sel)
    ensures multiset(sel) <= multiset(items)
    ensures |sel| <= BlocksFrom(|items|, 0, n)
    ensures sel == [] <==> forall k :: 0 <= k < |items| ==> items[k].weight > capacity
  {
    var sorted: seq<Item> :| |sorted| == |items| && SortedByRatio(sorted) && multiset(sorted) == multiset(items)
                  && InBounds(Run(sorted, capacity, n, 0, 0.0, rs, pos), |sorted|)
                  && sel == Picked(sorted, Run(sorted, capacity, n, 0, 0.0, rs, pos));
    var r := Run(sorted, capacity, n, 0, 0.0, rs, pos);
    RunAbove(sorted, capacity, n, 0, 0.0, rs, pos);
    RunCapacity(sorted, capacity, n, 0, 0.0, rs, pos);
    PosWeightIsTotal(sorted, r);
    RunBlocks(sorted, capacity, n, 0, 0.0, rs, pos);
    OnePerBlockIncreasing(r, n);
    PickedSorted(sorted, r);
    PickedMultiset(sorted, r, 0);
    assert sorted[0..] == sorted;
    RunCount(sorted, capacity, n, 0, 0.0, rs, pos);
    RunEmptyIff(sorted, capacity, n, 0, 0.0, rs, pos);
    assert |sel| == |r|;
    if forall k :: 0 <= k < |items| ==> items[k].weight > capacity {
      forall j | 0 <= j < |sorted| ensures !Fits(sorted[j], 0.0, capacity) {
        assert sorted[j] in multiset(items);
      }
    }
    if forall j :: 0 <= j < |sorted| ==> !Fits(sorted[j], 0.0, capacity) {
      forall k | 0 <= k < |items| ensures items[k].weight > capacity {
        assert items[k] in multiset(sorted);
        var j :| 0 <= j < |sorted| && sorted[j] == items[k];
      }
    }
  }
}
