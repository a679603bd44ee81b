/**
 * The specification of `resoudreTourneeRandomisee(M)`: start at city 0 and, while
 * some city is unvisited, collect the unvisited cities with their cost from the
 * current city, sort them by cost, and move to one of the first `min(M, remaining)`
 * of them, chosen by the next draw.
 */
module Routing {
  import opened Domain

  /** An entry of the vector `distances`: an unvisited city and its cost from the current city. */
  datatype Leg = Leg(city: nat, cost: real)

  /** The cities 0 .. hi-1 not marked in `visited`, with their cost in `row`, by ascending city. */
  function Unvisited(visited: seq<bool>, row: seq<real>, hi: nat): seq<Leg>
    requires hi <= |visited| && hi <= |row|
  {
    if hi == 0 then []
    else if !visited[hi - 1] then Unvisited(visited, row, hi - 1) + [Leg(hi - 1, row[hi - 1])]
    else Unvisited(visited, row, hi - 1)
  }

  /** The number of cities among 0 .. hi-1 marked in `visited`. */
  function Marked(visited: seq<bool>, hi: nat): nat
    requires hi <= |visited|
  {
    if hi == 0 then 0 else Marked(visited, hi - 1) + (if visited[hi - 1] then 1 else 0)
  }

  // ---------------------------------------------------------------------------
  // Sorting the candidates by cost

  ghost predicate SortedByCost(s: seq<Leg>)
  {
    forall i, j :: 0 <= i < j < |s| ==> s[i].cost <= s[j].cost
  }

  /** Inserts `l` in front of the first entry that is not strictly cheaper. */
  function InsertByCost(l: Leg, s: seq<Leg>): (r: seq<Leg>)
    ensures |r| == |s| + 1
  {
    if s == [] then [l]
    else if s[0].cost < l.cost then [s[0]] + InsertByCost(l, s[1..])
    else [l] + s
  }

  lemma {:induction false} InsertByCostSpec(l: Leg, s: seq<Leg>)
    requires SortedByCost(s)
    ensures SortedByCost(InsertByCost(l, s))
    ensures multiset(InsertByCost(l, s)) == multiset(s) + multiset{l}
  {
    if s != [] && s[0].cost < l.cost {
      assert s == [s[0]] + s[1..];
      InsertByCostSpec(l, s[1..]);
      CheapestFirst(s[0], l, s[1..], InsertByCost(l, s[1..]));
    }
  }

  lemma CheapestFirst(h: Leg, l: Leg, t: seq<Leg>, rest: seq<Leg>)
    requires SortedByCost([h] + t) && h.cost < l.cost && SortedByCost(rest)
    requires multiset(rest) == multiset(t) + multiset{l}
    ensures SortedByCost([h] + rest)
  {
    forall j | 0 <= j < |rest| ensures h.cost <= rest[j].cost {
      assert rest[j] in multiset(rest);
      if rest[j] != l {
        assert rest[j] in multiset(t);
        var k :| 0 <= k < |t| && t[k] == rest[j];
        assert ([h] + t)[0] == h && ([h] + t)[k + 1] == t[k];
      }
    }
    var r := [h] + rest;
    forall i, j | 0 <= i < j < |r| ensures r[i].cost <= r[j].cost {
      if i == 0 {
        assert r[j] == rest[j - 1];
      } else {
        assert r[i] == rest[i - 1] && r[j] == rest[j - 1];
      }
    }
  }

  /** Stands for `std::sort` of `distances` by ascending cost. */
  function SortByCost(s: seq<Leg>): (r: seq<Leg>)
    ensures |r| == |s|
  {
    if s == [] then [] else InsertByCost(s[0], SortByCost(s[1..]))
  }

  /** The sorted pool is a permutation of the candidates, cheapest first. */
  lemma {:induction false} SortByCostSpec(s: seq<Leg>)
    ensures SortedByCost(SortByCost(s))
    ensures multiset(SortByCost(s)) == multiset(s)
  {
    if s != [] {
      SortByCostSpec(s[1..]);
      InsertByCostSpec(s[0], SortByCost(s[1..]));
      assert s == [s[0]] + s[1..];
    }
  }

  /**
   * What `std::sort` by ascending cost promises: some permutation, cheapest first.
   * The order among equal costs is left to the sort.
   */
  ghost predicate CostSorter(sort: seq<Leg> -> seq<Leg>)
  {
    forall s :: Sorts(sort, s)
  }

  /** `sort` orders `s` by ascending cost without adding or losing a candidate. */
  ghost predicate Sorts(sort: seq<Leg> -> seq<Leg>, s: seq<Leg>)
  {
    SortedByCost(sort(s)) && multiset(sort(s)) == multiset(s)
  }

  /** The insertion sort is one such sort. */
  lemma SortByCostSorts()
    ensures CostSorter(SortByCost)
  {
    forall s ensures Sorts(SortByCost, s) {
      SortByCostSpec(s);
    }
  }

  /** The candidates at the current city `cur`, sorted by cost with `sort`. */
  function Pool(sort: seq<Leg> -> seq<Leg>, mat: seq<seq<real>>, visited: seq<bool>, cur: nat): seq<Leg>
    requires cur < |mat| && |visited| <= |mat[cur]|
  {
    sort(Unvisited(visited, mat[cur], |visited|))
  }

  // ---------------------------------------------------------------------------
  // The tour

  /** No city occurs twice. */
  ghost predicate NoDup(t: seq<nat>)
  {
    forall i, j :: 0 <= i < j < |t| ==> t[i] != t[j]
  }

  ghost predicate InRange(t: seq<nat>, n: nat)
  {
    forall k :: 0 <= k < |t| ==> t[k] < n
  }

  /** The marks in `visited` are exactly the cities of `tour`. */
  ghost predicate Consistent(visited: seq<bool>, tour: seq<nat>)
  {
    forall v :: 0 <= v < |visited| ==> (visited[v] <==> v in tour)
  }

  /** Nothing but city 0 marked: `visite` once the tour holds only the start. */
  function Start(n: nat): (v: seq<bool>)
    ensures |v| == n
  {
    seq(n, c => c == 0)
  }

  /**
   * The rest of the tour from the current city `cur`, with `visited` marks and the
   * cities `tour` so far; the draw for the step that appends entry `|tour|` is
   * `rs[|tour| - 1]`, so a tour of `n` cities consumes `n - 1` draws.  `sort` is
   * the sort of the candidates, any one that sorts by ascending cost.
   */
  function Tour(mat: seq<seq<real>>, m: nat, sort: seq<Leg> -> seq<Leg>, rs: seq<nat>, visited: seq<bool>, cur: nat,
                tour: seq<nat>): seq<nat>
    requires m >= 1 && CostSorter(sort) && IsSquare(mat, |visited|) && cur < |visited|
    requires 1 <= |tour| <= |visited| && Marked(visited, |visited|) == |tour| && |visited| - 1 <= |rs|
    decreases |visited| - |tour|
  {
    if |tour| == |visited| then tour
    else
      var pool := Pool(sort, mat, visited, cur);
      assert |pool| > 0 by { PoolNonEmpty(sort, mat, visited, cur); }
      var k := Choice(rs[|tour| - 1], m, Min(m, |pool|));
      var next := pool[k].city;
      assert next < |visited| && !visited[next] by { PoolEntry(sort, mat, visited, cur, k); }
      assert Marked(visited[next := true], |visited|) == |tour| + 1 by { MarkedSet(visited, |visited|, next); }
      Tour(mat, m, sort, rs, visited[next := true], next, tour + [next])
  }

  /**
   * The tour the program builds, with the insertion sort `SortByCost` for the
   * candidates: `Tour` for that one sort, written out without the sort as a
   * parameter (`InsertionTourIsTour` shows the two agree).
   */
  function InsertionTour(mat: seq<seq<real>>, m: nat, rs: seq<nat>, visited: seq<bool>, cur: nat, tour: seq<nat>): seq<nat>
    requires m >= 1 && IsSquare(mat, |visited|) && cur < |visited|
    requires 1 <= |tour| <= |visited| && Marked(visited, |visited|) == |tour| && |visited| - 1 <= |rs|
    decreases |visited| - |tour|
  {
    if |tour| == |visited| then tour
    else
      var pool := SortByCost(Unvisited(visited, mat[cur], |visited|));
      assert |pool| > 0 by { UnvisitedSize(visited, mat[cur], |visited|); }
      var k := Choice(rs[|tour| - 1], m, Min(m, |pool|));
      var next := pool[k].city;
      assert next < |visited| && !visited[next] by { SortedPoolEntry(mat, visited, cur, k); }
      assert Marked(visited[next := true], |visited|) == |tour| + 1 by { MarkedSet(visited, |visited|, next); }
      InsertionTour(mat, m, rs, visited[next := true], next, tour + [next])
  }

  /** Entry `k` of the insertion-sorted candidates is an unvisited city, with its cost from `cur`. */
  lemma SortedPoolEntry(mat: seq<seq<real>>, visited: seq<bool>, cur: nat, k: nat)
    requires cur < |mat| && |visited| <= |mat[cur]| && k < |SortByCost(Unvisited(visited, mat[cur], |visited|))|
    ensures var e := SortByCost(Unvisited(visited, mat[cur], |visited|))[k];
            e.city < |visited| && !visited[e.city] && e.cost == mat[cur][e.city]
  {
    SortByCostSorts();
    PoolEntry(SortByCost, mat, visited, cur, k);
  }

  /** The insertion-sort tour is `Tour` with `SortByCost`. */
  lemma {:induction false} InsertionTourIsTour(mat: seq<seq<real>>, m: nat, rs: seq<nat>, visited: seq<bool>, cur: nat,
                                               tour: seq<nat>)
    requires m >= 1 && IsSquare(mat, |visited|) && cur < |visited|
    requires 1 <= |tour| <= |visited| && Marked(visited, |visited|) == |tour| && |visited| - 1 <= |rs|
    ensures CostSorter(SortByCost)
    ensures InsertionTour(mat, m, rs, visited, cur, tour) == Tour(mat, m, SortByCost, rs, visited, cur, tour)
    decreases |visited| - |tour|
  {
    SortByCostSorts();
    if |tour| < |visited| {
      var pool := Pool(SortByCost, mat, visited, cur);
      PoolNonEmpty(SortByCost, mat, visited, cur);
      var k := Choice(rs[|tour| - 1], m, Min(m, |pool|));
      PoolEntry(SortByCost, mat, visited, cur, k);
      var next := pool[k].city;
      MarkedSet(visited, |visited|, next);
      InsertionTourIsTour(mat, m, rs, visited[next := true], next, tour + [next]);
    }
  }

  /** While cities remain, the pool is not empty. */
  lemma PoolNonEmpty(sort: seq<Leg> -> seq<Leg>, mat: seq<seq<real>>, visited: seq<bool>, cur: nat)
    requires CostSorter(sort) && cur < |mat| && |visited| <= |mat[cur]| && Marked(visited, |visited|) < |visited|
    ensures |Pool(sort, mat, visited, cur)| > 0
  {
    var u := Unvisited(visited, mat[cur], |visited|);
    UnvisitedSize(visited, mat[cur], |visited|);
    assert Sorts(sort, u);
  }

  /** One step of the tour, as the loop body performs it: move to `next`, the candidate the draw `r` selects. */
  lemma TourStep(mat: seq<seq<real>>, m: nat, sort: seq<Leg> -> seq<Leg>, rs: seq<nat>, visited: seq<bool>, cur: nat,
                 tour: seq<nat>, pool: seq<Leg>, r: nat, next: nat)
    requires m >= 1 && CostSorter(sort) && IsSquare(mat, |visited|) && cur < |visited|
    requires 1 <= |tour| < |visited| && Marked(visited, |visited|) == |tour| && |visited| - 1 <= |rs|
    requires pool == Pool(sort, mat, visited, cur) && |pool| > 0 && r == rs[|tour| - 1]
    requires next == pool[Choice(r, m, Min(m, |pool|))].city
    ensures next < |visited| && !visited[next] && Marked(visited[next := true], |visited|) == |tour| + 1
    ensures Tour(mat, m, sort, rs, visited, cur, tour) == Tour(mat, m, sort, rs, visited[next := true], next, tour + [next])
  {
    PoolEntry(sort, mat, visited, cur, Choice(r, m, Min(m, |pool|)));
    MarkedSet(visited, |visited|, next);
  }

  // ---------------------------------------------------------------------------
  // Facts about the candidates

  /** Every city of 0 .. hi-1 is either marked or a candidate. */
  lemma {:induction false} UnvisitedSize(visited: seq<bool>, row: seq<real>, hi: nat)
    requires hi <= |visited| && hi <= |row|
    ensures |Unvisited(visited, row, hi)| + Marked(visited, hi) == hi
  {
    if hi > 0 {
      UnvisitedSize(visited, row, hi - 1);
    }
  }

  /** A candidate is an unmarked city of 0 .. hi-1 and carries its cost from `row`. */
  lemma {:induction false} UnvisitedEntry(visited: seq<bool>, row: seq<real>, hi: nat, e: Leg)
    requires hi <= |visited| && hi <= |row| && e in Unvisited(visited, row, hi)
    ensures e.city < hi && !visited[e.city] && e.cost == row[e.city]
  {
    if hi > 0 && e != Leg(hi - 1, row[hi - 1]) {
      UnvisitedEntry(visited, row, hi - 1, e);
    } else if hi > 0 && visited[hi - 1] {
      UnvisitedEntry(visited, row, hi - 1, e);
    }
  }

  /** Entry `k` of the pool is an unvisited city, with its cost from the current city. */
  lemma PoolEntry(sort: seq<Leg> -> seq<Leg>, mat: seq<seq<real>>, visited: seq<bool>, cur: nat, k: nat)
    requires CostSorter(sort) && cur < |mat| && |visited| <= |mat[cur]| && k < |Pool(sort, mat, visited, cur)|
    ensures Pool(sort, mat, visited, cur)[k].city < |visited| && !visited[Pool(sort, mat, visited, cur)[k].city]
    ensures Pool(sort, mat, visited, cur)[k].cost == mat[cur][Pool(sort, mat, visited, cur)[k].city]
  {
    var u := Unvisited(visited, mat[cur], |visited|);
    assert Sorts(sort, u);
    assert multiset(sort(u)) == multiset(u);
    var e := Pool(sort, mat, visited, cur)[k];
    assert e in multiset(sort(u));
    assert e in multiset(u);
    UnvisitedEntry(visited, mat[cur], |visited|, e);
  }

  /** Marking an unmarked city raises the count by one. */
  lemma {:induction false} MarkedSet(visited: seq<bool>, hi: nat, c: nat)
    requires hi <= |visited| && c < |visited| && !visited[c]
    ensures Marked(visited[c := true], hi) == Marked(visited, hi) + (if c < hi then 1 else 0)
  {
    if hi > 0 {
      MarkedSet(visited, hi - 1, c);
    }
  }

  /** All cities marked: every entry is true. */
  lemma {:induction false} MarkedAll(visited: seq<bool>, hi: nat)
    requires hi <= |visited| && Marked(visited, hi) == hi
    ensures forall v :: 0 <= v < hi ==> visited[v]
  {
    if hi > 0 {
      assert Marked(visited, hi - 1) <= hi - 1 by { MarkedBound(visited, hi - 1); }
      MarkedAll(visited, hi - 1);
    }
  }

  lemma {:induction false} MarkedBound(visited: seq<bool>, hi: nat)
    requires hi <= |visited|
    ensures Marked(visited, hi) <= hi
  {
    if hi > 0 {
      MarkedBound(visited, hi - 1);
    }
  }

  lemma {:induction false} MarkedStart(n: nat, hi: nat)
    requires 1 <= hi <= n
    ensures Marked(Start(n), hi) == 1
  {
    if hi > 1 {
      MarkedStart(n, hi - 1);
    }
  }

  // ---------------------------------------------------------------------------
  // The pool rule: fewer than M unvisited cities are strictly cheaper than the chosen one

  /** The number of entries strictly cheaper than `x`. */
  function CountBelow(s: seq<Leg>, x: real): nat
  {
    if s == [] then 0 else (if s[0].cost < x then 1 else 0) + CountBelow(s[1..], x)
  }

  /** The number of cities of 0 .. hi-1 outside `prefix` whose cost in `row` is strictly below `x`. */
  function Cheaper(row: seq<real>, prefix: seq<nat>, hi: nat, x: real): nat
    requires hi <= |row|
  {
    if hi == 0 then 0
    else Cheaper(row, prefix, hi - 1, x) + (if hi - 1 !in prefix && row[hi - 1] < x then 1 else 0)
  }

  lemma {:induction false} CountBelowAppend(a: seq<Leg>, b: seq<Leg>, x: real)
    ensures CountBelow(a + b, x) == CountBelow(a, x) + CountBelow(b, x)
  {
    if a != [] {
      assert (a + b)[0] == a[0] && (a + b)[1..] == a[1..] + b;
      CountBelowAppend(a[1..], b, x);
    } else {
      assert a + b == b;
    }
  }

  /** Any permutation has the same number of entries below any cost. */
  lemma {:induction false} CountBelowPerm(a: seq<Leg>, b: seq<Leg>, x: real)
    requires multiset(a) == multiset(b)
    ensures CountBelow(a, x) == CountBelow(b, x)
    decreases |a|
  {
    if a == [] {
      assert |multiset(b)| == 0;
    } else {
      assert a[0] in multiset(b);
      var i :| 0 <= i < |b| && b[i] == a[0];
      var rest := RemoveAt(b, i, x);
      assert a == [a[0]] + a[1..];
      assert multiset(a[1..]) == multiset(a) - multiset{a[0]};
      CountBelowPerm(a[1..], rest, x);
    }
  }

  /** `b` without its entry `i`: the same entries but that one, and the same count below `x` but that one's. */
  lemma RemoveAt(b: seq<Leg>, i: nat, x: real) returns (rest: seq<Leg>)
    requires i < |b|
    ensures multiset(rest) == multiset(b) - multiset{b[i]}
    ensures CountBelow(b, x) == CountBelow(rest, x) + (if b[i].cost < x then 1 else 0)
  {
    rest := b[..i] + b[i + 1..];
    assert b == b[..i] + [b[i]] + b[i + 1..];
    CountBelowAppend(b[..i] + [b[i]], b[i + 1..], x);
    CountBelowAppend(b[..i], [b[i]], x);
    CountBelowAppend(b[..i], b[i + 1..], x);
    assert [b[i]][1..] == [];
  }

  /** In a list sorted by cost, only entries before position `k` are strictly cheaper than entry `k`. */
  lemma {:induction false} CountBelowSorted(s: seq<Leg>, k: nat)
    requires SortedByCost(s) && k < |s|
    ensures CountBelow(s, s[k].cost) <= k
  {
    if k == 0 {
      CountBelowNone(s, s[0].cost);
    } else {
      assert SortedByCost(s[1..]);
      assert s[1..][k - 1] == s[k];
      CountBelowSorted(s[1..], k - 1);
    }
  }

  lemma {:induction false} CountBelowNone(s: seq<Leg>, x: real)
    requires forall k :: 0 <= k < |s| ==> x <= s[k].cost
    ensures CountBelow(s, x) == 0
  {
    if s != [] {
      CountBelowNone(s[1..], x);
    }
  }

  /** The candidates strictly cheaper than `x` are the unvisited cities strictly cheaper than `x`. */
  lemma {:induction false} CountBelowUnvisited(visited: seq<bool>, row: seq<real>, hi: nat, tour: seq<nat>, x: real)
    requires hi <= |visited| && hi <= |row| && Consistent(visited, tour)
    ensures CountBelow(Unvisited(visited, row, hi), x) == Cheaper(row, tour, hi, x)
  {
    if hi > 0 {
      CountBelowUnvisited(visited, row, hi - 1, tour, x);
      if !visited[hi - 1] {
        CountBelowAppend(Unvisited(visited, row, hi - 1), [Leg(hi - 1, row[hi - 1])], x);
        assert [Leg(hi - 1, row[hi - 1])][1..] == [];
      }
    }
  }

  /** The step's choice: an unvisited city with fewer than `m` unvisited cities strictly cheaper. */
  lemma PoolRuleStep(sort: seq<Leg> -> seq<Leg>, mat: seq<seq<real>>, m: nat, visited: seq<bool>, cur: nat,
                     tour: seq<nat>, k: nat)
    requires m >= 1 && CostSorter(sort) && cur < |mat| && |visited| <= |mat[cur]| && Consistent(visited, tour)
    requires k < Min(m, |Pool(sort, mat, visited, cur)|)
    ensures Pool(sort, mat, visited, cur)[k].city < |visited|
    ensures Cheaper(mat[cur], tour, |visited|, mat[cur][Pool(sort, mat, visited, cur)[k].city]) < m
  {
    var u := Unvisited(visited, mat[cur], |visited|);
    var pool := Pool(sort, mat, visited, cur);
    assert Sorts(sort, u);
    assert SortedByCost(sort(u)) && multiset(sort(u)) == multiset(u);
    PoolEntry(sort, mat, visited, cur, k);
    CountBelowSorted(pool, k);
    CountBelowPerm(pool, u, pool[k].cost);
    CountBelowUnvisited(visited, mat[cur], |visited|, tour, pool[k].cost);
  }

  /**
   * The pool rule over a whole tour: for every step, fewer than `m` of the cities
   * not yet in the tour were strictly cheaper from the previous city than the one taken.
   */
  ghost predicate PoolRule(mat: seq<seq<real>>, m: nat, t: seq<nat>)
    requires IsSquare(mat, |mat|) && InRange(t, |mat|)
  {
    forall k :: 1 <= k < |t| ==> Cheaper(mat[t[k - 1]], t[..k], |mat|, mat[t[k - 1]][t[k]]) < m
  }

  // ---------------------------------------------------------------------------
  // Extending the tour by one city

  lemma Extend(mat: seq<seq<real>>, m: nat, visited: seq<bool>, cur: nat, tour: seq<nat>, next: nat)
    requires m >= 1 && IsSquare(mat, |visited|) && |tour| >= 1 && cur == tour[|tour| - 1]
    requires Consistent(visited, tour) && NoDup(tour) && InRange(tour, |visited|) && PoolRule(mat, m, tour)
    requires next < |visited| && !visited[next]
    requires Cheaper(mat[cur], tour, |visited|, mat[cur][next]) < m
    ensures Consistent(visited[next := true], tour + [next]) && NoDup(tour + [next])
    ensures InRange(tour + [next], |visited|) && (tour + [next])[0] == tour[0]
    ensures PoolRule(mat, m, tour + [next])
  {
    var t := tour + [next];
    assert next !in tour;
    forall k | 1 <= k < |t| ensures Cheaper(mat[t[k - 1]], t[..k], |mat|, mat[t[k - 1]][t[k]]) < m {
      if k < |tour| {
        assert t[..k] == tour[..k] && t[k - 1] == tour[k - 1] && t[k] == tour[k];
      } else {
        assert t[..k] == tour;
      }
    }
  }

  /** From any consistent state, the rest of the tour completes a tour with all the guarantees. */
  lemma {:induction false} TourSpec(mat: seq<seq<real>>, m: nat, sort: seq<Leg> -> seq<Leg>, rs: seq<nat>,
                                    visited: seq<bool>, cur: nat, tour: seq<nat>)
    requires m >= 1 && CostSorter(sort) && IsSquare(mat, |visited|) && cur < |visited|
    requires 1 <= |tour| <= |visited| && Marked(visited, |visited|) == |tour| && |visited| - 1 <= |rs|
    requires cur == tour[|tour| - 1] && Consistent(visited, tour) && NoDup(tour) && InRange(tour, |visited|)
    requires PoolRule(mat, m, tour)
    ensures |Tour(mat, m, sort, rs, visited, cur, tour)| == |visited|
    ensures Tour(mat, m, sort, rs, visited, cur, tour)[0] == tour[0]
    ensures NoDup(Tour(mat, m, sort, rs, visited, cur, tour)) && InRange(Tour(mat, m, sort, rs, visited, cur, tour), |visited|)
    ensures forall c :: 0 <= c < |visited| ==> c in Tour(mat, m, sort, rs, visited, cur, tour)
    ensures PoolRule(mat, m, Tour(mat, m, sort, rs, visited, cur, tour))
    decreases |visited| - |tour|
  {
    if |tour| == |visited| {
      MarkedAll(visited, |visited|);
    } else {
      var next := Advance(mat, m, sort, rs, visited, cur, tour);
      var marks := visited[next := true];
      var longer := tour + [next];
      TourSpec(mat, m, sort, rs, marks, next, longer);
    }
  }

  /** One move of the tour keeps every fact `TourSpec` needs. */
  lemma Advance(mat: seq<seq<real>>, m: nat, sort: seq<Leg> -> seq<Leg>, rs: seq<nat>, visited: seq<bool>, cur: nat,
                tour: seq<nat>)
    returns (next: nat)
    requires m >= 1 && CostSorter(sort) && IsSquare(mat, |visited|) && cur < |visited|
    requires 1 <= |tour| < |visited| && Marked(visited, |visited|) == |tour| && |visited| - 1 <= |rs|
    requires cur == tour[|tour| - 1] && Consistent(visited, tour) && NoDup(tour) && InRange(tour, |visited|)
    requires PoolRule(mat, m, tour)
    ensures next < |visited| && !visited[next] && Marked(visited[next := true], |visited|) == |tour| + 1
    ensures Consistent(visited[next := true], tour + [next]) && NoDup(tour + [next])
    ensures InRange(tour + [next], |visited|) && (tour + [next])[0] == tour[0]
    ensures PoolRule(mat, m, tour + [next])
    ensures Tour(mat, m, sort, rs, visited, cur, tour) == Tour(mat, m, sort, rs, visited[next := true], next, tour + [next])
  {
    PoolNonEmpty(sort, mat, visited, cur);
    var pool := Pool(sort, mat, visited, cur);
    var r := rs[|tour| - 1];
    var k := Choice(r, m, Min(m, |pool|));
    next := pool[k].city;
    TourStep(mat, m, sort, rs, visited, cur, tour, pool, r, next);
    PoolRuleStep(sort, mat, m, visited, cur, tour, k);
    Extend(mat, m, visited, cur, tour, next);
  }

  /**
   * The guarantees of `resoudreTourneeRandomisee`: for any draws and whatever order
   * the sort gives to candidates of equal cost, the tour lists every city exactly
   * once, starts at city 0, and obeys the pool rule.
   */
  lemma TourGuarantees(mat: seq<seq<real>>, m: nat, sort: seq<Leg> -> seq<Leg>, rs: seq<nat>)
    requires m >= 1 && CostSorter(sort) && |mat| >= 1 && IsSquare(mat, |mat|) && |mat| - 1 <= |rs|
    ensures Marked(Start(|mat|), |mat|) == 1
    ensures var t := Tour(mat, m, sort, rs, Start(|mat|), 0, [0]);
            |t| == |mat| && t[0] == 0 && NoDup(t) && InRange(t, |mat|)
            && (forall c :: 0 <= c < |mat| ==> c in t)
            && PoolRule(mat, m, t)
  {
    MarkedStart(|mat|, |mat|);
    TourSpec(mat, m, sort, rs, Start(|mat|), 0, [0]);
  }

  /** The same guarantees for the tour the program builds with its insertion sort. */
  lemma InsertionTourGuarantees(mat: seq<seq<real>>, m: nat, rs: seq<nat>)
    requires m >= 1 && |mat| >= 1 && IsSquare(mat, |mat|) && |mat| - 1 <= |rs|
    ensures Marked(Start(|mat|), |mat|) == 1
    ensures var t := InsertionTour(mat, m, rs, Start(|mat|), 0, [0]);
            |t| == |mat| && t[0] == 0 && NoDup(t) && InRange(t, |mat|)
            && (forall c :: 0 <= c < |mat| ==> c in t)
            && PoolRule(mat, m, t)
  {
    MarkedStart(|mat|, |mat|);
    InsertionTourIsTour(mat, m, rs, Start(|mat|), 0, [0]);
    TourGuarantees(mat, m, SortByCost, rs);
  }

  /** With `M = 1` the tour is plain nearest neighbour: no unvisited city was strictly cheaper. */
  lemma NearestNeighbour(mat: seq<seq<real>>, t: seq<nat>, k: nat, v: nat)
    requires IsSquare(mat, |mat|) && InRange(t, |mat|) && PoolRule(mat, 1, t)
    requires 1 <= k < |t| && v < |mat| && v !in t[..k]
    ensures mat[t[k - 1]][t[k]] <= mat[t[k - 1]][v]
  {
    if mat[t[k - 1]][v] < mat[t[k - 1]][t[k]] {
      CheaperCounts(mat[t[k - 1]], t[..k], |mat|, mat[t[k - 1]][t[k]], v);
    }
  }

  lemma {:induction false} CheaperCounts(row: seq<real>, prefix: seq<nat>, hi: nat, x: real, v: nat)
    requires hi <= |row| && v < hi && v !in prefix && row[v] < x
    ensures Cheaper(row, prefix, hi, x) >= 1
  {
    if v < hi - 1 {
      CheaperCounts(row, prefix, hi - 1, x, v);
    }
  }
}
