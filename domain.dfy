/**
 * The entities the two greedy solvers work on: products (`Produit`), cities
 * (`Ville`), the energy matrix, and the dataset that `GestionDonnees` fills.
 * Numbers that the program keeps in `double` are `real` here.
 */
module Domain {

  /** A product: `ratio` is the derived value-per-weight that the selector sorts on. */
  datatype Item = Item(id: int, weight: real, value: real, ratio: real)

  /** A city: its id is its position in the city file. */
  datatype City = City(id: int, name: string)

  /** What one successful load of the two data files yields. */
  datatype Dataset = Dataset(capacity: real, items: seq<Item>, cities: seq<City>, matrix: seq<seq<real>>)

  datatype Option<T> = None | Some(value: T)

  function Min(a: int, b: int): int
  {
    if a <= b then a else b
  }

  /**
   * The index `dist(gen) % size` into a candidate list of `size` entries, where the
   * distribution over 0 .. bound-1 returns `r % bound` for the raw draw `r`.
   */
  function Choice(r: nat, bound: nat, size: nat): (k: nat)
    requires bound >= 1 && size >= 1
    ensures k < size && k < bound
  {
    (r % bound) % size
  }

  /** A product the loader accepts: positive weight and value, ratio computed as value / weight. */
  predicate ValidItem(p: Item)
  {
    p.weight > 0.0 && p.value > 0.0 && p.ratio == p.value / p.weight
  }

  /** The header and row rules of the product file: at least one product, positive capacity. */
  predicate ValidProducts(capacity: real, items: seq<Item>)
  {
    |items| > 0 && capacity > 0.0 && forall k :: 0 <= k < |items| ==> ValidItem(items[k])
  }

  predicate IsSquare(mat: seq<seq<real>>, n: nat)
  {
    |mat| == n && forall i :: 0 <= i < n ==> |mat[i]| == n
  }

  predicate NonNegative(mat: seq<seq<real>>)
  {
    forall i, j :: 0 <= i < |mat| && 0 <= j < |mat[i]| ==> mat[i][j] >= 0.0
  }

  /** The rules of the city file: at least one city, ids by read order, an n-by-n matrix of entries >= 0. */
  predicate ValidCities(cities: seq<City>, mat: seq<seq<real>>)
  {
    |cities| > 0
    && (forall i :: 0 <= i < |cities| ==> cities[i].id == i)
    && IsSquare(mat, |cities|)
    && NonNegative(mat)
  }

  /** A dataset for which both loaders return true. */
  predicate ValidDataset(d: Dataset)
  {
    ValidProducts(d.capacity, d.items) && ValidCities(d.cities, d.matrix)
  }

  /** Sum of the weights, accumulated left to right as the selector does. */
  function TotalWeight(s: seq<Item>): real
  {
    if s == [] then 0.0 else TotalWeight(s[..|s| - 1]) + s[|s| - 1].weight
  }

  /** Sum of the values: the benefit of a selection. */
  function TotalValue(s: seq<Item>): real
  {
    if s == [] then 0.0 else TotalValue(s[..|s| - 1]) + s[|s| - 1].value
  }

  lemma {:induction false} TotalWeightCons(p: Item, s: seq<Item>)
    ensures TotalWeight([p] + s) == p.weight + TotalWeight(s)
  {
    if s != [] {
      assert ([p] + s)[..|[p] + s| - 1] == [p] + s[..|s| - 1];
      TotalWeightCons(p, s[..|s| - 1]);
    }
  }

  /** A non-empty selection of products with positive values has a positive benefit. */
  lemma {:induction false} TotalValuePositive(s: seq<Item>)
    requires s != []
    requires forall k :: 0 <= k < |s| ==> s[k].value > 0.0
    ensures TotalValue(s) > 0.0
  {
    if |s| > 1 {
      TotalValuePositive(s[..|s| - 1]);
    }
  }
}
