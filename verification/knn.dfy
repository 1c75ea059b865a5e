/** The neighbourhood baselines UserKNN and ItemKNN. A similarity matrix
    (userCorrs or itemCorrs, built by a similarity measure that is not part
    of this model) is given as a matrix `corrs` holding both halves of the
    symmetric matrix; row x lists x's stored similarities in index order,
    each entry naming a neighbour (col) and its similarity (val). `train`
    is the user x item training matrix. The neighbour map is a HashMap
    whose iteration order is unknown; the model keeps a list, and since
    only sums are taken over it the order does not matter
    (Sums.SumOfPermutation). globalMean is a number: with no training cell
    there is no neighbour, and the fallback is the only value returned. */
module KNN {
  import opened Sums
  import opened SparseMatrices
  import opened Sorting
  import Recommender

  /** The entries of a similarity row that become neighbours: the target
      is rated by them (rate > 0), and in rating mode only a positive
      similarity counts; in ranking mode any similarity does. */
  function Qualified(row: Matrix, rate: nat -> real, ranking: bool): (ns: Matrix)
    ensures forall e :: e in ns <==> e in row && rate(e.col) > 0.0 && (ranking || e.val > 0.0)
    ensures |ns| <= |row|
  {
    if |row| == 0 then []
    else
      var rest := Qualified(row[1..], rate, ranking);
      var e := row[0];
      if rate(e.col) > 0.0 && (ranking || e.val > 0.0) then [e] + rest else rest
  }

  /** train.get(v, j) as v varies: every user's rating of item j. */
  function RatingsOfItem(train: Matrix, j: nat): nat -> real {
    (v: nat) => Get(train, v, j)
  }

  /** train.get(u, i) as i varies: user u's rating of every item. */
  function RatingsByUser(train: Matrix, u: nat): nat -> real {
    (i: nat) => Get(train, u, i)
  }

  /** userMeans, filled in initModel: the mean of the user's row, or
      globalMean for a user without ratings. */
  function UserMean(train: Matrix, globalMean: real, v: nat): real {
    MeanOrElse(RowOf(train, v), globalMean)
  }

  /** itemMeans: the mean of the item's column, or globalMean. */
  function ItemMean(train: Matrix, globalMean: real, i: nat): real {
    MeanOrElse(ColOf(train, i), globalMean)
  }

  /** `ws > 0 ? base + sum / ws : globalMean` with sum = Σ sim · deviation
      and ws = Σ |sim|. */
  function Deviate(base: real, ps: seq<(real, real)>, globalMean: real): real {
    if TotalAbsWeight(ps) > 0.0 then base + WeightedSum(ps) / TotalAbsWeight(ps) else globalMean
  }

  /** With positive similarities the formula is the base shifted by a
      weighted mean of the deviations, so it stays within the base plus
      their range. */
  lemma DeviateBounds(base: real, ps: seq<(real, real)>, globalMean: real, lo: real, hi: real)
    requires |ps| > 0
    requires forall k :: 0 <= k < |ps| ==> ps[k].0 > 0.0 && lo <= ps[k].1 <= hi
    ensures base + lo <= Deviate(base, ps, globalMean) <= base + hi
  {
    PositiveWeights(ps);
    WeightedMeanBounds(ps, lo, hi);
  }

  /** The neighbours kept from row x of the similarities: each is a stored
      similarity of x whose target is rated, with positive similarity in
      rating mode; the cut keeps knn of them when knn is positive and below
      their number, and none left out is more similar than one kept. */
  lemma KeptMeaning(corrs: Matrix, x: nat, rate: nat -> real, knn: int, ranking: bool)
    ensures var ns := TopK(Qualified(RowOf(corrs, x), rate, ranking), knn, Val);
      forall e :: e in ns ==> e in corrs && e.row == x && rate(e.col) > 0.0 && (ranking || e.val > 0.0)
  {
    var q := Qualified(RowOf(corrs, x), rate, ranking);
    var ns := TopK(q, knn, Val);
    forall e | e in ns
      ensures e in corrs && e.row == x && rate(e.col) > 0.0 && (ranking || e.val > 0.0)
    {
      assert e in multiset(ns);
      assert e in q;
    }
  }

  // ---------------------------------------------------------------------
  // UserKNN

  /** The users kept as neighbours of u for item j: the qualifying entries
      of u's similarity row, cut to the knn most similar when knn is
      positive and smaller than their number. */
  function UserNeighbours(corrs: Matrix, train: Matrix, u: nat, j: nat, knn: int, ranking: bool): (ns: Matrix)
  {
    TopK(Qualified(RowOf(corrs, u), RatingsOfItem(train, j), ranking), knn, Val)
  }

  /** (sim, rate − mean(v)) for every kept neighbour v. */
  function UserDeviations(ns: Matrix, train: Matrix, globalMean: real, j: nat): (ps: seq<(real, real)>)
  {
    seq(|ns|, k requires 0 <= k < |ns| => (ns[k].val, Get(train, ns[k].col, j) - UserMean(train, globalMean, ns[k].col)))
  }

  /** UserKNN.predict(u, j): globalMean without neighbours, otherwise u's
      mean plus the similarity-weighted mean deviation of the neighbours'
      ratings from their own means. */
  function UserKNN(train: Matrix, globalMean: real, corrs: Matrix, u: nat, j: nat, knn: int, ranking: bool): (r: real)
  {
    var ns := UserNeighbours(corrs, train, u, j, knn, ranking);
    if |ns| == 0 then globalMean
    else Deviate(UserMean(train, globalMean, u), UserDeviations(ns, train, globalMean, j), globalMean)
  }

  /** UserKNN.predict(u, j, c): u and j are first replaced by their split
      ids when the splitting tables hold (u, c) and (j, c). */
  function UserKNNInContext(train: Matrix, globalMean: real, corrs: Matrix, u: nat, j: nat, c: nat,
                            um: Recommender.IdMapper, im: Recommender.IdMapper, knn: int, ranking: bool): (r: real)
    ensures (um.None? || (u, c) !in um.value) && (im.None? || (j, c) !in im.value) ==>
      r == UserKNN(train, globalMean, corrs, u, j, knn, ranking)
    ensures um.Some? && (u, c) in um.value && (im.None? || (j, c) !in im.value) ==>
      r == UserKNN(train, globalMean, corrs, um.value[(u, c)], j, knn, ranking)
  {
    UserKNN(train, globalMean, corrs, Recommender.Remap(u, c, um), Recommender.Remap(j, c, im), knn, ranking)
  }

  /** Every kept neighbour is a stored similarity of u with a user who
      rated j, with positive similarity in rating mode; at most knn are
      kept when knn is positive, and each kept one is at least as similar
      as each qualifying user left out. */
  lemma UserNeighboursMeaning(corrs: Matrix, train: Matrix, u: nat, j: nat, knn: int, ranking: bool)
    ensures var ns := UserNeighbours(corrs, train, u, j, knn, ranking);
      forall e :: e in ns ==> e in corrs && e.row == u && Get(train, e.col, j) > 0.0 && (ranking || e.val > 0.0)
    ensures var q := Qualified(RowOf(corrs, u), RatingsOfItem(train, j), ranking);
      |UserNeighbours(corrs, train, u, j, knn, ranking)| == if 0 < knn < |q| then knn else |q|
    ensures var q := Qualified(RowOf(corrs, u), RatingsOfItem(train, j), ranking);
      var ns := UserNeighbours(corrs, train, u, j, knn, ranking);
      forall e, f :: e in multiset(ns) && f in multiset(q) - multiset(ns) ==> e.val >= f.val
  {
    var q := Qualified(RowOf(corrs, u), RatingsOfItem(train, j), ranking);
    var ns := UserNeighbours(corrs, train, u, j, knn, ranking);
    assert ns == TopK(q, knn, Val);
    assert forall e :: e in ns ==> e in corrs && e.row == u && Get(train, e.col, j) > 0.0 && (ranking || e.val > 0.0) by {
      KeptMeaning(corrs, u, RatingsOfItem(train, j), knn, ranking);
      forall e | e in ns
        ensures Get(train, e.col, j) > 0.0
      {
        assert RatingsOfItem(train, j)(e.col) == Get(train, e.col, j);
      }
    }
  }

  /** No qualifying neighbour gives globalMean. */
  lemma UserKNNNoNeighbours(train: Matrix, globalMean: real, corrs: Matrix, u: nat, j: nat, knn: int, ranking: bool)
    requires forall e :: e in corrs && e.row == u ==> !(Get(train, e.col, j) > 0.0 && (ranking || e.val > 0.0))
    ensures UserKNN(train, globalMean, corrs, u, j, knn, ranking) == globalMean
  {
  }

  /** In rating mode, with at least one neighbour, the prediction is u's
      mean shifted by a weighted mean of the neighbours' deviations, so it
      lies between u's mean plus the smallest and plus the largest of them. */
  lemma UserKNNBounds(train: Matrix, globalMean: real, corrs: Matrix, u: nat, j: nat, knn: int, lo: real, hi: real)
    requires |UserNeighbours(corrs, train, u, j, knn, false)| > 0
    requires forall e :: e in UserNeighbours(corrs, train, u, j, knn, false) ==>
      lo <= Get(train, e.col, j) - UserMean(train, globalMean, e.col) <= hi
    ensures var base := UserMean(train, globalMean, u);
      base + lo <= UserKNN(train, globalMean, corrs, u, j, knn, false) <= base + hi
  {
    var ns := UserNeighbours(corrs, train, u, j, knn, false);
    var ps := UserDeviations(ns, train, globalMean, j);
    UserNeighboursMeaning(corrs, train, u, j, knn, false);
    forall k | 0 <= k < |ps|
      ensures ps[k].0 > 0.0 && lo <= ps[k].1 <= hi
    {
      assert ns[k] in ns;
    }
    DeviateBounds(UserMean(train, globalMean, u), ps, globalMean, lo, hi);
  }

  // ---------------------------------------------------------------------
  // ItemKNN

  /** The items kept as neighbours of j for user u: the qualifying entries
      of j's similarity row, cut to the knn most similar. */
  function ItemNeighbours(corrs: Matrix, train: Matrix, u: nat, j: nat, knn: int, ranking: bool): (ns: Matrix)
  {
    TopK(Qualified(RowOf(corrs, j), RatingsByUser(train, u), ranking), knn, Val)
  }

  /** (sim, rate − mean(i)) for every kept neighbour i. */
  function ItemDeviations(ns: Matrix, train: Matrix, globalMean: real, u: nat): (ps: seq<(real, real)>)
  {
    seq(|ns|, k requires 0 <= k < |ns| => (ns[k].val, Get(train, u, ns[k].col) - ItemMean(train, globalMean, ns[k].col)))
  }

  /** ItemKNN.predict(u, j): without neighbours 0 in ranking mode and
      globalMean in rating mode; in ranking mode the sum of the neighbours'
      similarities; in rating mode j's mean plus the similarity-weighted
      mean deviation of u's ratings of the neighbours from their means. */
  function ItemKNN(train: Matrix, globalMean: real, corrs: Matrix, u: nat, j: nat, knn: int, ranking: bool): (r: real)
  {
    var ns := ItemNeighbours(corrs, train, u, j, knn, ranking);
    if |ns| == 0 then (if ranking then 0.0 else globalMean)
    else if ranking then Total(ns)
    else Deviate(ItemMean(train, globalMean, j), ItemDeviations(ns, train, globalMean, u), globalMean)
  }

  /** ItemKNN.predict(u, j, c): the same split-id remapping first. */
  function ItemKNNInContext(train: Matrix, globalMean: real, corrs: Matrix, u: nat, j: nat, c: nat,
                            um: Recommender.IdMapper, im: Recommender.IdMapper, knn: int, ranking: bool): (r: real)
    ensures (um.None? || (u, c) !in um.value) && (im.None? || (j, c) !in im.value) ==>
      r == ItemKNN(train, globalMean, corrs, u, j, knn, ranking)
    ensures im.Some? && (j, c) in im.value && (um.None? || (u, c) !in um.value) ==>
      r == ItemKNN(train, globalMean, corrs, u, im.value[(j, c)], knn, ranking)
  {
    ItemKNN(train, globalMean, corrs, Recommender.Remap(u, c, um), Recommender.Remap(j, c, im), knn, ranking)
  }

  /** Every kept neighbour is a stored similarity of j with an item u
      rated, with positive similarity in rating mode; at most knn are kept
      and each kept one is at least as similar as each one left out. */
  lemma ItemNeighboursMeaning(corrs: Matrix, train: Matrix, u: nat, j: nat, knn: int, ranking: bool)
    ensures var ns := ItemNeighbours(corrs, train, u, j, knn, ranking);
      forall e :: e in ns ==> e in corrs && e.row == j && Get(train, u, e.col) > 0.0 && (ranking || e.val > 0.0)
    ensures var q := Qualified(RowOf(corrs, j), RatingsByUser(train, u), ranking);
      |ItemNeighbours(corrs, train, u, j, knn, ranking)| == if 0 < knn < |q| then knn else |q|
    ensures var q := Qualified(RowOf(corrs, j), RatingsByUser(train, u), ranking);
      var ns := ItemNeighbours(corrs, train, u, j, knn, ranking);
      forall e, f :: e in multiset(ns) && f in multiset(q) - multiset(ns) ==> e.val >= f.val
  {
    var q := Qualified(RowOf(corrs, j), RatingsByUser(train, u), ranking);
    var ns := ItemNeighbours(corrs, train, u, j, knn, ranking);
    assert ns == TopK(q, knn, Val);
    assert forall e :: e in ns ==> e in corrs && e.row == j && Get(train, u, e.col) > 0.0 && (ranking || e.val > 0.0) by {
      KeptMeaning(corrs, j, RatingsByUser(train, u), knn, ranking);
      forall e | e in ns
        ensures Get(train, u, e.col) > 0.0
      {
        assert RatingsByUser(train, u)(e.col) == Get(train, u, e.col);
      }
    }
  }

  /** No qualifying neighbour gives 0 in ranking mode and globalMean in
      rating mode. */
  lemma ItemKNNNoNeighbours(train: Matrix, globalMean: real, corrs: Matrix, u: nat, j: nat, knn: int, ranking: bool)
    requires forall e :: e in corrs && e.row == j ==> !(Get(train, u, e.col) > 0.0 && (ranking || e.val > 0.0))
    ensures ItemKNN(train, globalMean, corrs, u, j, knn, ranking) == if ranking then 0.0 else globalMean
  {
  }

  /** In ranking mode the score is the sum of the kept similarities; when
      no cut applies (knn not positive, or not below the number of
      qualifying items) it is the sum over every item u rated in j's row,
      whatever the ratings' values. */
  lemma ItemKNNRankingScore(train: Matrix, globalMean: real, corrs: Matrix, u: nat, j: nat, knn: int)
    ensures ItemKNN(train, globalMean, corrs, u, j, knn, true) == Total(ItemNeighbours(corrs, train, u, j, knn, true))
    ensures var q := Qualified(RowOf(corrs, j), RatingsByUser(train, u), true);
      !(0 < knn < |q|) ==> ItemKNN(train, globalMean, corrs, u, j, knn, true) == Total(q)
  {
    var ns := ItemNeighbours(corrs, train, u, j, knn, true);
    if |ns| == 0 {
      assert Total(ns) == 0.0;
    }
  }

  /** In rating mode, with at least one neighbour, the prediction lies
      between j's mean plus the smallest and plus the largest deviation of
      u's ratings of the neighbours from their means. */
  lemma ItemKNNBounds(train: Matrix, globalMean: real, corrs: Matrix, u: nat, j: nat, knn: int, lo: real, hi: real)
    requires |ItemNeighbours(corrs, train, u, j, knn, false)| > 0
    requires forall e :: e in ItemNeighbours(corrs, train, u, j, knn, false) ==>
      lo <= Get(train, u, e.col) - ItemMean(train, globalMean, e.col) <= hi
    ensures var base := ItemMean(train, globalMean, j);
      base + lo <= ItemKNN(train, globalMean, corrs, u, j, knn, false) <= base + hi
  {
    var ns := ItemNeighbours(corrs, train, u, j, knn, false);
    var ps := ItemDeviations(ns, train, globalMean, u);
    ItemNeighboursMeaning(corrs, train, u, j, knn, false);
    forall k | 0 <= k < |ps|
      ensures ps[k].0 > 0.0 && lo <= ps[k].1 <= hi
    {
      assert ns[k] in ns;
    }
    DeviateBounds(ItemMean(train, globalMean, j), ps, globalMean, lo, hi);
  }
}
