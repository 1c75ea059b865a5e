/** The SlopeOne baseline on the user x item training matrix `train`.
    buildModel fills two item x item tables, dev (the mean rating
    difference) and card (how many users the mean is over), from the users
    0 .. numUsers-1; predict combines, for the other items the user rated,
    that item's rating plus its difference to the target item, weighted by
    card. The tables are given here pointwise, as functions of (i, j): the
    value buildModel leaves in each cell. */
module SlopeOne {
  import opened Sums
  import opened SparseMatrices
  import Recommender

  /** (r_ui, r_uj) for the users from `from` up to numUsers - 1 whose row
      holds both i and j, in user order: the additions buildModel makes
      to cell (i, j). */
  function CoRatings(train: Matrix, from: nat, numUsers: nat, i: nat, j: nat): (ps: seq<(real, real)>)
    decreases numUsers - from
  {
    if from >= numUsers then []
    else
      var rest := CoRatings(train, from + 1, numUsers, i, j);
      if Has(train, from, i) && Has(train, from, j) then [(Get(train, from, i), Get(train, from, j))] + rest else rest
  }

  /** The users among from .. numUsers-1 who rated both items. */
  function CoRaters(train: Matrix, from: nat, numUsers: nat, i: nat, j: nat): set<nat> {
    set u | from <= u < numUsers && Has(train, u, i) && Has(train, u, j)
  }

  function Difference(p: (real, real)): real {
    p.0 - p.1
  }

  /** cardMatrix(i, j): the number of additions to the cell, none on the
      diagonal (the loop skips i == j). */
  function Card(train: Matrix, numUsers: nat, i: nat, j: nat): nat {
    if i == j then 0 else |CoRatings(train, 0, numUsers, i, j)|
  }

  /** devMatrix(i, j) after normalisation: the summed differences divided
      by card where card is positive, and the untouched 0 elsewhere. */
  function Dev(train: Matrix, numUsers: nat, i: nat, j: nat): real {
    var card := Card(train, numUsers, i, j);
    if card > 0 then SumOf(CoRatings(train, 0, numUsers, i, j), Difference) / card as real else 0.0
  }

  /** Each user who rated both items adds exactly one term. */
  lemma {:induction false} CoRatingsCount(train: Matrix, from: nat, numUsers: nat, i: nat, j: nat)
    ensures |CoRatings(train, from, numUsers, i, j)| == |CoRaters(train, from, numUsers, i, j)|
    decreases numUsers - from
  {
    if from < numUsers {
      CoRatingsCount(train, from + 1, numUsers, i, j);
      CoRatersStep(train, from, numUsers, i, j);
    } else {
      assert CoRaters(train, from, numUsers, i, j) == {};
    }
  }

  /** The co-raters from `from` on: `from` itself if it rated both items,
      and the co-raters after it. */
  lemma CoRatersStep(train: Matrix, from: nat, numUsers: nat, i: nat, j: nat)
    requires from < numUsers
    ensures var rest := CoRaters(train, from + 1, numUsers, i, j);
      from !in rest
      && CoRaters(train, from, numUsers, i, j) == if Has(train, from, i) && Has(train, from, j) then rest + {from} else rest
  {
  }

  /** Swapping the items swaps each pair: the same number of terms and
      the opposite summed difference. */
  lemma {:induction false} CoRatingsSwap(train: Matrix, from: nat, numUsers: nat, i: nat, j: nat)
    ensures |CoRatings(train, from, numUsers, j, i)| == |CoRatings(train, from, numUsers, i, j)|
    ensures SumOf(CoRatings(train, from, numUsers, j, i), Difference) == -SumOf(CoRatings(train, from, numUsers, i, j), Difference)
    decreases numUsers - from
  {
    if from < numUsers {
      CoRatingsSwap(train, from + 1, numUsers, i, j);
    }
  }

  /** card(i, j) is the number of users who rated both items. */
  lemma CardCounts(train: Matrix, numUsers: nat, i: nat, j: nat)
    ensures Card(train, numUsers, i, j) == if i == j then 0 else |CoRaters(train, 0, numUsers, i, j)|
  {
    CoRatingsCount(train, 0, numUsers, i, j);
  }

  /** Opposite sums over as many terms give opposite means. */
  lemma OppositeMeans(ps: seq<(real, real)>, qs: seq<(real, real)>)
    requires |ps| > 0 && |qs| == |ps| && SumOf(qs, Difference) == -SumOf(ps, Difference)
    ensures SumOf(qs, Difference) / |qs| as real == -(SumOf(ps, Difference) / |ps| as real)
  {
    NegatedQuotient(SumOf(ps, Difference), SumOf(qs, Difference), |ps| as real);
  }

  lemma NegatedQuotient(a: real, b: real, n: real)
    requires n > 0.0 && b == -a
    ensures b / n == -(a / n)
  {
  }

  /** card is symmetric and dev antisymmetric. */
  lemma DevAntisymmetric(train: Matrix, numUsers: nat, i: nat, j: nat)
    ensures Card(train, numUsers, j, i) == Card(train, numUsers, i, j)
    ensures Dev(train, numUsers, j, i) == -Dev(train, numUsers, i, j)
  {
    var ps := CoRatings(train, 0, numUsers, i, j);
    var qs := CoRatings(train, 0, numUsers, j, i);
    CoRatingsSwap(train, 0, numUsers, i, j);
    if i != j && |ps| > 0 {
      OppositeMeans(ps, qs);
    }
  }

  /** card(i, j) is the number of users who rated both items (none on the
      diagonal); card is symmetric, dev antisymmetric, and dev is 0 on the
      diagonal and wherever card is 0. */
  lemma TablesMeaning(train: Matrix, numUsers: nat, i: nat, j: nat)
    ensures Card(train, numUsers, i, j) == if i == j then 0 else |CoRaters(train, 0, numUsers, i, j)|
    ensures Card(train, numUsers, j, i) == Card(train, numUsers, i, j)
    ensures Dev(train, numUsers, j, i) == -Dev(train, numUsers, i, j)
    ensures Card(train, numUsers, i, j) == 0 ==> Dev(train, numUsers, i, j) == 0.0
    ensures Dev(train, numUsers, i, i) == 0.0
  {
    CardCounts(train, numUsers, i, j);
    DevAntisymmetric(train, numUsers, i, j);
  }

  // ---------------------------------------------------------------------
  // predict

  /** train.row(u, j): the user's cells except the target item. */
  function RowExcept(train: Matrix, u: nat, j: nat): (cells: Matrix)
    ensures forall e :: e in cells <==> e in train && e.row == u && e.col != j
  {
    if |train| == 0 then []
    else
      var rest := RowExcept(train[1..], u, j);
      if train[0].row == u && train[0].col != j then [train[0]] + rest else rest
  }

  /** (card(j, i), dev(j, i) + r_ui) for each of the cells whose card is
      positive; the others are skipped. */
  function Terms(train: Matrix, numUsers: nat, cells: Matrix, j: nat): (ts: seq<(real, real)>)
    ensures forall k :: 0 <= k < |ts| ==> ts[k].0 > 0.0
  {
    if |cells| == 0 then []
    else
      var rest := Terms(train, numUsers, cells[1..], j);
      var i := cells[0].col;
      var card := Card(train, numUsers, j, i);
      if card > 0 then [(card as real, Dev(train, numUsers, j, i) + cells[0].val)] + rest else rest
  }

  /** SlopeOne.predict(u, j): the card-weighted mean of dev(j, i) + r_ui
      over the other items i the user rated whose card is positive, and
      globalMean when there is none. */
  function Predict(train: Matrix, numUsers: nat, globalMean: real, u: nat, j: nat): (r: real)
  {
    var ts := Terms(train, numUsers, RowExcept(train, u, j), j);
    if TotalWeight(ts) > 0.0 then WeightedSum(ts) / TotalWeight(ts) else globalMean
  }

  /** SlopeOne.predict(u, j, c): the split-id remapping first. */
  function PredictInContext(train: Matrix, numUsers: nat, globalMean: real, u: nat, j: nat, c: nat,
                            um: Recommender.IdMapper, im: Recommender.IdMapper): (r: real)
    ensures (um.None? || (u, c) !in um.value) && (im.None? || (j, c) !in im.value) ==>
      r == Predict(train, numUsers, globalMean, u, j)
    ensures im.Some? && (j, c) in im.value && (um.None? || (u, c) !in um.value) ==>
      r == Predict(train, numUsers, globalMean, u, im.value[(j, c)])
  {
    Predict(train, numUsers, globalMean, Recommender.Remap(u, c, um), Recommender.Remap(j, c, im))
  }

  /** There are no terms exactly when no cell has a positive card, and
      the terms' values lie in any range holding dev(j, i) + r_ui for the
      cells with a positive card. */
  lemma {:induction false} TermsMeaning(train: Matrix, numUsers: nat, cells: Matrix, j: nat, lo: real, hi: real)
    requires forall e :: e in cells && Card(train, numUsers, j, e.col) > 0 ==> lo <= Dev(train, numUsers, j, e.col) + e.val <= hi
    ensures forall k :: 0 <= k < |Terms(train, numUsers, cells, j)| ==> lo <= Terms(train, numUsers, cells, j)[k].1 <= hi
    ensures |Terms(train, numUsers, cells, j)| == 0 <==> forall e :: e in cells ==> Card(train, numUsers, j, e.col) == 0
  {
    if |cells| > 0 {
      assert forall e :: e in cells <==> e == cells[0] || e in cells[1..];
      TermsMeaning(train, numUsers, cells[1..], j, lo, hi);
    }
  }

  /** With no other rated item sharing a rater with j, the prediction is
      globalMean; otherwise it lies within the range of dev(j, i) + r_ui
      over the items that take part. */
  lemma PredictMeaning(train: Matrix, numUsers: nat, globalMean: real, u: nat, j: nat, lo: real, hi: real)
    requires forall e :: e in train && e.row == u && e.col != j && Card(train, numUsers, j, e.col) > 0 ==>
      lo <= Dev(train, numUsers, j, e.col) + e.val <= hi
    ensures (forall e :: e in train && e.row == u && e.col != j ==> Card(train, numUsers, j, e.col) == 0) ==>
      Predict(train, numUsers, globalMean, u, j) == globalMean
    ensures (exists e :: e in train && e.row == u && e.col != j && Card(train, numUsers, j, e.col) > 0) ==>
      lo <= Predict(train, numUsers, globalMean, u, j) <= hi
  {
    var cells := RowExcept(train, u, j);
    var ts := Terms(train, numUsers, cells, j);
    TermsMeaning(train, numUsers, cells, j, lo, hi);
    if |ts| == 0 {
      assert TotalWeight(ts) == 0.0;
    } else {
      PositiveWeights(ts);
      WeightedMeanBounds(ts, lo, hi);
    }
  }
}
