/** The six average baselines. GlobalAverage, UserAverage, ItemAverage and
    UserItemAverage read the plain user x item training matrix `train`
    (the contextual matrix collapsed by toTraditionalSparseMatrix);
    UserContextAverage and ContextAverage are context-aware and read the
    contextual matrix directly. globalMean is the mean of the contextual
    training matrix, computed once when the recommender is built. */
module Averages {
  import opened Wrappers
  import opened Text
  import opened Doubles
  import opened Sums
  import opened SparseMatrices
  import opened DataDAO
  import DataViews

  /** `sv.getCount() > 0 ? sv.mean() : fallback` for a row or column. */
  function MeanOr(cells: Matrix, fallback: Double): (r: Double)
    ensures |cells| == 0 ==> r == fallback
    ensures |cells| > 0 ==> r.Num?
  {
    if |cells| > 0 then Num(MeanOrElse(cells, 0.0)) else fallback
  }

  /** The mean of the non-empty cells of a row or column lies within the
      range of their values. */
  lemma MeanOrBounds(cells: Matrix, fallback: Double, lo: real, hi: real)
    requires |cells| > 0
    requires forall e :: e in cells ==> lo <= e.val <= hi
    ensures MeanOr(cells, fallback).Num?
    ensures lo <= MeanOr(cells, fallback).v <= hi
  {
    MeanOfCellsBounds(cells, lo, hi);
  }

  // ---------------------------------------------------------------------
  // GlobalAverage

  /** GlobalAverage.predict(u, j, c): delegates to predict(u, j), which
      returns globalMean whatever the user, item and situation. */
  function GlobalAverage(trainCtx: Matrix, u: nat, j: nat, c: nat): (r: Double)
  {
    GlobalAvg(trainCtx)
  }

  /** The prediction is the same for every user, item and situation, and on
      a non-empty training matrix it is the mean of all its ratings, within
      their range. */
  lemma GlobalAverageMeaning(trainCtx: Matrix, u: nat, j: nat, c: nat, u2: nat, j2: nat, c2: nat, lo: real, hi: real)
    requires |trainCtx| > 0
    requires forall e :: e in trainCtx ==> lo <= e.val <= hi
    ensures GlobalAverage(trainCtx, u, j, c) == GlobalAverage(trainCtx, u2, j2, c2)
    ensures GlobalAverage(trainCtx, u, j, c) == Num(Total(trainCtx) / |trainCtx| as real)
    ensures lo <= GlobalAverage(trainCtx, u, j, c).v <= hi
  {
    MeanOfCellsBounds(trainCtx, lo, hi);
  }

  // ---------------------------------------------------------------------
  // UserAverage, ItemAverage

  /** UserAverage.predict(u, j): the mean of the user's row, or globalMean
      for a user without ratings; the item (and the situation, which
      predict(u, j, c) drops) plays no part. */
  function UserAverage(train: Matrix, globalMean: Double, u: nat, j: nat): (r: Double)
  {
    MeanOr(RowOf(train, u), globalMean)
  }

  /** ItemAverage.predict(u, j): the mean of the item's column, or
      globalMean for an unrated item. */
  function ItemAverage(train: Matrix, globalMean: Double, u: nat, j: nat): (r: Double)
  {
    MeanOr(ColOf(train, j), globalMean)
  }

  /** A user without ratings gets globalMean; a user with ratings gets a
      number within the range of those ratings, never a division by zero;
      the item does not matter. */
  lemma UserAverageMeaning(train: Matrix, globalMean: Double, u: nat, j: nat, j2: nat, lo: real, hi: real)
    requires forall e :: e in train && e.row == u ==> lo <= e.val <= hi
    ensures UserAverage(train, globalMean, u, j) == UserAverage(train, globalMean, u, j2)
    ensures (forall e :: e in train ==> e.row != u) ==> UserAverage(train, globalMean, u, j) == globalMean
    ensures (exists e :: e in train && e.row == u) ==>
      var r := UserAverage(train, globalMean, u, j);
      r.Num? && lo <= r.v <= hi
  {
    var cells := RowOf(train, u);
    if exists e :: e in train && e.row == u {
      var e :| e in train && e.row == u;
      assert e in cells;
      MeanOrBounds(cells, globalMean, lo, hi);
    }
  }

  /** An unrated item gets globalMean; a rated one a number within the
      range of its ratings; the user does not matter. */
  lemma ItemAverageMeaning(train: Matrix, globalMean: Double, u: nat, u2: nat, j: nat, lo: real, hi: real)
    requires forall e :: e in train && e.col == j ==> lo <= e.val <= hi
    ensures ItemAverage(train, globalMean, u, j) == ItemAverage(train, globalMean, u2, j)
    ensures (forall e :: e in train ==> e.col != j) ==> ItemAverage(train, globalMean, u, j) == globalMean
    ensures (exists e :: e in train && e.col == j) ==>
      var r := ItemAverage(train, globalMean, u, j);
      r.Num? && lo <= r.v <= hi
  {
    var cells := ColOf(train, j);
    if exists e :: e in train && e.col == j {
      var e :| e in train && e.col == j;
      assert e in cells;
      MeanOrBounds(cells, globalMean, lo, hi);
    }
  }

  // ---------------------------------------------------------------------
  // UserItemAverage

  /** UserItemAverage.predict(u, j): the stored cell when it is positive,
      globalMean otherwise (a missing cell reads as 0). */
  function UserItemAverage(train: Matrix, globalMean: Double, u: nat, j: nat): (r: Double)
  {
    var rate := Get(train, u, j);
    if rate > 0.0 then Num(rate) else globalMean
  }

  /** On the matrix that toTraditionalSparseMatrix builds from positive
      ratings, a pair that was rated is predicted by the mean of its
      ratings across situations, which lies within their range. */
  lemma UserItemAverageOfPair(x: PairIndex, m: Matrix, globalMean: Double, p: nat, lo: real, hi: real)
    requires DataViews.PairsInjective(x, m)
    requires DataViews.RowsRegistered(x, m)
    requires p in Rows(m)
    requires 0.0 < lo
    requires forall e :: e in m ==> lo <= e.val <= hi
    ensures UserItemAverage(DataViews.ToTraditional(x, m).value, globalMean, x.uiUser[p], x.uiItem[p]) == Num(Average(m, [p]))
    ensures lo <= Average(m, [p]) <= hi
  {
    DataViews.ToTraditionalCells(x, m);
    var k :| 0 <= k < |m| && m[k].row == p;
    assert m[k] in RowOf(m, p);
    assert ListedCells(m, [p]) == RowOf(m, p) + ListedCells(m, []);
    AverageBounds(m, [p], lo, hi);
  }

  /** A (user, item) that no rated pair stands for is predicted by
      globalMean. */
  lemma UserItemAverageOfUnrated(x: PairIndex, m: Matrix, globalMean: Double, u: nat, i: nat)
    requires DataViews.PairsInjective(x, m)
    requires DataViews.RowsRegistered(x, m)
    requires forall p :: p in Rows(m) ==> DataViews.PairOf(x, p) != (u, i)
    ensures UserItemAverage(DataViews.ToTraditional(x, m).value, globalMean, u, i) == globalMean
  {
    DataViews.ToTraditionalCells(x, m);
  }

  // ---------------------------------------------------------------------
  // UserContextAverage, ContextAverage

  /** UserContextAverage.predict(u, j, c): getUserContextAvg(trainMatrix,
      u, c) when it is positive, globalMean otherwise; the item plays no
      part. An error of getUserContextAvg propagates. */
  function UserContextAverage(st: Store, trainCtx: Matrix, globalMean: Double, u: nat, j: nat, c: nat): (r: Result<Double>)
    requires StoreValid(st)
    ensures r.Ok? <==> DataViews.UserContextAvg(st, trainCtx, u, c).Ok?
  {
    var rate :- DataViews.UserContextAvg(st, trainCtx, u, c);
    Ok(if rate > 0.0 then Num(rate) else globalMean)
  }

  /** ContextAverage.predict(u, j, c): getContextAvg(trainMatrix, c), for
      every user and item. */
  function ContextAverage(st: Store, trainCtx: Matrix, u: nat, j: nat, c: nat): (r: Result<Double>)
    requires StoreValid(st)
    ensures r.Ok? <==> DataViews.ContextAvg(st, trainCtx, c).Ok?
    ensures r.Ok? ==> r.value.Num?
  {
    var rate :- DataViews.ContextAvg(st, trainCtx, c);
    Ok(Num(rate))
  }

  /** No condition with cells means no per-condition mean. */
  lemma {:induction false} ConditionMeansOfUnrated(cells: Matrix, sit: SituationIndex, ids: seq<int>)
    requires forall k :: 0 <= k < |ids| ==> DataViews.CondCells(cells, sit, ids[k]) == []
    ensures DataViews.ConditionMeans(cells, sit, ids) == []
  {
    if |ids| > 0 {
      ConditionMeansOfUnrated(cells, sit, ids[..|ids| - 1]);
    }
  }

  /** The user-context prediction is globalMean or lies within the range
      of the ratings (a positive scale), and it is globalMean for a user
      with no training rating in a stored situation; the item does not
      matter. */
  lemma UserContextAverageMeaning(st: Store, trainCtx: Matrix, globalMean: Double, u: nat, j: nat, j2: nat, c: nat, lo: real, hi: real)
    requires StoreValid(st)
    requires 0.0 < lo
    requires forall e :: e in trainCtx ==> lo <= e.val <= hi
    ensures UserContextAverage(st, trainCtx, globalMean, u, j, c) == UserContextAverage(st, trainCtx, globalMean, u, j2, c)
    ensures var r := UserContextAverage(st, trainCtx, globalMean, u, j, c);
      r.Ok? ==> r.value == globalMean || (r.value.Num? && lo <= r.value.v <= hi)
    ensures c < |st.sit.ctxs.keys| && RowsIn(trainCtx, DataViews.UserPairs(st.ui, u)) == [] ==>
      UserContextAverage(st, trainCtx, globalMean, u, j, c) == Ok(globalMean)
  {
    var cells := RowsIn(trainCtx, DataViews.UserPairs(st.ui, u));
    var r := DataViews.UserContextAvg(st, trainCtx, u, c);
    if r.Ok? {
      DataViews.ContextAverageBounds(cells, st.sit, c, false, lo, hi);
    }
    if c < |st.sit.ctxs.keys| && cells == [] {
      match ParseIds(st.sit.ctxs.keys[c])
      case None =>
      case Some(ids) =>
        ConditionMeansOfUnrated(cells, st.sit, ids);
    }
  }

  /** The context prediction is the same for every user and item; it is 0
      (not globalMean) when no condition of the situation has a training
      rating, and otherwise 0 or within the range of the ratings. */
  lemma ContextAverageMeaning(st: Store, trainCtx: Matrix, u: nat, j: nat, u2: nat, j2: nat, c: nat, lo: real, hi: real)
    requires StoreValid(st)
    requires forall e :: e in trainCtx ==> lo <= e.val <= hi
    ensures ContextAverage(st, trainCtx, u, j, c) == ContextAverage(st, trainCtx, u2, j2, c)
    ensures var r := ContextAverage(st, trainCtx, u, j, c);
      r.Ok? ==> r.value == Num(0.0) || lo <= r.value.v <= hi
    ensures (c < |st.sit.ctxs.keys| && ParseIds(st.sit.ctxs.keys[c]).Some? &&
             forall k :: 0 <= k < |ParseIds(st.sit.ctxs.keys[c]).value| ==>
               DataViews.CondCells(trainCtx, st.sit, ParseIds(st.sit.ctxs.keys[c]).value[k]) == []) ==>
      ContextAverage(st, trainCtx, u, j, c) == Ok(Num(0.0))
  {
    if ContextAverage(st, trainCtx, u, j, c).Ok? {
      DataViews.ContextAverageBounds(trainCtx, st.sit, c, true, lo, hi);
    }
    if c < |st.sit.ctxs.keys| && ParseIds(st.sit.ctxs.keys[c]).Some? {
      var ids := ParseIds(st.sit.ctxs.keys[c]).value;
      if forall k :: 0 <= k < |ids| ==> DataViews.CondCells(trainCtx, st.sit, ids[k]) == [] {
        ConditionMeansOfUnrated(trainCtx, st.sit, ids);
      }
    }
  }
}
