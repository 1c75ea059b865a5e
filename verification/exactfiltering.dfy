/** The ExactFiltering pre-filtering recommender: a user-based neighbourhood
    method that only uses ratings given in exactly the target situation.
    In rating mode it reads the contextual training matrix `trainCtx`
    directly; in ranking mode it works, one situation at a time, on the
    user x item matrix of that situation (getUIMatrix), on similarities
    and user means computed from it. The similarity matrix `corrs` holds
    both halves of the symmetric matrix (see KNN). Lists.sortMap is taken
    to return an ArrayList, whose subList(0, k) with k < 0 throws
    IllegalArgumentException. */
module ExactFiltering {
  import opened Wrappers
  import opened Text
  import opened Sums
  import opened SparseMatrices
  import opened Sorting
  import opened DataDAO
  import opened DataLookups
  import DataViews
  import KNN

  // ---------------------------------------------------------------------
  // getUIMatrix

  /** dataTable_ui.put(u, j, rate) for each listed cell. */
  function Rekey(x: PairIndex, cells: Matrix): (t: Matrix)
    ensures WellFormed(t)
    ensures Keys(t) == set e | e in cells :: DataViews.PairOf(x, e.row)
  {
    if |cells| == 0 then []
    else
      var n := |cells| - 1;
      var e := cells[n];
      assert cells == cells[..n] + [e];
      var k := DataViews.PairOf(x, e.row);
      Put(Rekey(x, cells[..n]), k.0, k.1, e.val)
  }

  /** getUIMatrix(ctx): the training cells of situation ctx, each keyed by
      the user and item of its pair; a row that is not a registered pair
      unboxes null. */
  function UIMatrix(x: PairIndex, trainCtx: Matrix, ctx: nat): (t: Result<Matrix>)
    ensures t.Ok? <==> DataViews.RowsRegistered(x, ColOf(trainCtx, ctx))
    ensures t.Ok? ==> WellFormed(t.value)
  {
    var cells := ColOf(trainCtx, ctx);
    if DataViews.RowsRegistered(x, cells) then Ok(Rekey(x, cells)) else Err(NullPointer)
  }

  /** Distinct cells of a column have distinct pairs, so no cell
      overwrites another: each keeps its value. */
  lemma {:induction false} RekeyValues(x: PairIndex, cells: Matrix)
    requires forall e, f :: e in cells && f in cells && DataViews.PairOf(x, e.row) == DataViews.PairOf(x, f.row) ==> e.val == f.val
    ensures forall e :: e in cells ==> Get(Rekey(x, cells), DataViews.PairOf(x, e.row).0, DataViews.PairOf(x, e.row).1) == e.val
  {
    if |cells| > 0 {
      var n := |cells| - 1;
      var last := cells[n];
      assert forall f :: f in cells <==> f in cells[..n] || f == last by {
        assert cells == cells[..n] + [last];
      }
      RekeyValues(x, cells[..n]);
    }
  }

  /** The user x item matrix of a situation holds exactly the (user, item)
      of the pairs rated in that situation, each with the pair's rating
      there. */
  lemma UIMatrixCells(x: PairIndex, trainCtx: Matrix, ctx: nat)
    requires WellFormed(trainCtx)
    requires DataViews.PairsInjective(x, trainCtx)
    requires DataViews.RowsRegistered(x, ColOf(trainCtx, ctx))
    ensures var t := UIMatrix(x, trainCtx, ctx).value;
      forall u: nat, i: nat :: Has(t, u, i) <==> exists p :: Has(trainCtx, p, ctx) && DataViews.PairOf(x, p) == (u, i)
    ensures var t := UIMatrix(x, trainCtx, ctx).value;
      forall p :: Has(trainCtx, p, ctx) ==> Get(t, DataViews.PairOf(x, p).0, DataViews.PairOf(x, p).1) == Get(trainCtx, p, ctx)
  {
    var cells := ColOf(trainCtx, ctx);
    var t := UIMatrix(x, trainCtx, ctx).value;
    forall e, f | e in cells && f in cells && DataViews.PairOf(x, e.row) == DataViews.PairOf(x, f.row)
      ensures e.val == f.val
    {
      assert e.row == f.row;
      assert Get(trainCtx, e.row, ctx) == e.val && Get(trainCtx, f.row, ctx) == f.val;
    }
    RekeyValues(x, cells);
    forall u: nat, i: nat
      ensures Has(t, u, i) <==> exists p :: Has(trainCtx, p, ctx) && DataViews.PairOf(x, p) == (u, i)
    {
      if Has(t, u, i) {
        var e :| e in cells && DataViews.PairOf(x, e.row) == (u, i);
        KeysMember(trainCtx, e);
      }
      if exists p :: Has(trainCtx, p, ctx) && DataViews.PairOf(x, p) == (u, i) {
        var p :| Has(trainCtx, p, ctx) && DataViews.PairOf(x, p) == (u, i);
        CellExists(trainCtx, p, ctx);
        var e :| e in trainCtx && e.row == p && e.col == ctx;
        assert e in cells;
      }
    }
    forall p | Has(trainCtx, p, ctx)
      ensures Get(t, DataViews.PairOf(x, p).0, DataViews.PairOf(x, p).1) == Get(trainCtx, p, ctx)
    {
      CellExists(trainCtx, p, ctx);
      var e :| e in trainCtx && e.row == p && e.col == ctx;
      assert e in cells;
    }
  }

  /** A stored key has a cell. */
  lemma {:induction false} CellExists(m: Matrix, r: nat, c: nat)
    requires Has(m, r, c)
    ensures exists e :: e in m && e.row == r && e.col == c
  {
    if m[0].row != r || m[0].col != c {
      CellExists(m[1..], r, c);
      var e :| e in m[1..] && e.row == r && e.col == c;
      assert e in m;
    }
  }

  // ---------------------------------------------------------------------
  // Rating mode

  /** A neighbour found in rating mode: the user, the similarity to the
      active user and the user's rating in the target situation. */
  datatype Neighbour = Neighbour(user: nat, sim: real, rate: real)

  function Similarity(n: Neighbour): real {
    n.sim
  }

  /** Whether user u qualifies as a neighbour of a for item t in situation
      c: another user, with a registered pair for t, a positive rating in
      exactly c, and a positive similarity to a. */
  predicate RatedInSituation(x: PairIndex, trainCtx: Matrix, corrs: Matrix, a: nat, u: nat, t: nat, c: nat)
    requires PairIndexValid(x)
  {
    var ui := PairIdOf(x, u, t);
    u != a && ui != -1 && Get(trainCtx, ui as nat, c) > 0.0 && Get(corrs, a, u) > 0.0
  }

  /** The loop over the training users, in the set's iteration order. */
  function Collect(x: PairIndex, trainCtx: Matrix, corrs: Matrix, users: seq<nat>, a: nat, t: nat, c: nat): (ns: seq<Neighbour>)
    requires PairIndexValid(x)
    ensures forall n :: n in ns <==>
      n.user in users && RatedInSituation(x, trainCtx, corrs, a, n.user, t, c)
      && n.sim == Get(corrs, a, n.user) && n.rate == Get(trainCtx, PairIdOf(x, n.user, t) as nat, c)
    ensures forall n :: n in ns ==> n.sim > 0.0
  {
    if |users| == 0 then []
    else
      var rest := Collect(x, trainCtx, corrs, users[1..], a, t, c);
      var u := users[0];
      assert forall v :: v in users <==> v == u || v in users[1..];
      if RatedInSituation(x, trainCtx, corrs, a, u, t, c) then
        [Neighbour(u, Get(corrs, a, u), Get(trainCtx, PairIdOf(x, u, t) as nat, c))] + rest
      else rest
  }

  /** (sim, rate − mean(v)) for every neighbour v. */
  function Deviations(ns: seq<Neighbour>, means: Matrix, globalMean: real): (ps: seq<(real, real)>)
    ensures |ps| == |ns|
  {
    seq(|ns|, k requires 0 <= k < |ns| => (ns[k].sim, ns[k].rate - KNN.UserMean(means, globalMean, ns[k].user)))
  }

  /** The final step shared by both modes: with kept neighbours,
      pred = mean(a) + Σ sim·(rate − mean(v)) / Σ sim, and a pred that is
      not positive, or no neighbour at all, falls back to mean(a). With
      knn = 0 nothing is kept and the 0/0 NaN compares false. */
  function Combine(kept: seq<Neighbour>, means: Matrix, globalMean: real, a: nat): (r: real)
    requires forall n :: n in kept ==> n.sim > 0.0
  {
    var meanA := KNN.UserMean(means, globalMean, a);
    if |kept| == 0 then meanA
    else
      var ps := Deviations(kept, means, globalMean);
      assert forall k :: 0 <= k < |ps| ==> ps[k].0 > 0.0 by {
        forall k | 0 <= k < |ps| ensures ps[k].0 > 0.0 { assert kept[k] in kept; }
      }
      PositiveWeights(ps);
      var pred := meanA + WeightedSum(ps) / TotalWeight(ps);
      if pred > 0.0 then pred else meanA
  }

  /** ExactFiltering.predict(a, t, c) in rating mode: the neighbours are
      sorted by similarity and the first min(knn, count) are kept (the
      sum does not depend on their order); a
      negative knn with at least one neighbour makes subList throw. User
      means come from the user x item training matrix `train`. */
  function PredictRating(x: PairIndex, trainCtx: Matrix, train: Matrix, globalMean: real, corrs: Matrix,
                         users: seq<nat>, a: nat, t: nat, c: nat, knn: int): (r: Result<real>)
    requires PairIndexValid(x)
    ensures r.Err? <==> knn < 0 && |Collect(x, trainCtx, corrs, users, a, t, c)| > 0
    ensures r.Ok? ==> r.value > 0.0 || r.value == KNN.UserMean(train, globalMean, a)
  {
    var ns := Collect(x, trainCtx, corrs, users, a, t, c);
    if |ns| == 0 then Ok(Combine([], train, globalMean, a))
    else if knn < 0 then Err(IllegalArgument)
    else
      Ok(Combine(Kept(ns, knn), train, globalMean, a))
  }

  /** The min(knn, count) most similar neighbours; knn = 0 keeps none. */
  function Kept(ns: seq<Neighbour>, knn: nat): (kept: seq<Neighbour>)
    ensures knn > 0 ==> kept == TopK(ns, knn, Similarity)
    ensures knn == 0 ==> kept == []
    ensures forall n :: n in kept ==> n in ns
  {
    if knn == 0 then []
    else
      var kept := TopK(ns, knn, Similarity);
      assert forall n :: n in kept ==> n in ns by {
        forall n | n in kept ensures n in ns { assert n in multiset(kept); }
      }
      kept
  }

  /** The neighbours kept in rating mode are users other than a, with a
      positive rating of t in exactly situation c and a positive similarity
      to a; there are min(knn, count) of them and each is at least as
      similar as each one left out. */
  lemma PredictRatingNeighbours(x: PairIndex, trainCtx: Matrix, corrs: Matrix, users: seq<nat>, a: nat, t: nat, c: nat, knn: nat)
    requires PairIndexValid(x)
    ensures var ns := Collect(x, trainCtx, corrs, users, a, t, c);
      var kept := Kept(ns, knn);
      (forall n :: n in kept ==> n.user in users && RatedInSituation(x, trainCtx, corrs, a, n.user, t, c))
      && |kept| == (if knn < |ns| then knn else |ns|)
      && (forall n, m :: n in multiset(kept) && m in multiset(ns) - multiset(kept) ==> n.sim >= m.sim)
  {
    var ns := Collect(x, trainCtx, corrs, users, a, t, c);
    var kept := Kept(ns, knn);
    forall n | n in kept
      ensures n.user in users && RatedInSituation(x, trainCtx, corrs, a, n.user, t, c)
    {
      assert n in ns;
    }
    if knn > 0 {
      forall n, m | n in multiset(kept) && m in multiset(ns) - multiset(kept)
        ensures n.sim >= m.sim
      {
        assert Similarity(n) >= Similarity(m);
      }
    }
  }

  /** With kept neighbours and a positive prediction, the prediction is
      mean(a) shifted by the similarity-weighted mean deviation, so it lies
      within mean(a) plus the range of the neighbours' deviations. */
  lemma CombineBounds(kept: seq<Neighbour>, means: Matrix, globalMean: real, a: nat, lo: real, hi: real)
    requires |kept| > 0
    requires forall n :: n in kept ==> n.sim > 0.0 && lo <= n.rate - KNN.UserMean(means, globalMean, n.user) <= hi
    ensures var r := Combine(kept, means, globalMean, a);
      var meanA := KNN.UserMean(means, globalMean, a);
      r == meanA || meanA + lo <= r <= meanA + hi
  {
    var ps := Deviations(kept, means, globalMean);
    forall k | 0 <= k < |ps|
      ensures ps[k].0 > 0.0 && lo <= ps[k].1 <= hi
    {
      assert kept[k] in kept;
    }
    PositiveWeights(ps);
    WeightedMeanBounds(ps, lo, hi);
  }

  /** Rating mode: without neighbours, or with knn = 0, the prediction is
      mean(a); otherwise it is mean(a) or lies within mean(a) plus the range
      of the kept neighbours' deviations from their own means. */
  lemma PredictRatingMeaning(x: PairIndex, trainCtx: Matrix, train: Matrix, globalMean: real, corrs: Matrix,
                             users: seq<nat>, a: nat, t: nat, c: nat, knn: nat, lo: real, hi: real)
    requires PairIndexValid(x)
    requires forall u :: u in users && RatedInSituation(x, trainCtx, corrs, a, u, t, c) ==>
      lo <= Get(trainCtx, PairIdOf(x, u, t) as nat, c) - KNN.UserMean(train, globalMean, u) <= hi
    ensures var r := PredictRating(x, trainCtx, train, globalMean, corrs, users, a, t, c, knn);
      var meanA := KNN.UserMean(train, globalMean, a);
      r.Ok?
      && ((knn == 0 || |Collect(x, trainCtx, corrs, users, a, t, c)| == 0) ==> r.value == meanA)
      && (r.value == meanA || meanA + lo <= r.value <= meanA + hi)
  {
    var ns := Collect(x, trainCtx, corrs, users, a, t, c);
    if |ns| > 0 && knn > 0 {
      var kept := Kept(ns, knn);
      assert |kept| > 0;
      CombineBounds(kept, train, globalMean, a, lo, hi);
    }
  }

  // ---------------------------------------------------------------------
  // Ranking mode

  /** The ranking-mode loop over a's similarity row of the situation's
      similarity matrix: it stops as soon as `room` more neighbours have
      been found, and takes a user with positive similarity who rated t in
      the situation's user x item matrix `sm`. */
  function FirstQualified(row: Matrix, sm: Matrix, t: nat, room: int): (ns: Matrix)
    ensures forall e :: e in ns ==> e in row && e.val > 0.0 && Get(sm, e.col, t) > 0.0
    ensures |ns| <= if room > 0 then room else 0
  {
    if |row| == 0 || room <= 0 then []
    else if row[0].val > 0.0 && Get(sm, row[0].col, t) > 0.0 then [row[0]] + FirstQualified(row[1..], sm, t, room - 1)
    else FirstQualified(row[1..], sm, t, room)
  }

  /** The early exit keeps the first knn qualifying users in index order:
      the loop gives the same list as filtering the row and cutting it. */
  lemma {:induction false} FirstQualifiedIsPrefix(row: Matrix, sm: Matrix, t: nat, room: nat)
    ensures var q := KNN.Qualified(row, KNN.RatingsOfItem(sm, t), false);
      FirstQualified(row, sm, t, room) == q[..if room < |q| then room else |q|]
  {
    if |row| > 0 && room > 0 {
      var rate := KNN.RatingsOfItem(sm, t);
      var rest := KNN.Qualified(row[1..], rate, false);
      assert rate(row[0].col) == Get(sm, row[0].col, t);
      if row[0].val > 0.0 && Get(sm, row[0].col, t) > 0.0 {
        FirstQualifiedIsPrefix(row[1..], sm, t, room - 1);
        ConsPrefix(row[0], rest, room);
      } else {
        FirstQualifiedIsPrefix(row[1..], sm, t, room);
      }
    }
  }

  /** Cutting a list that starts with x keeps x and cuts the rest one
      shorter. */
  lemma ConsPrefix(x: Entry, rest: Matrix, room: nat)
    requires room > 0
    ensures var q := [x] + rest;
      q[..if room < |q| then room else |q|] == [x] + rest[..if room - 1 < |rest| then room - 1 else |rest|]
  {
  }

  function AsNeighbour(sm: Matrix, t: nat, e: Entry): Neighbour {
    Neighbour(e.col, e.val, Get(sm, e.col, t))
  }

  /** ExactFiltering.predict(a, t, c) in ranking mode, on the situation's
      user x item matrix `sm`, its similarities `corrs` and the user means
      computed from it: every collected neighbour is kept, since at most
      knn are collected. */
  function PredictRanking(sm: Matrix, globalMean: real, corrs: Matrix, a: nat, t: nat, knn: int): (r: real)
    ensures r > 0.0 || r == KNN.UserMean(sm, globalMean, a)
  {
    var found := FirstQualified(RowOf(corrs, a), sm, t, knn);
    assert forall k :: 0 <= k < |found| ==> found[k] in found;
    Combine(seq(|found|, k requires 0 <= k < |found| => AsNeighbour(sm, t, found[k])), sm, globalMean, a)
  }

  /** Ranking mode uses the first min(knn, count) users of a's similarity
      row, in index order, with a positive similarity and a positive rating
      of t in the situation; without any the prediction is mean(a), and
      otherwise it is mean(a) or lies within mean(a) plus the range of
      their deviations. */
  lemma PredictRankingMeaning(sm: Matrix, globalMean: real, corrs: Matrix, a: nat, t: nat, knn: nat, lo: real, hi: real)
    requires forall e :: e in RowOf(corrs, a) && e.val > 0.0 && Get(sm, e.col, t) > 0.0 ==>
      lo <= Get(sm, e.col, t) - KNN.UserMean(sm, globalMean, e.col) <= hi
    ensures var q := KNN.Qualified(RowOf(corrs, a), KNN.RatingsOfItem(sm, t), false);
      FirstQualified(RowOf(corrs, a), sm, t, knn) == q[..if knn < |q| then knn else |q|]
    ensures var r := PredictRanking(sm, globalMean, corrs, a, t, knn);
      var meanA := KNN.UserMean(sm, globalMean, a);
      (knn == 0 || |KNN.Qualified(RowOf(corrs, a), KNN.RatingsOfItem(sm, t), false)| == 0 ==> r == meanA)
      && (r == meanA || meanA + lo <= r <= meanA + hi)
  {
    var found := FirstQualified(RowOf(corrs, a), sm, t, knn);
    FirstQualifiedIsPrefix(RowOf(corrs, a), sm, t, knn);
    var kept := seq(|found|, k requires 0 <= k < |found| => AsNeighbour(sm, t, found[k]));
    if |kept| > 0 {
      forall n | n in kept
        ensures n.sim > 0.0 && lo <= n.rate - KNN.UserMean(sm, globalMean, n.user) <= hi
      {
        var k :| 0 <= k < |kept| && kept[k] == n;
        assert found[k] in found;
      }
      CombineBounds(kept, sm, globalMean, a, lo, hi);
    }
  }
}
