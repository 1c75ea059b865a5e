/** carskit.generic.Recommender: the bounded prediction, the error
    accumulation of evalRatings, and the user-item matrix that the splitting
    approaches build from the contextual training matrix. */
module Recommender {
  import opened Wrappers
  import opened Doubles
  import opened Sums
  import opened SparseMatrices
  import opened DataDAO
  import opened DataLookups
  import DataViews
  import Text
  import Rankings

  // ---------------------------------------------------------------------
  // Bounded prediction

  /** predict(u, j, c, bound): with bound, a prediction above maxRate becomes
      maxRate, and then one below minRate becomes minRate; NaN fails both
      tests and passes through. */
  function Bound(pred: Double, bound: bool, minRate: real, maxRate: real): (r: Double)
    ensures !bound ==> r == pred
    ensures bound ==> (r.NaN? <==> pred.NaN?)
    ensures bound && !pred.NaN? ==> r.Num?
    ensures bound && !pred.NaN? && minRate <= maxRate ==> minRate <= r.v <= maxRate
    ensures bound && pred.Num? && minRate <= pred.v <= maxRate ==> r == pred
  {
    if !bound then pred
    else
      var p := if Greater(pred, maxRate) then Num(maxRate) else pred;
      if Less(p, minRate) then Num(minRate) else p
  }

  /** Bounding twice bounds once. */
  lemma BoundIdempotent(pred: Double, minRate: real, maxRate: real)
    requires minRate <= maxRate
    ensures Bound(Bound(pred, true, minRate, maxRate), true, minRate, maxRate) == Bound(pred, true, minRate, maxRate)
  {
  }

  // ---------------------------------------------------------------------
  // Rating evaluation

  function Abs(x: real): real {
    if x < 0.0 then -x else x
  }

  /** Math.round(pred / minRate) * minRate: the rating level nearest to pred
      on the grid of multiples of minRate, halves rounded up. With minRate 0
      the quotient is infinite or NaN and the product is 0. Math.round's
      saturation at the long range is not modelled. */
  function RoundToLevel(pred: real, minRate: real): (r: real)
    ensures minRate == 0.0 ==> r == 0.0
    ensures minRate != 0.0 ==> (r / minRate).Floor as real == r / minRate
    ensures minRate > 0.0 ==> r - minRate / 2.0 <= pred < r + minRate / 2.0
  {
    if minRate == 0.0 then 0.0
    else
      var k := (pred / minRate + 0.5).Floor;
      LevelBounds(pred, minRate, k);
      k as real * minRate
  }

  lemma LevelBounds(pred: real, m: real, k: int)
    requires m != 0.0
    requires k == (pred / m + 0.5).Floor
    ensures (k as real * m / m).Floor as real == k as real * m / m
    ensures m > 0.0 ==> k as real * m - m / 2.0 <= pred < k as real * m + m / 2.0
  {
    assert k as real * m / m == k as real;
    if m > 0.0 {
      var x := pred / m;
      assert k as real <= x + 0.5 < k as real + 1.0;
      assert pred == x * m;
      MulLe(k as real - 0.5, x, m);
      MulLt(x, k as real + 0.5, m);
    }
  }

  lemma MulLe(a: real, b: real, m: real)
    requires a <= b && m > 0.0
    ensures a * m <= b * m
  {
  }

  lemma MulLt(a: real, b: real, m: real)
    requires a < b && m > 0.0
    ensures a * m < b * m
  {
  }

  /** One test rating: the rating, the raw prediction predict(u, j, c),
      and what getContextSituationFromInnerId(c) gives for its output line
      (the situation's condition names, or the exception it throws). */
  datatype Rated = Rated(rate: real, pred: Double, names: Result<string>)

  /** A test rating that evalRatings keeps: the rating, the bounded
      prediction and its rounded level. */
  datatype Kept = Kept(rate: real, pred: real, rounded: real)

  function AbsErr(k: Kept): real {
    Abs(k.rate - k.pred)
  }

  function SqErr(k: Kept): real {
    AbsErr(k) * AbsErr(k)
  }

  function RoundedAbsErr(k: Kept): real {
    Abs(k.rate - k.rounded)
  }

  function RoundedSqErr(k: Kept): real {
    RoundedAbsErr(k) * RoundedAbsErr(k)
  }

  /** What one test rating leaves after the NaN test: nothing, or its
      rating with the bounded prediction and its rounded level. */
  function KeptAt(e: Rated, minRate: real, maxRate: real): (ks: seq<Kept>)
    ensures |ks| <= 1
  {
    var p := Bound(e.pred, true, minRate, maxRate);
    if p.NaN? then [] else [Kept(e.rate, p.v, RoundToLevel(p.v, minRate))]
  }

  /** The test ratings whose bounded prediction is a number, in order. */
  function KeptOf(test: seq<Rated>, minRate: real, maxRate: real): (ks: seq<Kept>)
    ensures |ks| <= |test|
  {
    if |test| == 0 then []
    else
      var n := |test| - 1;
      KeptOf(test[..n], minRate, maxRate) + KeptAt(test[n], minRate, maxRate)
  }

  /** sum_maes, sum_mses, sum_r_maes, sum_r_rmses and numCount. */
  datatype ErrorSums = ErrorSums(abs: real, sq: real, roundedAbs: real, roundedSq: real, count: nat)

  /** One pass of the loop body of evalRatings. */
  function Step(acc: ErrorSums, e: Rated, minRate: real, maxRate: real): ErrorSums {
    var pred := Bound(e.pred, true, minRate, maxRate);
    if pred.NaN? then acc
    else
      var rPred := RoundToLevel(pred.v, minRate);
      var err := Abs(e.rate - pred.v);
      var rErr := Abs(e.rate - rPred);
      ErrorSums(acc.abs + err, acc.sq + err * err, acc.roundedAbs + rErr, acc.roundedSq + rErr * rErr, acc.count + 1)
  }

  /** The loop of evalRatings over the test cells in iteration order. */
  function Accumulate(test: seq<Rated>, minRate: real, maxRate: real): (a: ErrorSums)
    ensures a.count <= |test|
  {
    if |test| == 0 then ErrorSums(0.0, 0.0, 0.0, 0.0, 0)
    else Step(Accumulate(test[..|test| - 1], minRate, maxRate), test[|test| - 1], minRate, maxRate)
  }

  /** The sums that a list of kept ratings contributes. */
  predicate SumsOf(a: ErrorSums, ks: seq<Kept>) {
    a.count == |ks| && a.abs == SumOf(ks, AbsErr) && a.sq == SumOf(ks, SqErr)
    && a.roundedAbs == SumOf(ks, RoundedAbsErr) && a.roundedSq == SumOf(ks, RoundedSqErr)
  }

  /** One loop pass adds what the rating leaves after the NaN test. */
  lemma StepKept(acc: ErrorSums, ks: seq<Kept>, e: Rated, minRate: real, maxRate: real)
    requires SumsOf(acc, ks)
    ensures SumsOf(Step(acc, e, minRate, maxRate), ks + KeptAt(e, minRate, maxRate))
  {
    var tail := KeptAt(e, minRate, maxRate);
    SumOfAppend(ks, tail, AbsErr);
    SumOfAppend(ks, tail, SqErr);
    SumOfAppend(ks, tail, RoundedAbsErr);
    SumOfAppend(ks, tail, RoundedSqErr);
  }

  /** The measures of evalRatings before the square roots: MAE, NMAE, the
      mean squared error (RMSE is its square root), the rounded MAE and
      mean squared error, and MPE. */
  datatype RatingMeasures = RatingMeasures(mae: Double, nmae: Double, mse: Double, rMae: Double, rMse: Double, mpe: Double)

  /** Java's double division with a possibly non-finite numerator. */
  function DivBy(x: Double, y: real): Double {
    match x
    case Num(v) => Div(v, y)
    case NaN => NaN
    case PosInf => if y < 0.0 then NegInf else PosInf
    case NegInf => if y < 0.0 then PosInf else NegInf
  }

  /** evalRatings: numPEs is never incremented, so MPE is 0 / numCount. */
  function EvalRatings(test: seq<Rated>, minRate: real, maxRate: real): RatingMeasures {
    var a := Accumulate(test, minRate, maxRate);
    var n := a.count as real;
    var mae := Div(a.abs, n);
    RatingMeasures(mae, DivBy(mae, maxRate - minRate), Div(a.sq, n), Div(a.roundedAbs, n), Div(a.roundedSq, n), Div(0.0, n))
  }

  /** The accumulated sums are the sums over the kept ratings. */
  lemma {:induction false} AccumulateKept(test: seq<Rated>, minRate: real, maxRate: real)
    ensures SumsOf(Accumulate(test, minRate, maxRate), KeptOf(test, minRate, maxRate))
  {
    if |test| > 0 {
      var n := |test| - 1;
      AccumulateKept(test[..n], minRate, maxRate);
      StepKept(Accumulate(test[..n], minRate, maxRate), KeptOf(test[..n], minRate, maxRate), test[n], minRate, maxRate);
    }
  }

  /** MAE and the other means are the sums over the kept ratings divided by
      their number; MPE is 0; with nothing kept every mean is 0/0. */
  lemma EvalRatingsMeaning(test: seq<Rated>, minRate: real, maxRate: real)
    ensures var m := EvalRatings(test, minRate, maxRate);
      var ks := KeptOf(test, minRate, maxRate);
      var n := |ks| as real;
      (|ks| > 0 ==>
        m.mae == Num(SumOf(ks, AbsErr) / n) && m.mse == Num(SumOf(ks, SqErr) / n)
        && m.rMae == Num(SumOf(ks, RoundedAbsErr) / n) && m.rMse == Num(SumOf(ks, RoundedSqErr) / n)
        && m.mpe == Num(0.0))
      && (|ks| == 0 ==> m.mae.NaN? && m.nmae.NaN? && m.mse.NaN? && m.rMae.NaN? && m.rMse.NaN? && m.mpe.NaN?)
  {
    AccumulateKept(test, minRate, maxRate);
  }

  lemma {:induction false} KeptOfAppend(a: seq<Rated>, b: seq<Rated>, minRate: real, maxRate: real)
    ensures KeptOf(a + b, minRate, maxRate) == KeptOf(a, minRate, maxRate) + KeptOf(b, minRate, maxRate)
  {
    if |b| == 0 {
      assert a + b == a;
    } else {
      var n := |b| - 1;
      assert (a + b)[..|a + b| - 1] == a + b[..n];
      assert (a + b)[|a + b| - 1] == b[n];
      KeptOfAppend(a, b[..n], minRate, maxRate);
    }
  }

  /** The measures depend only on the kept ratings. */
  lemma EvalRatingsOfKept(t1: seq<Rated>, t2: seq<Rated>, minRate: real, maxRate: real)
    requires KeptOf(t1, minRate, maxRate) == KeptOf(t2, minRate, maxRate)
    ensures EvalRatings(t1, minRate, maxRate) == EvalRatings(t2, minRate, maxRate)
  {
    AccumulateKept(t1, minRate, maxRate);
    AccumulateKept(t2, minRate, maxRate);
    assert Accumulate(t1, minRate, maxRate) == Accumulate(t2, minRate, maxRate);
  }

  lemma KeptSkipsNaN(a: seq<Rated>, x: Rated, b: seq<Rated>, minRate: real, maxRate: real)
    requires x.pred.NaN?
    ensures KeptOf(a + [x] + b, minRate, maxRate) == KeptOf(a + b, minRate, maxRate)
  {
    assert KeptOf(a + [x], minRate, maxRate) == KeptOf(a, minRate, maxRate) by {
      KeptOfAppend(a, [x], minRate, maxRate);
      KeptNone(x, minRate, maxRate);
    }
    KeptOfAppend(a + [x], b, minRate, maxRate);
    KeptOfAppend(a, b, minRate, maxRate);
  }

  lemma KeptNone(x: Rated, minRate: real, maxRate: real)
    requires x.pred.NaN?
    ensures KeptOf([x], minRate, maxRate) == []
  {
    assert [x][..0] == [];
  }

  /** A NaN prediction anywhere in the test set changes no measure. */
  lemma EvalRatingsSkipsNaN(a: seq<Rated>, x: Rated, b: seq<Rated>, minRate: real, maxRate: real)
    requires x.pred.NaN?
    ensures EvalRatings(a + [x] + b, minRate, maxRate) == EvalRatings(a + b, minRate, maxRate)
  {
    KeptSkipsNaN(a, x, b, minRate, maxRate);
    EvalRatingsOfKept(a + [x] + b, a + b, minRate, maxRate);
  }

  // ---------------------------------------------------------------------
  // The output lines of evalRatings

  /** evalRatings keeps a test rating when its bounded prediction is a
      number. */
  predicate IsKept(e: Rated, minRate: real, maxRate: real) {
    !Bound(e.pred, true, minRate, maxRate).NaN?
  }

  /** The exception of the first kept rating whose output line cannot name
      its situation; None when every kept rating's line can be written. */
  function FirstOutputError(test: seq<Rated>, minRate: real, maxRate: real): (e: Option<string>)
    ensures e.None? <==> forall i :: 0 <= i < |test| && IsKept(test[i], minRate, maxRate) ==> test[i].names.Ok?
    ensures e.Some? ==> exists i :: 0 <= i < |test| && IsKept(test[i], minRate, maxRate) && test[i].names == Err(e.value)
                          && forall k :: 0 <= k < i && IsKept(test[k], minRate, maxRate) ==> test[k].names.Ok?
  {
    if |test| == 0 then None
    else if IsKept(test[0], minRate, maxRate) && test[0].names.Err? then Some(test[0].names.msg)
    else
      var rest := FirstOutputError(test[1..], minRate, maxRate);
      assert forall i :: 1 <= i < |test| ==> test[i] == test[1..][i - 1];
      if rest.Some? then
        var j :| 0 <= j < |test[1..]| && IsKept(test[1..][j], minRate, maxRate) && test[1..][j].names == Err(rest.value)
                 && forall k :: 0 <= k < j && IsKept(test[1..][k], minRate, maxRate) ==> test[1..][k].names.Ok?;
        assert IsKept(test[j + 1], minRate, maxRate) && test[j + 1].names == Err(rest.value);
        rest
      else rest
  }

  /** evalRatings as a whole: isResultsOut is always on, so every kept
      rating also writes a line naming its situation, and the first name
      that throws ends the evaluation with that exception; otherwise the
      measures are those of the error sums. */
  function EvalRatingsRun(test: seq<Rated>, minRate: real, maxRate: real): (r: Result<RatingMeasures>)
    ensures r.Ok? <==> forall i :: 0 <= i < |test| && IsKept(test[i], minRate, maxRate) ==> test[i].names.Ok?
    ensures r.Ok? ==> r.value == EvalRatings(test, minRate, maxRate)
    ensures r.Err? ==> exists i :: 0 <= i < |test| && IsKept(test[i], minRate, maxRate) && test[i].names == Err(r.msg)
  {
    match FirstOutputError(test, minRate, maxRate)
    case Some(e) => Err(e)
    case None => Ok(EvalRatings(test, minRate, maxRate))
  }

  /** A kept test rating in the situation without conditions (key "")
      makes evalRatings throw NumberFormatException, however the other
      ratings fare. */
  lemma EmptySituationOutputThrows(st: Store, test: seq<Rated>, i: nat, c: nat, minRate: real, maxRate: real)
    requires StoreValid(st)
    requires c < |st.sit.ctxs.keys| && st.sit.ctxConds[c] == []
    requires i < |test| && IsKept(test[i], minRate, maxRate) && test[i].names == SituationNames(st, c)
    ensures EvalRatingsRun(test, minRate, maxRate).Err?
  {
    ConditionsRoundTrip(st.sit, c);
  }

  /** When every test rating lies in a stored situation with at least one
      condition, every output line can be written and evalRatings gives the
      measures of the error sums. */
  lemma StoredSituationsOutput(st: Store, test: seq<Rated>, cs: seq<nat>, minRate: real, maxRate: real)
    requires StoreValid(st)
    requires |cs| == |test|
    requires forall i :: 0 <= i < |test| ==>
      cs[i] < |st.sit.ctxs.keys| && |st.sit.ctxConds[cs[i]]| >= 1
      && (forall k :: k in st.sit.ctxConds[cs[i]] ==> k <= Text.MaxInt)
      && test[i].names == SituationNames(st, cs[i])
    ensures EvalRatingsRun(test, minRate, maxRate) == Ok(EvalRatings(test, minRate, maxRate))
  {
    forall i | 0 <= i < |test|
      ensures test[i].names.Ok?
    {
      ConditionsRoundTrip(st.sit, cs[i]);
    }
  }

  /** Every kept rating and prediction lies in [lo, hi]. */
  predicate InScale(ks: seq<Kept>, lo: real, hi: real) {
    forall i :: 0 <= i < |ks| ==> lo <= ks[i].rate <= hi && lo <= ks[i].pred <= hi
  }

  lemma InScaleAppend(a: seq<Kept>, b: seq<Kept>, lo: real, hi: real)
    requires InScale(a, lo, hi) && InScale(b, lo, hi)
    ensures InScale(a + b, lo, hi)
  {
    forall i | 0 <= i < |a + b|
      ensures lo <= (a + b)[i].rate <= hi && lo <= (a + b)[i].pred <= hi
    {
      if i < |a| {
        assert (a + b)[i] == a[i];
      } else {
        assert (a + b)[i] == b[i - |a|];
      }
    }
  }

  /** With ratings inside the scale, every kept rating and bounded
      prediction is inside it too. */
  lemma {:induction false} KeptInScale(test: seq<Rated>, minRate: real, maxRate: real)
    requires minRate <= maxRate
    requires forall i :: 0 <= i < |test| ==> minRate <= test[i].rate <= maxRate
    ensures InScale(KeptOf(test, minRate, maxRate), minRate, maxRate)
  {
    if |test| > 0 {
      var n := |test| - 1;
      assert forall i :: 0 <= i < n ==> test[..n][i] == test[i];
      KeptInScale(test[..n], minRate, maxRate);
      InScaleAppend(KeptOf(test[..n], minRate, maxRate), KeptAt(test[n], minRate, maxRate), minRate, maxRate);
    }
  }

  /** Errors between values of the scale average to at most its width. */
  lemma MeanErrorInScale(ks: seq<Kept>, minRate: real, maxRate: real)
    requires |ks| > 0
    requires InScale(ks, minRate, maxRate)
    ensures 0.0 <= SumOf(ks, AbsErr) / |ks| as real <= maxRate - minRate
  {
    assert forall i :: 0 <= i < |ks| ==> 0.0 <= AbsErr(ks[i]) <= maxRate - minRate;
    SumOfBounds(ks, AbsErr, 0.0, maxRate - minRate);
    DivBounds(SumOf(ks, AbsErr), |ks| as real, 0.0, maxRate - minRate);
  }

  lemma EvalRatingsMae(test: seq<Rated>, minRate: real, maxRate: real)
    requires |KeptOf(test, minRate, maxRate)| > 0
    ensures var ks := KeptOf(test, minRate, maxRate);
      EvalRatings(test, minRate, maxRate).mae == Num(SumOf(ks, AbsErr) / |ks| as real)
  {
    AccumulateKept(test, minRate, maxRate);
  }

  /** With ratings inside the scale, MAE is at most the scale's width and
      NMAE lies in [0, 1]. */
  lemma MaeWithinScale(test: seq<Rated>, minRate: real, maxRate: real)
    requires minRate <= maxRate
    requires forall i :: 0 <= i < |test| ==> minRate <= test[i].rate <= maxRate
    requires |KeptOf(test, minRate, maxRate)| > 0
    ensures var m := EvalRatings(test, minRate, maxRate);
      m.mae.Num? && 0.0 <= m.mae.v <= maxRate - minRate
      && (minRate < maxRate ==> m.nmae.Num? && 0.0 <= m.nmae.v <= 1.0)
  {
    var ks := KeptOf(test, minRate, maxRate);
    var m := EvalRatings(test, minRate, maxRate);
    var mae := SumOf(ks, AbsErr) / |ks| as real;
    EvalRatingsMae(test, minRate, maxRate);
    assert 0.0 <= mae <= maxRate - minRate by {
      KeptInScale(test, minRate, maxRate);
      MeanErrorInScale(ks, minRate, maxRate);
    }
    if minRate < maxRate {
      assert m.nmae == Num(mae / (maxRate - minRate));
      DivBounds(mae, maxRate - minRate, 0.0, 1.0);
    }
  }

  // ---------------------------------------------------------------------
  // The user-item matrix of the splitting approaches

  /** userIdMapper / itemIdMapper: (id, situation) to the split id; None
      when that splitting is off. */
  type IdMapper = Option<map<(nat, nat), nat>>

  /** The split id of id in situation ctx, id itself when the table has no
      entry for it. */
  function Remap(id: nat, ctx: nat, mapper: IdMapper): nat {
    if mapper.Some? && (id, ctx) in mapper.value then mapper.value[(id, ctx)] else id
  }

  /** One training cell after remapping. */
  datatype Record = Record(user: nat, item: nat, rate: real)

  /** The record of one training cell of a registered pair: its user and
      item, each remapped by the split table when it has an entry. */
  function RecordOf(x: PairIndex, e: Entry, um: IdMapper, im: IdMapper): Record
    requires PairIndexValid(x) && e.row < |x.pairs.keys|
  {
    Record(Remap(UserIdFromUI(x, e.row).value, e.col, um), Remap(ItemIdFromUI(x, e.row).value, e.col, im), e.val)
  }

  /** The training cells, with their pair split into (user, item) and both
      remapped; a row that is not a registered pair unboxes null. */
  function SplitRecords(x: PairIndex, m: Matrix, um: IdMapper, im: IdMapper): (r: Result<seq<Record>>)
    requires PairIndexValid(x)
    ensures r.Ok? <==> forall k :: 0 <= k < |m| ==> m[k].row < |x.pairs.keys|
    ensures r.Ok? ==> |r.value| == |m| && forall k :: 0 <= k < |m| ==> r.value[k] == RecordOf(x, m[k], um, im)
  {
    if |m| == 0 then Ok([])
    else
      var n := |m| - 1;
      assert forall k :: 0 <= k < n ==> m[..n][k] == m[k];
      match SplitRecords(x, m[..n], um, im)
      case Err(e) => Err(e)
      case Ok(init) =>
        match UserIdFromUI(x, m[n].row)
        case Err(e) => Err(e)
        case Ok(_) =>
          SplitRecordsStep(x, m, m[..n], um, im, init);
          Ok(init + [RecordOf(x, m[n], um, im)])
  }

  /** The last step of SplitRecords: the last cell's record follows the
      records of the others. */
  lemma SplitRecordsStep(x: PairIndex, m: Matrix, front: Matrix, um: IdMapper, im: IdMapper, init: seq<Record>)
    requires PairIndexValid(x) && |m| > 0 && front == m[..|m| - 1] && |init| == |front|
    requires forall k :: 0 <= k < |front| ==> front[k].row < |x.pairs.keys|
    requires m[|m| - 1].row < |x.pairs.keys|
    requires forall k :: 0 <= k < |front| ==> init[k] == RecordOf(x, front[k], um, im)
    ensures forall k :: 0 <= k < |m| ==> m[k].row < |x.pairs.keys|
    ensures forall k :: 0 <= k < |m| ==> (init + [RecordOf(x, m[|m| - 1], um, im)])[k] == RecordOf(x, m[k], um, im)
  {
    var n := |m| - 1;
    var rs := init + [RecordOf(x, m[n], um, im)];
    forall k | 0 <= k < |m|
      ensures m[k].row < |x.pairs.keys| && rs[k] == RecordOf(x, m[k], um, im)
    {
      if k < n {
        assert front[k] == m[k];
        assert rs[k] == init[k];
      }
    }
  }

  /** The ratings of the records on (u, j), in order. */
  function RatesOn(rs: seq<Record>, u: nat, j: nat): seq<real> {
    if |rs| == 0 then []
    else
      var n := |rs| - 1;
      RatesOn(rs[..n], u, j) + (if rs[n].user == u && rs[n].item == j then [rs[n].rate] else [])
  }

  /** The records grouped by (u, j): records.put(u + "," + j, rate) on a
      multimap that keeps every value. */
  function Group(rs: seq<Record>): (g: map<(nat, nat), seq<real>>)
    ensures forall k :: k in g ==> |g[k]| > 0
  {
    if |rs| == 0 then map[]
    else
      var g := Group(rs[..|rs| - 1]);
      var r := rs[|rs| - 1];
      var k := (r.user, r.item);
      g[k := (if k in g then g[k] else []) + [r.rate]]
  }

  lemma {:induction false} GroupIsRatesOn(rs: seq<Record>)
    ensures forall u: nat, j: nat :: (u, j) in Group(rs) <==> |RatesOn(rs, u, j)| > 0
    ensures forall u: nat, j: nat :: (u, j) in Group(rs) ==> Group(rs)[(u, j)] == RatesOn(rs, u, j)
  {
    if |rs| > 0 {
      GroupIsRatesOn(rs[..|rs| - 1]);
    }
  }

  /** Stats.mean over the set of values a HashMultimap keeps for a key:
      equal ratings count once. */
  function DistinctMean(vs: seq<real>): real
    requires |vs| > 0
  {
    assert vs[0] in vs;
    Mean(DataViews.RatingScale(vs))
  }

  /** newtable as written: the mean of the distinct ratings on each key. */
  function SplitTableAsWritten(rs: seq<Record>): (t: map<(nat, nat), real>)
    ensures forall u: nat, j: nat :: (u, j) in t <==> |RatesOn(rs, u, j)| > 0
    ensures forall u: nat, j: nat :: (u, j) in t ==> t[(u, j)] == DistinctMean(RatesOn(rs, u, j))
  {
    GroupIsRatesOn(rs);
    var g := Group(rs);
    map k | k in g :: DistinctMean(g[k])
  }

  /** newtable as intended: the mean of every rating on each key, as
      toTraditionalSparseMatrix does for the unsplit matrix. */
  function SplitTable(rs: seq<Record>): (t: map<(nat, nat), real>)
    ensures forall u: nat, j: nat :: (u, j) in t <==> |RatesOn(rs, u, j)| > 0
    ensures forall u: nat, j: nat :: (u, j) in t ==> t[(u, j)] == Mean(RatesOn(rs, u, j))
  {
    GroupIsRatesOn(rs);
    var g := Group(rs);
    map k | k in g :: Mean(g[k])
  }

  /** A user rating an item 4 in two situations and 1 in a third: the
      multimap keeps {4, 1}, so the table holds 2.5 where the mean of the
      three ratings is 3. */
  lemma SplitTableAsWrittenDropsRepeats()
    ensures var rs := [Record(0, 0, 4.0), Record(0, 0, 4.0), Record(0, 0, 1.0)];
      SplitTableAsWritten(rs)[(0, 0)] == 2.5 && SplitTable(rs)[(0, 0)] == 3.0
  {
    var rs := [Record(0, 0, 4.0), Record(0, 0, 4.0), Record(0, 0, 1.0)];
    var vs := [4.0, 4.0, 1.0];
    RepeatedRates();
    RepeatedScale();
    var t := SplitTableAsWritten(rs);
    assert (0, 0) in t;
    assert t[(0, 0)] == Mean([1.0, 4.0]);
    assert Sum([1.0, 4.0]) == 5.0;
    var t' := SplitTable(rs);
    assert t'[(0, 0)] == Mean(vs);
    assert Sum(vs) == 9.0;
  }

  lemma RepeatedRates()
    ensures RatesOn([Record(0, 0, 4.0), Record(0, 0, 4.0), Record(0, 0, 1.0)], 0, 0) == [4.0, 4.0, 1.0]
  {
    var rs := [Record(0, 0, 4.0), Record(0, 0, 4.0), Record(0, 0, 1.0)];
    assert rs[..2][..1] == rs[..1];
    assert rs[..1][..0] == [];
    assert RatesOn(rs[..1], 0, 0) == [4.0];
    assert RatesOn(rs[..2], 0, 0) == [4.0, 4.0];
  }

  lemma RepeatedScale()
    ensures DataViews.RatingScale([4.0, 4.0, 1.0]) == [1.0, 4.0]
  {
    var vs := [4.0, 4.0, 1.0];
    assert vs[..2][..1] == vs[..1];
    assert vs[..1][..0] == [];
    assert DataViews.RatingScale(vs[..1]) == [4.0];
    assert DataViews.RatingScale(vs[..2]) == [4.0];
  }

  /** One more than the largest remapped user (item), 0 without records:
      maxUser + 1 with maxUser starting at -1. */
  function UserBound(rs: seq<Record>): (n: nat)
    ensures forall k :: 0 <= k < |rs| ==> rs[k].user < n
    ensures |rs| > 0 ==> exists k :: 0 <= k < |rs| && rs[k].user + 1 == n
    ensures |rs| == 0 ==> n == 0
  {
    if |rs| == 0 then 0
    else
      var m := UserBound(rs[..|rs| - 1]);
      assert forall k :: 0 <= k < |rs| - 1 ==> rs[..|rs| - 1][k] == rs[k];
      if rs[|rs| - 1].user + 1 > m then rs[|rs| - 1].user + 1 else m
  }

  function ItemBound(rs: seq<Record>): (n: nat)
    ensures forall k :: 0 <= k < |rs| ==> rs[k].item < n
    ensures |rs| > 0 ==> exists k :: 0 <= k < |rs| && rs[k].item + 1 == n
    ensures |rs| == 0 ==> n == 0
  {
    if |rs| == 0 then 0
    else
      var m := ItemBound(rs[..|rs| - 1]);
      assert forall k :: 0 <= k < |rs| - 1 ==> rs[..|rs| - 1][k] == rs[k];
      if rs[|rs| - 1].item + 1 > m then rs[|rs| - 1].item + 1 else m
  }

  /** The built matrix: its cells and the updated numUsers and numItems. */
  datatype SplitMatrix = SplitMatrix(table: map<(nat, nat), real>, numUsers: nat, numItems: nat)

  function Grown(n: nat, bound: nat): nat {
    if n < bound then bound else n
  }

  /** createTraditionalSparseMatrixBySplitting as written. */
  function SplitMatrixAsWritten(x: PairIndex, m: Matrix, um: IdMapper, im: IdMapper, numUsers: nat, numItems: nat): (r: Result<SplitMatrix>)
    requires PairIndexValid(x)
    ensures r.Ok? <==> forall k :: 0 <= k < |m| ==> m[k].row < |x.pairs.keys|
    ensures r.Ok? ==> r.value.table == SplitTableAsWritten(SplitRecords(x, m, um, im).value)
  {
    var rs :- SplitRecords(x, m, um, im);
    Ok(SplitMatrix(SplitTableAsWritten(rs), Grown(numUsers, UserBound(rs)), Grown(numItems, ItemBound(rs))))
  }

  /** createTraditionalSparseMatrixBySplitting with the intended mean: a
      cell for each remapped (u, j) that some training rating falls on,
      holding the mean of those ratings, inside the grown dimensions. */
  function SplitMatrixOf(x: PairIndex, m: Matrix, um: IdMapper, im: IdMapper, numUsers: nat, numItems: nat): (r: Result<SplitMatrix>)
    requires PairIndexValid(x)
    ensures r.Ok? <==> forall k :: 0 <= k < |m| ==> m[k].row < |x.pairs.keys|
    ensures r.Ok? ==> var rs := SplitRecords(x, m, um, im).value;
      (forall u: nat, j: nat :: (u, j) in r.value.table <==> |RatesOn(rs, u, j)| > 0)
      && (forall u: nat, j: nat :: (u, j) in r.value.table ==> r.value.table[(u, j)] == Mean(RatesOn(rs, u, j)))
    ensures r.Ok? ==> numUsers <= r.value.numUsers && numItems <= r.value.numItems
    ensures r.Ok? ==> forall u: nat, j: nat :: (u, j) in r.value.table ==> u < r.value.numUsers && j < r.value.numItems
  {
    var rs :- SplitRecords(x, m, um, im);
    var t := SplitTable(rs);
    forall u: nat, j: nat | (u, j) in t
      ensures u < UserBound(rs) && j < ItemBound(rs)
    {
      RatesOnMember(rs, u, j);
    }
    Ok(SplitMatrix(t, Grown(numUsers, UserBound(rs)), Grown(numItems, ItemBound(rs))))
  }

  /** A key with ratings is the key of some record. */
  lemma {:induction false} RatesOnMember(rs: seq<Record>, u: nat, j: nat)
    requires |RatesOn(rs, u, j)| > 0
    ensures exists k :: 0 <= k < |rs| && rs[k].user == u && rs[k].item == j
  {
    var n := |rs| - 1;
    if !(rs[n].user == u && rs[n].item == j) {
      RatesOnMember(rs[..n], u, j);
      var k :| 0 <= k < n && rs[..n][k].user == u && rs[..n][k].item == j;
      assert rs[k] == rs[..n][k];
    }
  }

  // ---------------------------------------------------------------------
  // The output lines of evalRankings

  /** getContextSituationFromInnerId on a store, as the names an output
      line is written with. */
  function NamesOf(st: Store): (names: nat -> Result<string>)
    requires StoreValid(st)
    ensures forall c: nat :: names(c) == SituationNames(st, c)
  {
    (c: nat) => SituationNames(st, c)
  }

  /** A ranked situation without conditions (key "") makes its output line,
      and so evalRankings, throw NumberFormatException. */
  lemma EmptySituationRankingThrows(st: Store, cands: seq<nat>, users: seq<Rankings.TestUser>, train: map<nat, map<nat, set<nat>>>,
                                    filter: Rankings.ItemsFilter, score: (nat, nat, nat) -> Option<real>, numRecs: int, u: nat, k: nat)
    requires StoreValid(st)
    requires var rss := Rankings.EvalRankings(cands, users, train, filter, score, numRecs);
      u < |rss| && k < |rss[u]| && rss[u][k].ctx < |st.sit.ctxs.keys| && st.sit.ctxConds[rss[u][k].ctx] == []
    ensures Rankings.EvalRankingsRun(cands, users, train, filter, score, numRecs, NamesOf(st)).Err?
  {
    var c := Rankings.EvalRankings(cands, users, train, filter, score, numRecs)[u][k].ctx;
    ConditionsRoundTrip(st.sit, c);
  }

  /** When every ranked situation is stored with at least one condition,
      every output line can be written and evalRankings gives the
      rankings. */
  lemma StoredSituationsRanking(st: Store, cands: seq<nat>, users: seq<Rankings.TestUser>, train: map<nat, map<nat, set<nat>>>,
                                filter: Rankings.ItemsFilter, score: (nat, nat, nat) -> Option<real>, numRecs: int)
    requires StoreValid(st)
    requires var rss := Rankings.EvalRankings(cands, users, train, filter, score, numRecs);
      forall u, k :: 0 <= u < |rss| && 0 <= k < |rss[u]| ==>
        var c := rss[u][k].ctx;
        c < |st.sit.ctxs.keys| && |st.sit.ctxConds[c]| >= 1 && (forall x :: x in st.sit.ctxConds[c] ==> x <= Text.MaxInt)
    ensures Rankings.EvalRankingsRun(cands, users, train, filter, score, numRecs, NamesOf(st))
      == Ok(Rankings.EvalRankings(cands, users, train, filter, score, numRecs))
  {
    var rss: seq<seq<Rankings.Ranking>> := Rankings.EvalRankings(cands, users, train, filter, score, numRecs);
    forall u: int, k: int | 0 <= u < |rss| && 0 <= k < |rss[u]|
      ensures SituationNames(st, rss[u][k].ctx).Ok?
    {
      ConditionsRoundTrip(st.sit, rss[u][k].ctx);
    }
  }
}
