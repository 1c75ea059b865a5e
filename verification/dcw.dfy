/** DCW (differential context weighting): the similarity of two situations
    is the share of the dimension weights on which their conditions agree;
    a row of ratings is averaged over the situations similar enough to the
    target one. As in DCR, the comparison of two condition ids is either by
    value (ContextSimilarity, used everywhere else in the model) or by boxed
    reference as the code is written (ContextSimilarityAsWritten). */
module DCW {
  import opened Wrappers
  import opened Doubles
  import opened Sums
  import opened HybridFiltering

  /** The loop of ContextSimilarity from dimension i on: every dimension
      reads both lists, and the weights of the agreeing ones are added. */
  function AgreeingFrom(a: Option<seq<nat>>, b: Option<seq<nat>>, pos: seq<real>, i: nat, same: (nat, nat) -> bool): (r: Result<real>)
    decreases |pos| - i
  {
    if i >= |pos| then Ok(0.0)
    else
      var x :- CondAt(a, i);
      var y :- CondAt(b, i);
      var rest :- AgreeingFrom(a, b, pos, i + 1, same);
      Ok((if same(x, y) then pos[i] else 0.0) + rest)
  }

  /** ContextSimilarity(c, ctx, pos): the agreeing weight over the total
      weight Stats.sum(pos), a Java double division. */
  function ContextSimilarity(lists: map<nat, seq<nat>>, c: nat, ctx: nat, pos: seq<real>): (r: Result<Double>)
  {
    var s :- AgreeingFrom(ListOf(lists, c), ListOf(lists, ctx), pos, 0, ValueEq);
    Ok(Div(s, Sum(pos)))
  }

  /** ContextSimilarity as written: `conds1.get(i) == conds2.get(i)` on two
      boxed Integers. */
  function ContextSimilarityAsWritten(lists: map<nat, seq<nat>>, c: nat, ctx: nat, pos: seq<real>): (r: Result<Double>)
  {
    var s :- AgreeingFrom(ListOf(lists, c), ListOf(lists, ctx), pos, 0, BoxedCompare(c == ctx));
    Ok(Div(s, Sum(pos)))
  }

  /** A condition list has an entry for every weighted dimension. */
  predicate Reaches(l: Option<seq<nat>>, pos: seq<real>) {
    l.Some? && |pos| <= |l.value|
  }

  /** The weight of every dimension on which a and b agree, zero on the
      others. */
  function AgreeWeights(a: seq<nat>, b: seq<nat>, pos: seq<real>): (w: seq<real>)
    requires |pos| <= |a| && |pos| <= |b|
    ensures |w| == |pos|
  {
    seq(|pos|, i requires 0 <= i < |pos| => if a[i] == b[i] then pos[i] else 0.0)
  }

  /** The loop completes iff both lists have an entry for every remaining
      dimension. */
  lemma {:induction false} AgreeingFromOk(a: Option<seq<nat>>, b: Option<seq<nat>>, pos: seq<real>, i: nat, same: (nat, nat) -> bool)
    ensures AgreeingFrom(a, b, pos, i, same).Ok? <==> i >= |pos| || (Reaches(a, pos) && Reaches(b, pos))
    decreases |pos| - i
  {
    if i < |pos| {
      AgreeingFromOk(a, b, pos, i + 1, same);
    }
  }

  lemma {:induction false} AgreeingFromValue(a: seq<nat>, b: seq<nat>, pos: seq<real>, i: nat)
    requires |pos| <= |a| && |pos| <= |b| && i <= |pos|
    ensures AgreeingFrom(Some(a), Some(b), pos, i, ValueEq) == Ok(Sum(AgreeWeights(a, b, pos)[i..]))
    decreases |pos| - i
  {
    if i < |pos| {
      AgreeingFromValue(a, b, pos, i + 1);
      var w := AgreeWeights(a, b, pos);
      assert w[i..][1..] == w[i + 1..];
    }
  }

  /** The similarity exists iff both situations were loaded with an entry
      for every weighted dimension (or no dimension is weighted), and is then
      the agreeing weight divided by the total weight. */
  lemma ContextSimilarityMeaning(lists: map<nat, seq<nat>>, c: nat, ctx: nat, pos: seq<real>)
    ensures ContextSimilarity(lists, c, ctx, pos).Ok? <==>
      |pos| == 0 || (Reaches(ListOf(lists, c), pos) && Reaches(ListOf(lists, ctx), pos))
    ensures Reaches(ListOf(lists, c), pos) && Reaches(ListOf(lists, ctx), pos) ==>
      ContextSimilarity(lists, c, ctx, pos) == Ok(Div(Sum(AgreeWeights(lists[c], lists[ctx], pos)), Sum(pos)))
  {
    AgreeingFromOk(ListOf(lists, c), ListOf(lists, ctx), pos, 0, ValueEq);
    if Reaches(ListOf(lists, c), pos) && Reaches(ListOf(lists, ctx), pos) {
      AgreeingFromValue(lists[c], lists[ctx], pos, 0);
      assert AgreeWeights(lists[c], lists[ctx], pos)[0..] == AgreeWeights(lists[c], lists[ctx], pos);
    }
  }

  /** The similarity is symmetric in the two situations. */
  lemma ContextSimilaritySymmetric(lists: map<nat, seq<nat>>, c: nat, ctx: nat, pos: seq<real>)
    ensures ContextSimilarity(lists, c, ctx, pos).Ok? == ContextSimilarity(lists, ctx, c, pos).Ok?
    ensures ContextSimilarity(lists, c, ctx, pos).Ok? ==>
      ContextSimilarity(lists, c, ctx, pos) == ContextSimilarity(lists, ctx, c, pos)
  {
    ContextSimilarityMeaning(lists, c, ctx, pos);
    ContextSimilarityMeaning(lists, ctx, c, pos);
    if |pos| == 0 {
      assert AgreeingFrom(ListOf(lists, c), ListOf(lists, ctx), pos, 0, ValueEq) == Ok(0.0);
      assert AgreeingFrom(ListOf(lists, ctx), ListOf(lists, c), pos, 0, ValueEq) == Ok(0.0);
    } else if Reaches(ListOf(lists, c), pos) && Reaches(ListOf(lists, ctx), pos) {
      assert AgreeWeights(lists[c], lists[ctx], pos) == AgreeWeights(lists[ctx], lists[c], pos);
    }
  }

  /** A situation is fully similar to itself whenever the weights do not
      sum to zero. */
  lemma ContextSimilaritySelf(lists: map<nat, seq<nat>>, c: nat, pos: seq<real>)
    requires Reaches(ListOf(lists, c), pos)
    requires Sum(pos) != 0.0
    ensures ContextSimilarity(lists, c, c, pos) == Ok(Num(1.0))
  {
    ContextSimilarityMeaning(lists, c, c, pos);
    assert AgreeWeights(lists[c], lists[c], pos) == pos;
    assert Sum(pos) / Sum(pos) == 1.0;
  }

  /** Terms squeezed between zero and the matching weight give a sum
      squeezed between zero and the total weight. */
  lemma {:induction false} SumBetween(w: seq<real>, pos: seq<real>)
    requires |w| == |pos|
    requires forall i :: 0 <= i < |w| ==> 0.0 <= w[i] <= pos[i]
    ensures 0.0 <= Sum(w) <= Sum(pos)
  {
    if |w| > 0 {
      SumBetween(w[1..], pos[1..]);
    }
  }

  /** With non-negative weights of positive total, the similarity is a
      number in [0, 1]. */
  lemma ContextSimilarityBounds(lists: map<nat, seq<nat>>, c: nat, ctx: nat, pos: seq<real>)
    requires Reaches(ListOf(lists, c), pos) && Reaches(ListOf(lists, ctx), pos)
    requires forall i :: 0 <= i < |pos| ==> pos[i] >= 0.0
    requires Sum(pos) > 0.0
    ensures ContextSimilarity(lists, c, ctx, pos).Ok?
    ensures var s := ContextSimilarity(lists, c, ctx, pos).value; s.Num? && 0.0 <= s.v <= 1.0
  {
    ContextSimilarityMeaning(lists, c, ctx, pos);
    var w := AgreeWeights(lists[c], lists[ctx], pos);
    SumBetween(w, pos);
    DivBounds(Sum(w), Sum(pos), 0.0, 1.0);
  }

  /** The situation ctx is similar enough to c: its similarity is computed
      and reaches the threshold (a NaN similarity never does). */
  predicate Similar(lists: map<nat, seq<nat>>, c: nat, ctx: nat, pos: seq<real>, th: real) {
    var s := ContextSimilarity(lists, c, ctx, pos);
    s.Ok? && AtLeast(s.value, th)
  }

  /** The loop of ContextWeight over the row's cells (situation id and
      rating, in index order): the rating total and count of the similar
      situations. Every similarity is computed; the first failing one ends
      the loop. */
  function Accumulate(lists: map<nat, seq<nat>>, c: nat, cells: seq<(nat, real)>, pos: seq<real>, th: real): (r: Result<(real, nat)>)
  {
    if |cells| == 0 then Ok((0.0, 0))
    else
      var sim :- ContextSimilarity(lists, c, cells[0].0, pos);
      var rest :- Accumulate(lists, c, cells[1..], pos, th);
      if AtLeast(sim, th) then Ok((cells[0].1 + rest.0, rest.1 + 1)) else Ok(rest)
  }

  /** ContextWeight(c, cs, pos, sv): -1 when no situation qualifies,
      otherwise the rating total divided by the count. */
  function ContextWeight(lists: map<nat, seq<nat>>, c: nat, cells: seq<(nat, real)>, pos: seq<real>, th: real): (r: Result<real>)
  {
    var acc :- Accumulate(lists, c, cells, pos, th);
    if acc.1 == 0 then Ok(-1.0) else Ok(acc.0 / acc.1 as real)
  }

  /** ContextMatch(c, cs, pos): whether some situation of the row reaches
      the threshold; the loop stops at the first that does. */
  function ContextMatch(lists: map<nat, seq<nat>>, c: nat, cs: seq<nat>, pos: seq<real>, th: real): (r: Result<bool>)
  {
    if |cs| == 0 then Ok(false)
    else
      var sim :- ContextSimilarity(lists, c, cs[0], pos);
      if AtLeast(sim, th) then Ok(true) else ContextMatch(lists, c, cs[1..], pos, th)
  }

  /** The situation ids of a row. */
  function Ctxs(cells: seq<(nat, real)>): (cs: seq<nat>)
    ensures |cs| == |cells|
    ensures forall k :: 0 <= k < |cells| ==> cs[k] == cells[k].0
  {
    seq(|cells|, k requires 0 <= k < |cells| => cells[k].0)
  }

  /** The ratings of the similar situations of a row, in row order. */
  function SimilarRates(lists: map<nat, seq<nat>>, c: nat, cells: seq<(nat, real)>, pos: seq<real>, th: real): (rs: seq<real>)
  {
    if |cells| == 0 then []
    else
      var rest := SimilarRates(lists, c, cells[1..], pos, th);
      if Similar(lists, c, cells[0].0, pos, th) then [cells[0].1] + rest else rest
  }

  predicate AllComputed(lists: map<nat, seq<nat>>, c: nat, cs: seq<nat>, pos: seq<real>) {
    forall k :: 0 <= k < |cs| ==> ContextSimilarity(lists, c, cs[k], pos).Ok?
  }

  /** Every similarity is computed iff the first one and all later ones are. */
  lemma AllComputedCons(lists: map<nat, seq<nat>>, c: nat, cs: seq<nat>, pos: seq<real>)
    requires |cs| > 0
    ensures AllComputed(lists, c, cs, pos) <==>
      ContextSimilarity(lists, c, cs[0], pos).Ok? && AllComputed(lists, c, cs[1..], pos)
  {
    if ContextSimilarity(lists, c, cs[0], pos).Ok? && AllComputed(lists, c, cs[1..], pos) {
      forall k | 0 <= k < |cs| ensures ContextSimilarity(lists, c, cs[k], pos).Ok? {
        if k > 0 {
          assert cs[k] == cs[1..][k - 1];
        }
      }
    }
  }

  /** The accumulation completes iff every similarity of the row is
      computed, and then holds the total and the number of the similar
      situations' ratings. */
  lemma {:induction false} AccumulateMeaning(lists: map<nat, seq<nat>>, c: nat, cells: seq<(nat, real)>, pos: seq<real>, th: real)
    ensures Accumulate(lists, c, cells, pos, th).Ok? <==> AllComputed(lists, c, Ctxs(cells), pos)
    ensures Accumulate(lists, c, cells, pos, th).Ok? ==>
      var rs := SimilarRates(lists, c, cells, pos, th);
      Accumulate(lists, c, cells, pos, th).value == (Sum(rs), |rs|)
  {
    if |cells| > 0 {
      var rest := cells[1..];
      AccumulateMeaning(lists, c, rest, pos, th);
      assert Ctxs(rest) == Ctxs(cells)[1..];
      AllComputedCons(lists, c, Ctxs(cells), pos);
      var rs := SimilarRates(lists, c, rest, pos, th);
      if Similar(lists, c, cells[0].0, pos, th) {
        var all := [cells[0].1] + rs;
        assert all[1..] == rs;
      }
    }
  }

  /** ContextWeight is -1 when no situation of the row is similar enough,
      and otherwise the mean rating of those that are. */
  lemma ContextWeightMeaning(lists: map<nat, seq<nat>>, c: nat, cells: seq<(nat, real)>, pos: seq<real>, th: real)
    requires AllComputed(lists, c, Ctxs(cells), pos)
    ensures var rs := SimilarRates(lists, c, cells, pos, th);
      ContextWeight(lists, c, cells, pos, th) == Ok(if |rs| == 0 then -1.0 else Mean(rs))
  {
    AccumulateMeaning(lists, c, cells, pos, th);
  }

  /** When every similarity of the row is computed, ContextMatch says
      whether some situation of the row is similar enough. */
  lemma {:induction false} ContextMatchMeaning(lists: map<nat, seq<nat>>, c: nat, cs: seq<nat>, pos: seq<real>, th: real)
    requires AllComputed(lists, c, cs, pos)
    ensures ContextMatch(lists, c, cs, pos, th) == Ok(exists k :: 0 <= k < |cs| && Similar(lists, c, cs[k], pos, th))
  {
    if |cs| > 0 {
      ContextMatchMeaning(lists, c, cs[1..], pos, th);
      if !Similar(lists, c, cs[0], pos, th) {
        assert (exists k :: 0 <= k < |cs| && Similar(lists, c, cs[k], pos, th)) <==>
          (exists k :: 0 <= k < |cs| - 1 && Similar(lists, c, cs[1..][k], pos, th)) by {
          if exists k :: 0 <= k < |cs| && Similar(lists, c, cs[k], pos, th) {
            var k :| 0 <= k < |cs| && Similar(lists, c, cs[k], pos, th);
            assert cs[1..][k - 1] == cs[k];
          }
        }
      }
    }
  }

  /** Some rating is kept iff some situation of the row is similar enough. */
  lemma {:induction false} SimilarRatesNonEmpty(lists: map<nat, seq<nat>>, c: nat, cells: seq<(nat, real)>, pos: seq<real>, th: real)
    ensures |SimilarRates(lists, c, cells, pos, th)| > 0 <==>
      exists k :: 0 <= k < |cells| && Similar(lists, c, Ctxs(cells)[k], pos, th)
  {
    if |cells| > 0 {
      var rest := cells[1..];
      SimilarRatesNonEmpty(lists, c, rest, pos, th);
      assert forall k :: 0 <= k < |rest| ==> Ctxs(rest)[k] == Ctxs(cells)[k + 1];
      assert Ctxs(cells)[0] == cells[0].0;
      if !Similar(lists, c, cells[0].0, pos, th) {
        if exists k :: 0 <= k < |cells| && Similar(lists, c, Ctxs(cells)[k], pos, th) {
          var k :| 0 <= k < |cells| && Similar(lists, c, Ctxs(cells)[k], pos, th);
          assert k > 0;
          assert Similar(lists, c, Ctxs(rest)[k - 1], pos, th);
        }
        if exists k :: 0 <= k < |rest| && Similar(lists, c, Ctxs(rest)[k], pos, th) {
          var k :| 0 <= k < |rest| && Similar(lists, c, Ctxs(rest)[k], pos, th);
          assert Similar(lists, c, Ctxs(cells)[k + 1], pos, th);
        }
      }
    }
  }

  lemma {:induction false} SumNonNegative(xs: seq<real>)
    requires forall i :: 0 <= i < |xs| ==> xs[i] >= 0.0
    ensures Sum(xs) >= 0.0
  {
    if |xs| > 0 {
      SumNonNegative(xs[1..]);
    }
  }

  /** ContextMatch agrees with ContextWeight: whenever the weight is
      computed, so is the match, and the match holds iff the weight is
      taken over at least one situation; with non-negative ratings that is
      exactly when the weight is not -1. */
  lemma ContextMatchIffWeight(lists: map<nat, seq<nat>>, c: nat, cells: seq<(nat, real)>, pos: seq<real>, th: real)
    requires ContextWeight(lists, c, cells, pos, th).Ok?
    ensures ContextMatch(lists, c, Ctxs(cells), pos, th).Ok?
    ensures ContextMatch(lists, c, Ctxs(cells), pos, th).value <==> |SimilarRates(lists, c, cells, pos, th)| > 0
    ensures (forall k :: 0 <= k < |cells| ==> cells[k].1 >= 0.0) ==>
      (ContextWeight(lists, c, cells, pos, th).value == -1.0 <==> !ContextMatch(lists, c, Ctxs(cells), pos, th).value)
  {
    AccumulateMeaning(lists, c, cells, pos, th);
    ContextWeightMeaning(lists, c, cells, pos, th);
    ContextMatchMeaning(lists, c, Ctxs(cells), pos, th);
    SimilarRatesNonEmpty(lists, c, cells, pos, th);
    if forall k :: 0 <= k < |cells| ==> cells[k].1 >= 0.0 {
      var rs := SimilarRates(lists, c, cells, pos, th);
      SimilarRatesAtLeast(lists, c, cells, pos, th, 0.0);
      if |rs| > 0 {
        SumNonNegative(rs);
      }
    }
  }

  /** Every kept rating is a rating of the row, so a lower bound on the
      row's ratings bounds the kept ones. */
  lemma {:induction false} SimilarRatesAtLeast(lists: map<nat, seq<nat>>, c: nat, cells: seq<(nat, real)>, pos: seq<real>, th: real, lo: real)
    requires forall k :: 0 <= k < |cells| ==> cells[k].1 >= lo
    ensures forall i :: 0 <= i < |SimilarRates(lists, c, cells, pos, th)| ==> SimilarRates(lists, c, cells, pos, th)[i] >= lo
  {
    if |cells| > 0 {
      SimilarRatesAtLeast(lists, c, cells[1..], pos, th, lo);
    }
  }

  /** Two comparisons that agree on every id the first list can hold give
      the same agreeing weight. */
  lemma {:induction false} AgreeingFromCongruent(a: Option<seq<nat>>, b: Option<seq<nat>>, pos: seq<real>, i: nat, s1: (nat, nat) -> bool, s2: (nat, nat) -> bool)
    requires a.Some? ==> forall k, y :: 0 <= k < |a.value| ==> s1(a.value[k], y) == s2(a.value[k], y)
    ensures AgreeingFrom(a, b, pos, i, s1) == AgreeingFrom(a, b, pos, i, s2)
    decreases |pos| - i
  {
    if i < |pos| {
      AgreeingFromCongruent(a, b, pos, i + 1, s1, s2);
    }
  }

  /** The reference comparison gives the intended similarity when c and ctx
      are the same situation, or when no condition id of c exceeds the
      cache range. */
  lemma AsWrittenAgreesWithinCache(lists: map<nat, seq<nat>>, c: nat, ctx: nat, pos: seq<real>)
    requires c == ctx || (c in lists ==> forall k :: 0 <= k < |lists[c]| ==> lists[c][k] <= 127)
    ensures ContextSimilarityAsWritten(lists, c, ctx, pos) == ContextSimilarity(lists, c, ctx, pos)
  {
    AgreeingFromCongruent(ListOf(lists, c), ListOf(lists, ctx), pos, 0, BoxedCompare(c == ctx), ValueEq);
  }

  /** Two different situations holding condition 200 on the only weighted
      dimension: by value they are fully similar, by reference not at all. */
  lemma AsWrittenMissesSharedCondition()
    ensures ContextSimilarityAsWritten(map[0 := [200], 1 := [200]], 0, 1, [1.0]) == Ok(Num(0.0))
    ensures ContextSimilarity(map[0 := [200], 1 := [200]], 0, 1, [1.0]) == Ok(Num(1.0))
  {
    var lists := map[0 := [200], 1 := [200]];
    assert ListOf(lists, 0) == Some([200]);
    assert ListOf(lists, 1) == Some([200]);
    assert Sum([1.0]) == 1.0;
    assert AgreeingFrom(Some([200]), Some([200]), [1.0], 1, ValueEq) == Ok(0.0);
    assert AgreeingFrom(Some([200]), Some([200]), [1.0], 0, ValueEq) == Ok(1.0);
    assert !BoxedCompare(false)(200, 200);
    assert AgreeingFrom(Some([200]), Some([200]), [1.0], 1, BoxedCompare(false)) == Ok(0.0);
    assert AgreeingFrom(Some([200]), Some([200]), [1.0], 0, BoxedCompare(false)) == Ok(0.0);
  }
}
