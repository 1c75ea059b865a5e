/** Java's double division where the divisor can be zero. A model value is a
    real, except where a 0/0 (NaN) or x/0 (an infinity) changes what the
    toolkit does next: NaN predictions are skipped, infinite predictions are
    clamped, an empty matrix has a NaN mean. Rounding is not modelled. */
module Doubles {

  datatype Double = Num(v: real) | NaN | PosInf | NegInf

  /** a / b on finite operands (the sign of a zero divisor is not modelled). */
  function Div(a: real, b: real): (r: Double)
    ensures b != 0.0 ==> r == Num(a / b)
    ensures b == 0.0 ==> !r.Num?
    ensures r.NaN? <==> a == 0.0 && b == 0.0
  {
    if b != 0.0 then Num(a / b)
    else if a > 0.0 then PosInf
    else if a < 0.0 then NegInf
    else NaN
  }

  /** Java's `x > y`: false whenever x is NaN. */
  predicate Greater(x: Double, y: real) {
    match x
    case Num(v) => v > y
    case PosInf => true
    case NegInf => false
    case NaN => false
  }

  /** Java's `x < y`: false whenever x is NaN. */
  predicate Less(x: Double, y: real) {
    match x
    case Num(v) => v < y
    case PosInf => false
    case NegInf => true
    case NaN => false
  }

  /** Java's `x >= y`: false whenever x is NaN. */
  predicate AtLeast(x: Double, y: real) {
    Greater(x, y) || x == Num(y)
  }

  /** No Java comparison with NaN holds. */
  lemma NaNComparesFalse(y: real)
    ensures !Greater(NaN, y) && !Less(NaN, y) && !AtLeast(NaN, y)
  {
  }
}

/** Sums and means of finite sequences of reals. A Java loop that adds
    doubles in some iteration order is modelled by the exact sum, so the
    order does not matter (see SumOfPermutation). */
module Sums {

  function SumOf<T>(xs: seq<T>, f: T -> real): real {
    if |xs| == 0 then 0.0 else f(xs[0]) + SumOf(xs[1..], f)
  }

  function RealId(x: real): real {
    x
  }

  function Sum(xs: seq<real>): real {
    SumOf(xs, RealId)
  }

  lemma {:induction false} SumOfAppend<T>(a: seq<T>, b: seq<T>, f: T -> real)
    ensures SumOf(a + b, f) == SumOf(a, f) + SumOf(b, f)
  {
    if |a| > 0 {
      assert (a + b)[1..] == a[1..] + b;
      SumOfAppend(a[1..], b, f);
    } else {
      assert a + b == b;
    }
  }

  lemma SumAppend(a: seq<real>, b: seq<real>)
    ensures Sum(a + b) == Sum(a) + Sum(b)
  {
    SumOfAppend(a, b, RealId);
  }

  /** Removing the element at position j takes its value off the sum. */
  lemma SumOfRemove<T>(b: seq<T>, j: int, f: T -> real)
    requires 0 <= j < |b|
    ensures SumOf(b, f) == f(b[j]) + SumOf(b[..j] + b[j + 1..], f)
  {
    assert b == b[..j] + [b[j]] + b[j + 1..];
    SumOfAppend(b[..j] + [b[j]], b[j + 1..], f);
    SumOfAppend(b[..j], [b[j]], f);
    SumOfAppend(b[..j], b[j + 1..], f);
  }

  /** A sum does not depend on the order of its terms. */
  lemma {:induction false} SumOfPermutation<T>(a: seq<T>, b: seq<T>, f: T -> real)
    requires multiset(a) == multiset(b)
    ensures SumOf(a, f) == SumOf(b, f)
  {
    if |a| > 0 {
      assert a[0] in multiset(b);
      var j :| 0 <= j < |b| && b[j] == a[0];
      var b' := b[..j] + b[j + 1..];
      assert b == b[..j] + [b[j]] + b[j + 1..];
      assert multiset(b') == multiset(b) - multiset{a[0]};
      assert a == [a[0]] + a[1..];
      assert multiset(a[1..]) == multiset(a) - multiset{a[0]};
      SumOfPermutation(a[1..], b', f);
      SumOfRemove(b, j, f);
    } else {
      assert |multiset(b)| == 0;
    }
  }

  /** Terms that agree give equal sums. */
  lemma {:induction false} SumOfPointwise<T>(xs: seq<T>, f: T -> real, g: T -> real)
    requires forall i :: 0 <= i < |xs| ==> f(xs[i]) == g(xs[i])
    ensures SumOf(xs, f) == SumOf(xs, g)
  {
    if |xs| > 0 {
      SumOfPointwise(xs[1..], f, g);
    }
  }

  /** Bounds on every term bound the sum. */
  lemma {:induction false} SumOfBounds<T>(xs: seq<T>, f: T -> real, lo: real, hi: real)
    requires forall i :: 0 <= i < |xs| ==> lo <= f(xs[i]) <= hi
    ensures |xs| as real * lo <= SumOf(xs, f) <= |xs| as real * hi
  {
    if |xs| > 0 {
      SumOfBounds(xs[1..], f, lo, hi);
    }
  }

  /** The arithmetic mean of a non-empty sequence. */
  function Mean(xs: seq<real>): real
    requires |xs| > 0
  {
    Sum(xs) / |xs| as real
  }

  /** A mean lies between the smallest and the largest element. */
  lemma MeanBounds(xs: seq<real>, lo: real, hi: real)
    requires |xs| > 0
    requires forall i :: 0 <= i < |xs| ==> lo <= xs[i] <= hi
    ensures lo <= Mean(xs) <= hi
  {
    SumOfBounds(xs, RealId, lo, hi);
    DivBounds(Sum(xs), |xs| as real, lo, hi);
  }

  /** A total between n*lo and n*hi, divided by n, lies between lo and hi. */
  lemma DivBounds(s: real, n: real, lo: real, hi: real)
    requires n > 0.0
    requires n * lo <= s <= n * hi
    ensures lo <= s / n <= hi
  {
    var q := s / n;
    assert (q - lo) * n == s - n * lo;
    assert (hi - q) * n == n * hi - s;
    NonNegFactor(q - lo, n);
    NonNegFactor(hi - q, n);
  }

  lemma NonNegFactor(x: real, n: real)
    requires n > 0.0 && x * n >= 0.0
    ensures x >= 0.0
  {
  }

  // ---------------------------------------------------------------------
  // Weighted sums over (weight, value) pairs

  function Weight(p: (real, real)): real {
    p.0
  }

  function AbsWeight(p: (real, real)): real {
    if p.0 >= 0.0 then p.0 else -p.0
  }

  function Product(p: (real, real)): real {
    p.0 * p.1
  }

  /** Σ weight · value. */
  function WeightedSum(ps: seq<(real, real)>): real {
    SumOf(ps, Product)
  }

  /** Σ weight. */
  function TotalWeight(ps: seq<(real, real)>): real {
    SumOf(ps, Weight)
  }

  /** Σ |weight|. */
  function TotalAbsWeight(ps: seq<(real, real)>): real {
    SumOf(ps, AbsWeight)
  }

  /** Non-negative weights and values in [lo, hi]: the weighted sum lies
      between lo and hi times the total weight. */
  lemma {:induction false} WeightedSumBounds(ps: seq<(real, real)>, lo: real, hi: real)
    requires forall k :: 0 <= k < |ps| ==> ps[k].0 >= 0.0 && lo <= ps[k].1 <= hi
    ensures lo * TotalWeight(ps) <= WeightedSum(ps) <= hi * TotalWeight(ps)
  {
    if |ps| > 0 {
      WeightedSumBounds(ps[1..], lo, hi);
      var p := ps[0];
      assert lo * p.0 <= p.0 * p.1 <= hi * p.0 by {
        assert p.0 * (p.1 - lo) >= 0.0;
        assert p.0 * (hi - p.1) >= 0.0;
      }
    }
  }

  /** A weighted mean with non-negative weights and positive total weight
      lies between the smallest and the largest value. */
  lemma WeightedMeanBounds(ps: seq<(real, real)>, lo: real, hi: real)
    requires forall k :: 0 <= k < |ps| ==> ps[k].0 >= 0.0 && lo <= ps[k].1 <= hi
    requires TotalWeight(ps) > 0.0
    ensures lo <= WeightedSum(ps) / TotalWeight(ps) <= hi
  {
    WeightedSumBounds(ps, lo, hi);
    DivBounds(WeightedSum(ps), TotalWeight(ps), lo, hi);
  }

  /** Positive weights have a positive total, equal to the total of their
      absolute values. */
  lemma {:induction false} PositiveWeights(ps: seq<(real, real)>)
    requires |ps| > 0
    requires forall k :: 0 <= k < |ps| ==> ps[k].0 > 0.0
    ensures TotalWeight(ps) > 0.0
    ensures TotalAbsWeight(ps) == TotalWeight(ps)
  {
    assert ps[0].0 > 0.0;
    assert TotalWeight(ps) == Weight(ps[0]) + TotalWeight(ps[1..]);
    assert TotalAbsWeight(ps) == AbsWeight(ps[0]) + TotalAbsWeight(ps[1..]);
    if |ps| > 1 {
      PositiveWeights(ps[1..]);
    } else {
      assert ps[1..] == [];
    }
  }

  /** Bounds on two sums of a and b terms add up. */
  lemma AddBounds(a: real, b: real, x: real, y: real, lo: real, hi: real)
    requires a * lo <= x <= a * hi
    requires b * lo <= y <= b * hi
    ensures (a + b) * lo <= x + y <= (a + b) * hi
  {
    assert (a + b) * lo == a * lo + b * lo;
    assert (a + b) * hi == a * hi + b * hi;
  }
}
