/** DataSplitter: k-fold cross-validation folds and the ratio split of a
    rating matrix. The uniform draws of Randoms.uniform and Math.random are
    inputs, one per stored rating in row order. */
module DataSplitter {
  import opened Wrappers
  import opened SparseMatrices
  import opened Sorting

  /** numFold: the requested number of folds, capped at the number of
      ratings. */
  function NumFold(kfold: int, n: nat): (k: int)
    ensures k <= n && k <= kfold
    ensures k == kfold || k == n
  {
    if kfold > n then n else kfold
  }

  /** fold[i] = (int)(i / indvCount) + 1 with indvCount = n / numFold,
      computed exactly: floor(i * numFold / n) + 1. */
  function Labels(n: nat, k: nat): (ls: seq<nat>)
    requires 0 < k <= n
    ensures |ls| == n
    ensures forall i :: 0 <= i < n ==> 1 <= ls[i] <= k
  {
    seq(n, i requires 0 <= i < n => Label(i, n, k))
  }

  /** The label of position i. */
  function Label(i: nat, n: nat, k: nat): (l: nat)
    requires 0 < k <= n && i < n
    ensures 1 <= l <= k
  {
    LabelBound(i, n, k);
    i * k / n + 1
  }

  lemma LabelBound(i: nat, n: nat, k: nat)
    requires 0 < k <= n && i < n
    ensures i * k / n < k
  {
    assert i * k < n * k by {
      MulLess(i, n, k);
    }
    var q := i * k / n;
    assert q * n <= i * k;
    if q >= k {
      MulMono(k, q, n);
    }
  }

  lemma MulLess(a: nat, b: nat, c: nat)
    requires a < b && c > 0
    ensures a * c < b * c
  {
  }

  lemma MulMono(a: nat, b: nat, c: nat)
    requires a <= b
    ensures a * c <= b * c
  {
  }

  // ---------------------------------------------------------------------
  // Fold sizes

  /** The number of i < m whose label is at most f. */
  function CountUpTo(n: nat, k: nat, m: nat, f: int): nat
    requires 0 < k <= n && m <= n
  {
    if m == 0 then 0
    else CountUpTo(n, k, m - 1, f) + (if (m - 1) * k / n + 1 <= f then 1 else 0)
  }

  /** Ceiling of b / k. */
  function Ceil(b: nat, k: nat): nat
    requires k > 0
  {
    (b + k - 1) / k
  }

  /** i < ceil(b / k) exactly when i * k < b. */
  lemma CeilMeaning(i: nat, b: nat, k: nat)
    requires k > 0
    ensures i < Ceil(b, k) <==> i * k < b
  {
    var c := Ceil(b, k);
    assert c * k <= b + k - 1 < c * k + k;
    if i < c {
      MulMono(i, c - 1, k);
      assert (c - 1) * k == c * k - k;
    } else {
      MulMono(c, i, k);
    }
  }

  /** floor(a / n) < f exactly when a < f * n. */
  lemma FloorMeaning(a: nat, n: nat, f: int)
    requires n > 0
    ensures a / n < f <==> a < f * n
  {
    var q := a / n;
    assert q * n <= a < q * n + n;
    if f <= 0 {
      assert f * n <= 0;
    } else if q < f {
      MulMono(q + 1, f, n);
    } else {
      MulMono(f, q, n);
    }
  }

  /** The labels are non-decreasing: the i with label at most f are the
      first ceil(f * n / k) of them. */
  lemma {:induction false} CountUpToValue(n: nat, k: nat, m: nat, f: nat)
    requires 0 < k <= n && m <= n
    ensures CountUpTo(n, k, m, f) == if m < Ceil(f * n, k) then m else Ceil(f * n, k)
  {
    if m > 0 {
      CountUpToValue(n, k, m - 1, f);
      FloorMeaning((m - 1) * k, n, f);
      CeilMeaning(m - 1, f * n, k);
      assert f * n == n * f;
    }
  }

  /** How many labels equal f, counted on a prefix. */
  lemma {:induction false} OccurrencesOfLabel(n: nat, k: nat, m: nat, f: nat)
    requires 0 < k <= n && m <= n && f >= 1
    ensures multiset(Labels(n, k)[..m])[f] == CountUpTo(n, k, m, f) - CountUpTo(n, k, m, f - 1)
  {
    var ls := Labels(n, k);
    if m > 0 {
      OccurrencesOfLabel(n, k, m - 1, f);
      assert ls[..m] == ls[..m - 1] + [ls[m - 1]];
      CountUpToMono(n, k, m - 1, f);
    }
  }

  lemma {:induction false} CountUpToMono(n: nat, k: nat, m: nat, f: nat)
    requires 0 < k <= n && m <= n && f >= 1
    ensures CountUpTo(n, k, m, f - 1) <= CountUpTo(n, k, m, f)
  {
    if m > 0 {
      CountUpToMono(n, k, m - 1, f);
    }
  }

  /** ceil(x / k) · k is the least multiple of k not below x. */
  lemma CeilBracket(x: nat, k: nat)
    requires k > 0
    ensures x <= Ceil(x, k) * k <= x + k - 1
  {
    var c := Ceil(x, k);
    assert x + k - 1 == c * k + (x + k - 1) % k;
  }

  /** Multiplying by a positive number keeps a strict order. */
  lemma MulCancelLess(a: int, b: int, k: int)
    requires k > 0 && a * k < b * k
    ensures a < b
  {
    assert b * k - a * k == (b - a) * k;
    MulSign(b - a, k);
  }

  lemma MulSign(x: int, k: int)
    requires k > 0
    ensures x <= 0 ==> x * k <= 0
  {
  }

  /** Consecutive ceilings of multiples of n / k differ by n / k or by one
      more. */
  lemma CeilStep(n: nat, k: nat, f: nat)
    requires 0 < k && 1 <= f
    ensures n / k <= Ceil(f * n, k) - Ceil((f - 1) * n, k) <= n / k + 1
  {
    var hi := Ceil(f * n, k);
    var lo := Ceil((f - 1) * n, k);
    var q := n / k;
    CeilBracket(f * n, k);
    CeilBracket((f - 1) * n, k);
    assert f * n == (f - 1) * n + n;
    assert n == q * k + n % k;
    var d := hi - lo;
    assert d * k == hi * k - lo * k;
    assert (q - 1) * k == q * k - k;
    assert (q + 2) * k == q * k + 2 * k;
    MulCancelLess(q - 1, d, k);
    MulCancelLess(d, q + 2, k);
  }

  /** At most k folds of n / k cover at most n positions. */
  lemma CeilAtMost(n: nat, k: nat, g: nat)
    requires 0 < k && g <= k
    ensures Ceil(g * n, k) <= n
  {
    MulMono(g, k, n);
    assert k * n == n * k;
    CeilMeaning(n, g * n, k);
  }

  /** The size of fold f, from the counts of labels up to f and f - 1. */
  lemma LabelCount(n: nat, k: nat, f: nat)
    requires 0 < k <= n && f >= 1
    ensures multiset(Labels(n, k))[f] == CountUpTo(n, k, n, f) - CountUpTo(n, k, n, f - 1)
  {
    var ls := Labels(n, k);
    assert ls[..n] == ls;
    OccurrencesOfLabel(n, k, n, f);
  }

  /** Over all n positions, ceil(g * n / k) labels are at most g. */
  lemma CountUpToCeil(n: nat, k: nat, g: nat)
    requires 0 < k <= n && g <= k
    ensures CountUpTo(n, k, n, g) == Ceil(g * n, k)
  {
    CountUpToValue(n, k, n, g);
    CeilAtMost(n, k, g);
  }

  /** Every fold gets n / numFold or n / numFold + 1 ratings. */
  lemma FoldSize(n: nat, k: nat, f: nat)
    requires 0 < k <= n && 1 <= f <= k
    ensures n / k <= multiset(Labels(n, k))[f] <= n / k + 1
  {
    LabelCount(n, k, f);
    CountUpToCeil(n, k, f);
    CountUpToCeil(n, k, f - 1);
    CeilStep(n, k, f);
  }

  /** Any two folds differ in size by at most one. */
  lemma FoldsBalanced(n: nat, k: nat, a: nat, b: nat)
    requires 0 < k <= n && 1 <= a <= k && 1 <= b <= k
    ensures multiset(Labels(n, k))[a] <= multiset(Labels(n, k))[b] + 1
  {
    FoldSize(n, k, a);
    FoldSize(n, k, b);
  }

  // ---------------------------------------------------------------------
  // Shuffling

  /** A random draw and the label it carries through the sort. */
  datatype Tagged = Tagged(draw: real, fold: nat)

  function NegDraw(t: Tagged): real {
    -t.draw
  }

  function Tags(draws: seq<real>, labels: seq<nat>): (ts: seq<Tagged>)
    requires |draws| == |labels|
    ensures |ts| == |labels|
    ensures forall i :: 0 <= i < |ts| ==> ts[i] == Tagged(draws[i], labels[i])
  {
    seq(|labels|, i requires 0 <= i < |labels| => Tagged(draws[i], labels[i]))
  }

  function LabelsOf(ts: seq<Tagged>): (ls: seq<nat>)
    ensures |ls| == |ts|
  {
    if |ts| == 0 then [] else [ts[0].fold] + LabelsOf(ts[1..])
  }

  lemma {:induction false} LabelsOfAppend(a: seq<Tagged>, b: seq<Tagged>)
    ensures LabelsOf(a + b) == LabelsOf(a) + LabelsOf(b)
  {
    if |a| > 0 {
      assert (a + b)[1..] == a[1..] + b;
      LabelsOfAppend(a[1..], b);
    } else {
      assert a + b == b;
    }
  }

  lemma {:induction false} LabelsOfTags(draws: seq<real>, labels: seq<nat>)
    requires |draws| == |labels|
    ensures LabelsOf(Tags(draws, labels)) == labels
  {
    if |labels| > 0 {
      assert Tags(draws, labels)[1..] == Tags(draws[1..], labels[1..]);
      LabelsOfTags(draws[1..], labels[1..]);
    }
  }

  /** Taking one pair out takes its label out. */
  lemma LabelsOfRemove(p: seq<Tagged>, x: Tagged, q: seq<Tagged>)
    ensures multiset(LabelsOf(p + [x] + q)) == multiset(LabelsOf(p + q)) + multiset{x.fold}
  {
    LabelsOfAppend(p + [x], q);
    LabelsOfAppend(p, [x]);
    LabelsOfAppend(p, q);
    assert LabelsOf([x]) == [x.fold];
  }

  lemma MultisetRemove<T>(b: seq<T>, j: nat)
    requires j < |b|
    ensures b == b[..j] + [b[j]] + b[j + 1..]
    ensures multiset(b[..j] + b[j + 1..]) == multiset(b) - multiset{b[j]}
  {
    assert b == b[..j] + [b[j]] + b[j + 1..];
  }

  lemma PositionOf<T>(b: seq<T>, x: T) returns (j: nat)
    requires x in multiset(b)
    ensures j < |b| && b[j] == x
  {
    assert x in b;
    j :| 0 <= j < |b| && b[j] == x;
  }

  /** Matching the first pair of `a` with its copy in `b` leaves two
      shorter lists that are permutations of each other and whose labels
      decide those of `a` and `b`. */
  lemma MatchFirst(a: seq<Tagged>, b: seq<Tagged>) returns (a': seq<Tagged>, b': seq<Tagged>)
    requires |a| > 0 && multiset(a) == multiset(b)
    ensures |a'| < |a| && multiset(a') == multiset(b')
    ensures multiset(LabelsOf(a')) == multiset(LabelsOf(b')) ==> multiset(LabelsOf(a)) == multiset(LabelsOf(b))
  {
    var x := a[0];
    assert x in multiset(b) by {
      assert x in multiset(a);
    }
    var j := PositionOf(b, x);
    var p, q := b[..j], b[j + 1..];
    a', b' := a[1..], p + q;
    assert multiset(a') == multiset(b') by {
      MultisetRemove(b, j);
      assert a == [x] + a[1..];
    }
    assert multiset(LabelsOf(b)) == multiset(LabelsOf(b')) + multiset{x.fold} by {
      MultisetRemove(b, j);
      LabelsOfRemove(p, x, q);
    }
    assert LabelsOf(a) == [x.fold] + LabelsOf(a');
  }

  /** Permuting the tagged pairs permutes their labels. */
  lemma {:induction false} LabelsOfPermutation(a: seq<Tagged>, b: seq<Tagged>)
    requires multiset(a) == multiset(b)
    ensures multiset(LabelsOf(a)) == multiset(LabelsOf(b))
    decreases |a|
  {
    if |a| > 0 {
      var a', b' := MatchFirst(a, b);
      LabelsOfPermutation(a', b');
    } else {
      assert |b| == |multiset(b)| == |multiset(a)| == 0;
    }
  }

  /** Sortor.quickSort(rdm, fold, ...): the labels reordered by ascending
      draw. */
  function Shuffle(draws: seq<real>, labels: seq<nat>): (r: seq<nat>)
    requires |draws| == |labels|
    ensures |r| == |labels|
    ensures multiset(r) == multiset(labels)
  {
    var sorted := SortDesc(Tags(draws, labels), NegDraw);
    LabelsOfPermutation(sorted, Tags(draws, labels));
    LabelsOfTags(draws, labels);
    LabelsOf(sorted)
  }

  // ---------------------------------------------------------------------
  // Folds

  /** A splitter after splitFolds: the ratings, numFold, and the fold label
      of each stored rating in row order (assignMatrix). */
  datatype Splitter = Splitter(m: Matrix, numFold: int, labels: seq<nat>)

  /** The constructor DataSplitter(rateMatrix, kfold); kfold > 0 is the
      method's stated assertion. */
  function SplitFolds(m: Matrix, kfold: int, draws: seq<real>): (sp: Splitter)
    requires kfold > 0
    requires |draws| == |m|
    ensures sp.m == m && sp.numFold == NumFold(kfold, |m|)
    ensures |sp.labels| == |m|
    ensures forall i :: 0 <= i < |m| ==> 1 <= sp.labels[i] <= sp.numFold
    ensures |m| > 0 ==> multiset(sp.labels) == multiset(Labels(|m|, sp.numFold))
  {
    var k := NumFold(kfold, |m|);
    if |m| == 0 then Splitter(m, k, [])
    else
      var ls := Shuffle(draws, Labels(|m|, k));
      assert forall i :: 0 <= i < |m| ==> 1 <= ls[i] <= k by {
        forall i | 0 <= i < |m| ensures 1 <= ls[i] <= k {
          assert ls[i] in multiset(Labels(|m|, k));
        }
      }
      Splitter(m, k, ls)
  }

  /** After shuffling, the folds still differ in size by at most one. */
  lemma ShuffledFoldsBalanced(m: Matrix, kfold: int, draws: seq<real>, a: nat, b: nat)
    requires kfold > 0 && |draws| == |m|
    requires 1 <= a <= NumFold(kfold, |m|) && 1 <= b <= NumFold(kfold, |m|)
    ensures multiset(SplitFolds(m, kfold, draws).labels)[a] <= multiset(SplitFolds(m, kfold, draws).labels)[b] + 1
  {
    FoldsBalanced(|m|, NumFold(kfold, |m|), a, b);
  }

  /** The stored ratings at the selected positions, without the zero
      values that SparseMatrix.reshape removes. */
  function Keep(m: Matrix, sel: seq<bool>): (s: Matrix)
    requires |sel| == |m|
    ensures forall e :: e in s ==> e in m && e.val != 0.0
  {
    if |m| == 0 then []
    else
      var n := |m| - 1;
      var rest := Keep(m[..n], sel[..n]);
      if sel[n] && m[n].val != 0.0 then rest + [m[n]] else rest
  }

  function Not(sel: seq<bool>): (r: seq<bool>)
    ensures |r| == |sel|
    ensures forall i :: 0 <= i < |sel| ==> r[i] == !sel[i]
  {
    seq(|sel|, i requires 0 <= i < |sel| => !sel[i])
  }

  function All(n: nat): (r: seq<bool>)
    ensures |r| == n && forall i :: 0 <= i < n ==> r[i]
  {
    seq(n, i => true)
  }

  /** A selection and its complement split the non-zero ratings exactly. */
  lemma {:induction false} KeepPartition(m: Matrix, sel: seq<bool>)
    requires |sel| == |m|
    ensures multiset(Keep(m, sel)) + multiset(Keep(m, Not(sel))) == multiset(Keep(m, All(|m|)))
  {
    if |m| > 0 {
      var n := |m| - 1;
      assert Not(sel)[..n] == Not(sel[..n]);
      assert All(|m|)[..n] == All(n);
      KeepPartition(m[..n], sel[..n]);
    }
  }

  /** In a well-formed matrix a stored rating is kept exactly when its
      position is selected and its value is not zero. */
  lemma {:induction false} KeepMembers(m: Matrix, sel: seq<bool>, i: nat)
    requires |sel| == |m| && WellFormed(m) && i < |m|
    ensures m[i] in Keep(m, sel) <==> sel[i] && m[i].val != 0.0
  {
    var n := |m| - 1;
    PrefixWellFormed(m, n);
    if i < n {
      assert m[..n][i] == m[i];
      KeepMembers(m[..n], sel[..n], i);
      if m[n] == m[i] {
        WellFormedDistinct(m, i, n);
      }
    } else if !(sel[n] && m[n].val != 0.0) && m[n] in Keep(m[..n], sel[..n]) {
      var j :| 0 <= j < n && m[..n][j] == m[n];
      WellFormedDistinct(m, j, n);
    }
  }

  lemma PrefixWellFormed(m: Matrix, n: nat)
    requires WellFormed(m) && n <= |m|
    ensures WellFormed(m[..n])
  {
    forall i, j | 0 <= i < j < n
      ensures (m[..n][i].row, m[..n][i].col) != (m[..n][j].row, m[..n][j].col)
    {
      WellFormedDistinct(m, i, j);
    }
    DistinctWellFormed(m[..n]);
  }

  /** Pairwise different cells make a well-formed matrix. */
  lemma {:induction false} DistinctWellFormed(m: Matrix)
    requires forall i, j :: 0 <= i < j < |m| ==> (m[i].row, m[i].col) != (m[j].row, m[j].col)
    ensures WellFormed(m)
  {
    if |m| > 0 {
      DistinctWellFormed(m[1..]);
      forall j | 0 <= j < |m[1..]| ensures (m[1..][j].row, m[1..][j].col) != (m[0].row, m[0].col) {
        assert m[1..][j] == m[j + 1];
      }
      NotInKeys(m[1..], m[0].row, m[0].col);
    }
  }

  lemma {:induction false} NotInKeys(m: Matrix, r: nat, c: nat)
    requires forall j :: 0 <= j < |m| ==> (m[j].row, m[j].col) != (r, c)
    ensures (r, c) !in Keys(m)
  {
    if |m| > 0 {
      forall j | 0 <= j < |m[1..]| ensures (m[1..][j].row, m[1..][j].col) != (r, c) {
        assert m[1..][j] == m[j + 1];
      }
      NotInKeys(m[1..], r, c);
    }
  }

  /** selection of the positions whose label is not k (train) */
  function NotLabelled(labels: seq<nat>, k: int): (sel: seq<bool>)
    ensures |sel| == |labels|
    ensures forall i :: 0 <= i < |labels| ==> sel[i] == (labels[i] != k)
  {
    seq(|labels|, i requires 0 <= i < |labels| => labels[i] != k)
  }

  /** getKthFold(k): null outside 1..numFold; otherwise the ratings not in
      fold k (train) and those in it (test). */
  function KthFold(sp: Splitter, k: int): (r: Option<(Matrix, Matrix)>)
    requires |sp.labels| == |sp.m|
    ensures r.None? <==> k > sp.numFold || k < 1
    ensures r.Some? ==> r.value.0 == Keep(sp.m, NotLabelled(sp.labels, k))
    ensures r.Some? ==> r.value.1 == Keep(sp.m, Not(NotLabelled(sp.labels, k)))
  {
    if k > sp.numFold || k < 1 then None
    else
      var sel := NotLabelled(sp.labels, k);
      Some((Keep(sp.m, sel), Keep(sp.m, Not(sel))))
  }

  /** Train and test of a fold are disjoint, together they are all the
      non-zero ratings, and a rating is in test exactly when its label is k. */
  lemma KthFoldPartition(sp: Splitter, k: int)
    requires |sp.labels| == |sp.m| && WellFormed(sp.m)
    requires 1 <= k <= sp.numFold
    ensures var r := KthFold(sp, k).value;
      multiset(r.0) + multiset(r.1) == multiset(Keep(sp.m, All(|sp.m|)))
      && (forall i :: 0 <= i < |sp.m| && sp.m[i].val != 0.0 ==>
            (sp.m[i] in r.1 <==> sp.labels[i] == k) && (sp.m[i] in r.0 <==> sp.labels[i] != k))
      && (forall e :: !(e in r.0 && e in r.1))
  {
    var sel := NotLabelled(sp.labels, k);
    var r := KthFold(sp, k).value;
    KeepPartition(sp.m, sel);
    forall i | 0 <= i < |sp.m|
      ensures sp.m[i] in r.1 <==> sel[i] == false && sp.m[i].val != 0.0
      ensures sp.m[i] in r.0 <==> sel[i] && sp.m[i].val != 0.0
    {
      KeepMembers(sp.m, sel, i);
      KeepMembers(sp.m, Not(sel), i);
    }
    forall e | e in r.0 ensures e !in r.1 {
      var i :| 0 <= i < |sp.m| && sp.m[i] == e;
    }
  }

  /** Over the folds 1..numFold, each non-zero rating is in exactly one
      test set: the one of its label. */
  lemma EachRatingTestedOnce(sp: Splitter, i: nat)
    requires |sp.labels| == |sp.m| && WellFormed(sp.m)
    requires forall j :: 0 <= j < |sp.m| ==> 1 <= sp.labels[j] <= sp.numFold
    requires i < |sp.m| && sp.m[i].val != 0.0
    ensures 1 <= sp.labels[i] <= sp.numFold
    ensures forall k :: 1 <= k <= sp.numFold ==> (sp.m[i] in KthFold(sp, k).value.1 <==> k == sp.labels[i])
  {
    forall k | 1 <= k <= sp.numFold
      ensures sp.m[i] in KthFold(sp, k).value.1 <==> k == sp.labels[i]
    {
      KthFoldPartition(sp, k);
    }
  }

  // ---------------------------------------------------------------------
  // Ratio split

  function Below(draws: seq<real>, ratio: real): (sel: seq<bool>)
    ensures |sel| == |draws|
    ensures forall i :: 0 <= i < |draws| ==> sel[i] == (draws[i] < ratio)
  {
    seq(|draws|, i requires 0 <= i < |draws| => draws[i] < ratio)
  }

  /** getRatioByRating(ratio): a rating whose draw is below the ratio stays
      in train, the others go to test. */
  function RatioByRating(m: Matrix, ratio: real, draws: seq<real>): (r: (Matrix, Matrix))
    requires |draws| == |m|
    ensures r.0 == Keep(m, Below(draws, ratio))
    ensures r.1 == Keep(m, Not(Below(draws, ratio)))
  {
    var sel := Below(draws, ratio);
    (Keep(m, sel), Keep(m, Not(sel)))
  }

  /** Every non-zero rating lands on exactly one side. */
  lemma RatioPartition(m: Matrix, ratio: real, draws: seq<real>)
    requires |draws| == |m| && WellFormed(m)
    ensures var r := RatioByRating(m, ratio, draws);
      multiset(r.0) + multiset(r.1) == multiset(Keep(m, All(|m|)))
      && forall i :: 0 <= i < |m| && m[i].val != 0.0 ==>
           (m[i] in r.0 <==> draws[i] < ratio) && (m[i] in r.1 <==> !(draws[i] < ratio))
  {
    var sel := Below(draws, ratio);
    KeepPartition(m, sel);
    forall i | 0 <= i < |m|
      ensures m[i] in Keep(m, sel) <==> sel[i] && m[i].val != 0.0
      ensures m[i] in Keep(m, Not(sel)) <==> !sel[i] && m[i].val != 0.0
    {
      KeepMembers(m, sel, i);
      KeepMembers(m, Not(sel), i);
    }
  }
}
