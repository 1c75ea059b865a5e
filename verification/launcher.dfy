/** The deterministic parts of the CARSKit launcher: recognising the format
    of a rating file from its first two lines, loading a test set into the
    registries of the training set, averaging the measures of the
    cross-validation folds, and choosing a recommender by its tag. */
module CARSKit {
  import opened Wrappers
  import opened Text
  import opened Registries
  import opened DataDAO
  import DataTransformer

  // ---------------------------------------------------------------------
  // isBinaryNumber

  /** Java's int division and remainder round toward zero, so the
      remainder of a negative number is never positive. */
  function JavaDiv(a: int, b: int): (q: int)
    requires b > 0
    ensures a >= 0 ==> q == a / b
    ensures a < 0 ==> q == -((-a) / b)
  {
    if a >= 0 then a / b else -((-a) / b)
  }

  function JavaRem(a: int, b: int): (r: int)
    requires b > 0
    ensures a == JavaDiv(a, b) * b + r
    ensures a >= 0 ==> 0 <= r < b
    ensures a < 0 ==> -b < r <= 0
  {
    if a >= 0 then a % b else -((-a) % b)
  }

  /** No character of the string is above '1'. */
  predicate AtMostOnes(s: string) {
    forall i :: 0 <= i < |s| ==> s[i] <= '1'
  }

  /** What isBinaryNumber decides: no decimal digit of the number exceeds
      1. The remainder of a negative number is never above 0, so every
      negative number passes. */
  predicate BinaryNumber(n: int) {
    n < 0 || AtMostOnes(NatToString(n))
  }

  /** Digit-by-digit view of the same test, least significant digit
      first, as the loop walks it. */
  predicate SmallDigits(n: nat) {
    n == 0 || (n % 10 <= 1 && SmallDigits(n / 10))
  }

  lemma {:induction false} SmallDigitsString(n: nat)
    ensures SmallDigits(n) <==> AtMostOnes(NatToString(n))
  {
    var d := n % 10;
    assert DigitChar(d) <= '1' <==> d <= 1;
    if n >= 10 {
      assert SmallDigits(n) <==> d <= 1 && SmallDigits(n / 10);
      SmallDigitsString(n / 10);
      assert NatToString(n) == NatToString(n / 10) + [DigitChar(d)];
      AtMostOnesAppend(NatToString(n / 10), DigitChar(d));
    } else {
      assert n / 10 == 0 && d == n && SmallDigits(0);
      assert NatToString(n) == [] + [DigitChar(d)];
      AtMostOnesAppend([], DigitChar(d));
    }
  }

  lemma AtMostOnesAppend(t: string, x: char)
    ensures AtMostOnes(t + [x]) <==> AtMostOnes(t) && x <= '1'
  {
    assert (t + [x])[|t|] == x;
    assert forall i :: 0 <= i < |t| ==> (t + [x])[i] == t[i];
  }

  method IsBinaryNumber(number: int) returns (b: bool)
    ensures b <==> BinaryNumber(number)
  {
    var copy := number;
    while copy != 0
      invariant number < 0 ==> copy <= 0
      invariant number >= 0 ==> 0 <= copy && (SmallDigits(number) <==> SmallDigits(copy))
      decreases if copy < 0 then -copy else copy
    {
      if JavaRem(copy, 10) > 1 {
        SmallDigitsString(number);
        return false;
      }
      copy := JavaDiv(copy, 10);
    }
    if number >= 0 {
      assert SmallDigits(copy);
      SmallDigitsString(number);
    }
    return true;
  }

  // ---------------------------------------------------------------------
  // validateDataFormat

  /** The format flags the transformer understands. */
  const Binary := 1
  const Loose := 2
  const Compact := 3

  /** A header column from the fourth on passes the binary test when it
      names a "dim:cond" pair and the first data line holds a binary number
      under it. */
  predicate BinaryColumn(sheader: seq<string>, sdata: seq<string>, i: nat)
    requires i < |sheader|
  {
    ':' in sheader[i] && i < |sdata| && ParseInt(sdata[i]).Some? && BinaryNumber(ParseInt(sdata[i]).value)
  }

  /** The loop over the columns from i on: the first column without a ':'
      or with a non-binary value ends it with false; a missing data field or
      one that is not an integer under a "dim:cond" column throws. */
  function BinaryColumns(sheader: seq<string>, sdata: seq<string>, i: nat): (r: Result<bool>)
    decreases |sheader| - i
  {
    if i >= |sheader| then Ok(true)
    else if ':' !in sheader[i] then Ok(false)
    else if i >= |sdata| then Err(IndexOutOfBounds)
    else match ParseInt(sdata[i])
      case None => Err(NumberFormat)
      case Some(v) => if !BinaryNumber(v) then Ok(false) else BinaryColumns(sheader, sdata, i + 1)
  }

  /** The loop ends with true iff every column from i on passes. */
  lemma {:induction false} BinaryColumnsAll(sheader: seq<string>, sdata: seq<string>, i: nat)
    ensures BinaryColumns(sheader, sdata, i) == Ok(true) <==>
      forall j :: i <= j < |sheader| ==> BinaryColumn(sheader, sdata, j)
    decreases |sheader| - i
  {
    if i < |sheader| && BinaryColumn(sheader, sdata, i) {
      BinaryColumnsAll(sheader, sdata, i + 1);
    }
  }

  /** The loop throws only at a "dim:cond" column whose data field is
      missing or not an integer, all columns before it having passed. */
  predicate ThrowsAt(sheader: seq<string>, sdata: seq<string>, i: nat, j: nat) {
    i <= j < |sheader| && ':' in sheader[j] && (j >= |sdata| || ParseInt(sdata[j]).None?)
    && forall k :: i <= k < j ==> BinaryColumn(sheader, sdata, k)
  }

  lemma {:induction false} BinaryColumnsErrors(sheader: seq<string>, sdata: seq<string>, i: nat)
    requires BinaryColumns(sheader, sdata, i).Err?
    ensures exists j :: ThrowsAt(sheader, sdata, i, j)
    decreases |sheader| - i
  {
    if ':' in sheader[i] && i < |sdata| && ParseInt(sdata[i]).Some? {
      BinaryColumnsErrors(sheader, sdata, i + 1);
      var j :| ThrowsAt(sheader, sdata, i + 1, j);
      assert ThrowsAt(sheader, sdata, i, j);
    } else {
      assert ThrowsAt(sheader, sdata, i, i);
    }
  }

  /** The last two header columns, trimmed and lower-cased, read
      "dimension" and "condition". */
  predicate LooseHeader(sheader: seq<string>) {
    |sheader| >= 2
    && DataTransformer.Norm(sheader[|sheader| - 2]) == "dimension"
    && DataTransformer.Norm(sheader[|sheader| - 1]) == "condition"
  }

  /** The classification of validateDataFormat over the split header and
      first data line. */
  function Classify(sheader: seq<string>, sdata: seq<string>): (r: Result<int>)
    ensures r.Ok? ==> r.value in {Binary, Loose, Compact}
  {
    if |sheader| < 2 then Err(IndexOutOfBounds)
    else if LooseHeader(sheader) then Ok(Loose)
    else
      var isBinary :- BinaryColumns(sheader, sdata, 3);
      Ok(if isBinary then Binary else Compact)
  }

  /** validateDataFormat over the first two lines of a file (None when the
      file ends before them: readLine returns null and split throws). */
  function ValidateDataFormat(header: Option<string>, dataline: Option<string>): (r: Result<int>)
    ensures r.Ok? ==> r.value in {Binary, Loose, Compact}
    ensures header.None? || dataline.None? ==> r == Err(NullPointer)
  {
    if header.None? || dataline.None? then Err(NullPointer)
    else Classify(Split(header.value, ','), Split(dataline.value, ','))
  }

  /** A file is recognised as loose iff its header ends with the
      dimension and condition columns. */
  lemma ClassifyLoose(sheader: seq<string>, sdata: seq<string>)
    ensures Classify(sheader, sdata) == Ok(Loose) <==> LooseHeader(sheader)
  {
  }

  /** Otherwise it is binary iff every column from the fourth on passes the
      binary test. */
  lemma ClassifyBinary(sheader: seq<string>, sdata: seq<string>)
    ensures Classify(sheader, sdata) == Ok(Binary) <==>
      (|sheader| >= 2 && !LooseHeader(sheader) && forall j :: 3 <= j < |sheader| ==> BinaryColumn(sheader, sdata, j))
  {
    BinaryColumnsAll(sheader, sdata, 3);
  }

  /** The read fails only for a one-column header or at a "dim:cond"
      column whose data field is missing or not an integer. */
  lemma ClassifyErrors(sheader: seq<string>, sdata: seq<string>)
    requires Classify(sheader, sdata).Err?
    ensures |sheader| < 2 || exists j :: ThrowsAt(sheader, sdata, 3, j)
  {
    if |sheader| >= 2 {
      BinaryColumnsErrors(sheader, sdata, 3);
    }
  }

  // ---------------------------------------------------------------------
  // Loading a test set

  /** The test-set DataDAO is built on the registries and indexes of the
      training DataDAO, so reading the test file goes on from its store. */
  function LoadTestSet(train: Loaded, columns: seq<string>, lines: seq<Line>): (r: Result<Loaded>)
    requires LoadedValid(train)
    ensures r.Ok? ==> LoadedValid(r.value)
  {
    ReadData(train.store, columns, lines)
  }

  /** A user, item or dimension of the training set keeps its inner id in
      the test set; a new one of the test set gets an id past the training
      ones. */
  lemma TestSetKeepsTrainIds(train: Loaded, columns: seq<string>, lines: seq<Line>)
    requires LoadedValid(train) && LoadTestSet(train, columns, lines).Ok?
    ensures var test := LoadTestSet(train, columns, lines).value.store;
      Extends(train.store.ui.users, test.ui.users)
      && Extends(train.store.ui.items, test.ui.items)
      && Extends(train.store.cond.dims, test.cond.dims)
  {
    var test := LoadTestSet(train, columns, lines).value.store;
    ReadDataMeaning(train.store, columns, lines);
    InternAllKeepsIds(train.store.ui.users, UsersOf(ParseLines(lines).value));
    InternAllKeepsIds(train.store.ui.items, ItemsOf(ParseLines(lines).value));
    InternAllKeepsIds(train.store.cond.dims, DimensionsOf(ParseColumns(columns)));
  }

  // ---------------------------------------------------------------------
  // Averaging the folds of a cross-validation

  /** The value a fold reports for a measure; a measure the fold does not
      report adds nothing. */
  function Reported<M>(fold: map<M, real>, m: M): real {
    if m in fold then fold[m] else 0.0
  }

  /** One fold's measures added in, each divided by kFold. */
  function AddFold<M>(acc: map<M, real>, fold: map<M, real>, kFold: nat): (r: map<M, real>)
    requires kFold > 0
    ensures r.Keys == acc.Keys + fold.Keys
    ensures forall m :: m in r ==> r[m] == Reported(acc, m) + Reported(fold, m) / kFold as real
  {
    map m | m in acc.Keys + fold.Keys :: Reported(acc, m) + Reported(fold, m) / kFold as real
  }

  /** avgMeasure after the loop over the folds' measures. */
  function FoldAverage<M>(folds: seq<map<M, real>>, kFold: nat): (r: map<M, real>)
    requires kFold > 0
  {
    if |folds| == 0 then map[] else AddFold(FoldAverage(folds[..|folds| - 1], kFold), folds[|folds| - 1], kFold)
  }

  /** The reference: a measure's values over all folds, summed. */
  function FoldSum<M>(folds: seq<map<M, real>>, m: M): real {
    if |folds| == 0 then 0.0 else FoldSum(folds[..|folds| - 1], m) + Reported(folds[|folds| - 1], m)
  }

  /** A measure is averaged iff some fold reports it. */
  lemma {:induction false} FoldAverageKeys<M>(folds: seq<map<M, real>>, kFold: nat, m: M)
    requires kFold > 0
    ensures m in FoldAverage(folds, kFold) <==> exists f :: 0 <= f < |folds| && m in folds[f]
  {
    if |folds| > 0 {
      var n := |folds| - 1;
      var init := folds[..n];
      FoldAverageKeys(init, kFold, m);
      if m in FoldAverage(init, kFold) {
        var f :| 0 <= f < n && m in init[f];
        assert m in folds[f];
      }
      if exists f :: 0 <= f < |folds| && m in folds[f] {
        var f :| 0 <= f < |folds| && m in folds[f];
        if f < n {
          assert m in init[f];
        }
      }
    }
  }

  /** Each averaged measure is the sum of its per-fold values divided by
      kFold. */
  lemma {:induction false} FoldAverageValue<M>(folds: seq<map<M, real>>, kFold: nat, m: M)
    requires kFold > 0 && m in FoldAverage(folds, kFold)
    ensures FoldAverage(folds, kFold)[m] == FoldSum(folds, m) / kFold as real
    decreases |folds|, 0
  {
    var init := folds[..|folds| - 1];
    ReportedSoFar(init, kFold, m);
    FoldAverageStep(folds, kFold, m, FoldSum(init, m));
  }

  /** What the average reports for a measure, 0 when it is absent, is the
      measure's sum over the folds divided by kFold. */
  lemma {:induction false} ReportedSoFar<M>(folds: seq<map<M, real>>, kFold: nat, m: M)
    requires kFold > 0
    ensures Reported(FoldAverage(folds, kFold), m) == FoldSum(folds, m) / kFold as real
    decreases |folds|, 1
  {
    if m in FoldAverage(folds, kFold) {
      FoldAverageValue(folds, kFold, m);
    } else {
      FoldAverageKeys(folds, kFold, m);
      FoldSumUnreported(folds, m);
    }
  }

  lemma FoldAverageStep<M>(folds: seq<map<M, real>>, kFold: nat, m: M, s: real)
    requires kFold > 0 && |folds| > 0 && m in FoldAverage(folds, kFold)
    requires s == FoldSum(folds[..|folds| - 1], m)
    requires Reported(FoldAverage(folds[..|folds| - 1], kFold), m) == s / kFold as real
    ensures FoldAverage(folds, kFold)[m] == FoldSum(folds, m) / kFold as real
  {
    var r := Reported(folds[|folds| - 1], m);
    DivAdd(s, r, kFold as real);
  }

  lemma DivAdd(a: real, b: real, k: real)
    requires k > 0.0
    ensures a / k + b / k == (a + b) / k
  {
  }

  /** A measure no fold reports sums to 0. */
  lemma {:induction false} FoldSumUnreported<M>(folds: seq<map<M, real>>, m: M)
    requires forall f :: 0 <= f < |folds| ==> m !in folds[f]
    ensures FoldSum(folds, m) == 0.0
  {
    if |folds| > 0 {
      FoldSumUnreported(folds[..|folds| - 1], m);
    }
  }

  // ---------------------------------------------------------------------
  // getRecommender

  const NoRecommender := "No recommender is specified!"

  /** The tags that name a recommender directly. */
  const DirectTags: set<string> := {
    "globalavg", "useravg", "itemavg", "contextavg", "useritemavg", "usercontextavg", "itemcontextavg",
    "itemknn", "userknn", "slopeone", "biasedmf", "pmf", "bpmf", "nmf", "svd++", "slim", "bpr", "lrmf",
    "rankals", "ranksgd",
    "exactfiltering", "dcr", "dcw", "spf", "cptf",
    "camf_c", "camf_ci", "camf_cu", "camf_cuci", "camf_ics", "camf_lcs", "camf_mcs",
    "cslim_c", "cslim_cu", "cslim_ci", "cslim_cuci", "gcslim_cc", "cslim_ics", "cslim_lcs", "cslim_mcs",
    "gcslim_ics", "gcslim_lcs", "gcslim_mcs",
    "fm"}

  /** The pre-filtering splitters, which run a traditional recommender on
      the split data. */
  const SplittingTags: set<string> := {"usersplitting", "itemsplitting", "uisplitting"}

  /** The traditional recommenders a splitter accepts. */
  const TraditionalTags: set<string> := {
    "globalavg", "useravg", "itemavg", "contextavg", "useritemavg", "usercontextavg", "itemcontextavg",
    "itemknn", "userknn", "slopeone", "biasedmf", "pmf", "bpmf", "nmf", "svd++", "slim", "bpr", "lrmf",
    "rankals", "ranksgd"}

  datatype Choice = Direct(tag: string) | Splitting(splitter: string, traditional: string)

  /** getRecommender: the main parameter of the "recommender" option,
      lower-cased, selects the recommender; a splitter reads its
      traditional recommender from the "-traditional" option (None when
      absent, where trim throws), trimmed and lower-cased. */
  function GetRecommender(mainParam: string, traditional: Option<string>): (r: Result<Choice>)
    ensures r.Ok? && r.value.Direct? ==> r.value.tag in DirectTags
    ensures r.Ok? && r.value.Splitting? ==> r.value.splitter in SplittingTags && r.value.traditional in TraditionalTags
  {
    var tag := Lower(mainParam);
    if tag in SplittingTags then
      if traditional.None? then Err(NullPointer)
      else
        var inner := DataTransformer.Norm(traditional.value);
        if inner in TraditionalTags then Ok(Splitting(tag, inner)) else Err(NoRecommender)
    else if tag in DirectTags then Ok(Direct(tag))
    else Err(NoRecommender)
  }

  /** The tag is matched without regard to case, an unknown tag (or an
      unknown traditional recommender under a splitter) is refused with
      "No recommender is specified!", and a known one is chosen. */
  lemma GetRecommenderMeaning(mainParam: string, traditional: Option<string>)
    ensures GetRecommender(Lower(mainParam), traditional) == GetRecommender(mainParam, traditional)
    ensures Lower(mainParam) in DirectTags ==> GetRecommender(mainParam, traditional) == Ok(Direct(Lower(mainParam)))
    ensures Lower(mainParam) !in DirectTags && Lower(mainParam) !in SplittingTags ==>
      GetRecommender(mainParam, traditional) == Err(NoRecommender)
    ensures Lower(mainParam) in SplittingTags && traditional.Some? ==>
      (GetRecommender(mainParam, traditional).Ok? <==> DataTransformer.Norm(traditional.value) in TraditionalTags)
  {
    LowerIdempotent(mainParam);
    if Lower(mainParam) in DirectTags {
      DirectNotSplitting(Lower(mainParam));
    }
  }

  /** No direct tag is a splitting tag. */
  lemma DirectNotSplitting(t: string)
    requires t in DirectTags
    ensures t !in SplittingTags
  {
  }
}
