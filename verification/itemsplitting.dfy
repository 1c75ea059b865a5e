/** Item splitting: for every item, each context condition divides the
    item's ratings into two samples (situations holding the condition and
    the rest); the condition whose samples differ most by a t-test becomes
    the item's split condition, and the item receives a new id for the
    situations holding it. The t-test (p-value and t statistic) is a
    parameter. */
module ItemSplitting {
  import opened Wrappers
  import opened Doubles
  import opened SparseMatrices

  function Pow2(n: nat): (r: nat)
    ensures r >= 1
  {
    if n == 0 then 1 else 2 * Pow2(n - 1)
  }

  /** Double.MIN_VALUE, the least positive double, 2^-1074: the starting
      value of the best t statistic. */
  const MinValue: real := 1.0 / (Pow2(1074) as real)

  /** The two sides of a t-test on two samples of ratings (TTest.tTest and
      TTest.t); the samples are multisets, as HashMultiset holds them. */
  datatype TTest = TTest(pValue: (multiset<real>, multiset<real>) -> Double, t: (multiset<real>, multiset<real>) -> Double)

  /** Java's `x > y` on two doubles. */
  predicate Exceeds(x: Double, y: Double) {
    match (x, y)
    case (Num(a), Num(b)) => a > b
    case (Num(_), NegInf) => true
    case (PosInf, Num(_)) => true
    case (PosInf, NegInf) => true
    case _ => false
  }

  lemma ExceedsTransitive(x: Double, y: Double, z: Double)
    requires Exceeds(x, y) && Exceeds(y, z)
    ensures Exceeds(x, z)
  {
  }

  /** The multiset of the values of some cells. */
  function Vals(cells: Matrix): (vs: multiset<real>)
    ensures |vs| == |cells|
  {
    if |cells| == 0 then multiset{} else multiset{cells[0].val} + Vals(cells[1..])
  }

  /** The two samples of one condition: the ratings given in a situation
      that holds it (rate1) and all others (rate2). */
  function Samples(cells: Matrix, ctxs: set<nat>): (r: (multiset<real>, multiset<real>))
  {
    if |cells| == 0 then (multiset{}, multiset{})
    else
      var rest := Samples(cells[1..], ctxs);
      if cells[0].col in ctxs then (rest.0 + multiset{cells[0].val}, rest.1)
      else (rest.0, rest.1 + multiset{cells[0].val})
  }

  /** Every rating of the item falls in exactly one of the two samples: the
      first sample is exactly the ratings in a situation of the condition,
      and the two together are all of the item's ratings. */
  lemma {:induction false} SamplesPartition(cells: Matrix, ctxs: set<nat>)
    ensures Samples(cells, ctxs).0 == Vals(ColsIn(cells, ctxs))
    ensures Samples(cells, ctxs).0 + Samples(cells, ctxs).1 == Vals(cells)
  {
    if |cells| > 0 {
      SamplesPartition(cells[1..], ctxs);
      if cells[0].col in ctxs {
        var s := ColsIn(cells, ctxs);
        assert s == [cells[0]] + ColsIn(cells[1..], ctxs);
        assert s[1..] == ColsIn(cells[1..], ctxs);
      }
    }
  }

  /** The condition with situations ctxs is a candidate: both samples hold
      at least min ratings and the test is significant (p < 0.05). */
  predicate Candidate(cells: Matrix, ctxs: set<nat>, min: int, tt: TTest) {
    var (r1, r2) := Samples(cells, ctxs);
    |r1| >= min && |r2| >= min && Less(tt.pValue(r1, r2), 0.05)
  }

  function TOf(cells: Matrix, ctxs: set<nat>, tt: TTest): Double {
    var (r1, r2) := Samples(cells, ctxs);
    tt.t(r1, r2)
  }

  /** The inner loop over the conditions (id and situations, in key order):
      the best t so far and the position of its condition, or None while no
      candidate has beaten the starting value. */
  function Choose(cells: Matrix, conds: seq<(nat, set<nat>)>, min: int, tt: TTest): (r: (Double, Option<nat>))
    ensures r.1.Some? ==> r.1.value < |conds|
  {
    if |conds| == 0 then (Num(MinValue), None)
    else
      var n := |conds| - 1;
      var prev := Choose(cells, conds[..n], min, tt);
      var t := TOf(cells, conds[n].1, tt);
      if Candidate(cells, conds[n].1, min, tt) && Exceeds(t, prev.0) then (t, Some(n)) else prev
  }

  predicate CandidateAt(cells: Matrix, conds: seq<(nat, set<nat>)>, min: int, tt: TTest, k: nat)
    requires k < |conds|
  {
    Candidate(cells, conds[k].1, min, tt)
  }

  /** The chosen condition is a candidate whose t beats Double.MIN_VALUE,
      and no candidate's t exceeds it; no condition is chosen iff no
      candidate's t beats Double.MIN_VALUE. */
  lemma {:induction false} ChooseMeaning(cells: Matrix, conds: seq<(nat, set<nat>)>, min: int, tt: TTest)
    ensures var (m, k) := Choose(cells, conds, min, tt);
      (k.None? ==> m == Num(MinValue)) && (k.Some? ==> m == TOf(cells, conds[k.value].1, tt))
    ensures var (m, k) := Choose(cells, conds, min, tt);
      forall j :: 0 <= j < |conds| && CandidateAt(cells, conds, min, tt, j) ==> !Exceeds(TOf(cells, conds[j].1, tt), m)
    ensures var (m, k) := Choose(cells, conds, min, tt);
      k.Some? ==> CandidateAt(cells, conds, min, tt, k.value) && Exceeds(m, Num(MinValue))
    ensures Choose(cells, conds, min, tt).1.None? <==>
      forall j :: 0 <= j < |conds| && CandidateAt(cells, conds, min, tt, j) ==> !Exceeds(TOf(cells, conds[j].1, tt), Num(MinValue))
  {
    if |conds| > 0 {
      var n := |conds| - 1;
      var init := conds[..n];
      ChooseMeaning(cells, init, min, tt);
      assert forall j :: 0 <= j < n ==> init[j] == conds[j];
      var prev := Choose(cells, init, min, tt);
      var t := TOf(cells, conds[n].1, tt);
      if Candidate(cells, conds[n].1, min, tt) && Exceeds(t, prev.0) {
        forall j | 0 <= j < n && CandidateAt(cells, conds, min, tt, j)
          ensures !Exceeds(TOf(cells, conds[j].1, tt), t)
        {
          assert CandidateAt(cells, init, min, tt, j);
          if Exceeds(TOf(cells, conds[j].1, tt), t) {
            ExceedsTransitive(TOf(cells, conds[j].1, tt), t, prev.0);
          }
        }
        if prev.1.Some? {
          ExceedsTransitive(t, prev.0, Num(MinValue));
        }
      } else if prev.1.None? {
        forall j | 0 <= j < |conds| && CandidateAt(cells, conds, min, tt, j)
          ensures !Exceeds(TOf(cells, conds[j].1, tt), Num(MinValue))
        {
          if j < n {
            assert CandidateAt(cells, init, min, tt, j);
          }
        }
      } else {
        assert CandidateAt(cells, conds, min, tt, prev.1.value);
      }
    }
  }

  /** A chosen condition's t statistic is positive (or +infinity): Double.MIN_VALUE
      is above zero. */
  lemma ChosenPositive(cells: Matrix, conds: seq<(nat, set<nat>)>, min: int, tt: TTest)
    requires Choose(cells, conds, min, tt).1.Some?
    ensures var t := Choose(cells, conds, min, tt).0; t == PosInf || (t.Num? && t.v > 0.0)
  {
    ChooseMeaning(cells, conds, min, tt);
    assert MinValue > 0.0;
  }

  /** The split table: (item, situation) to the item's new id. */
  type SplitTable = map<(nat, nat), nat>

  /** The item's choice, computed on its ratings (the cells of its
      user-item rows, itemRatingList). */
  function ChoiceOf(sm: Matrix, uis: seq<nat>, conds: seq<(nat, set<nat>)>, min: int, tt: TTest): (k: Option<nat>)
    ensures k.Some? ==> k.value < |conds|
  {
    Choose(ListedCells(sm, uis), conds, min, tt).1
  }

  /** split(sm, min): the items (id and user-item rows, in key order) are
      visited in turn; an item with a split condition takes the next id and
      is mapped to it for every situation holding that condition. Returns
      the table and the next free id. */
  function Split(items: seq<(nat, seq<nat>)>, sm: Matrix, conds: seq<(nat, set<nat>)>, min: int, tt: TTest, startId: nat): (r: (SplitTable, nat))
    ensures r.1 >= startId
  {
    if |items| == 0 then (map[], startId)
    else
      var n := |items| - 1;
      var (table, next) := Split(items[..n], sm, conds, min, tt, startId);
      var (j, uis) := items[n];
      match ChoiceOf(sm, uis, conds, min, tt)
      case None => (table, next)
      case Some(k) => (table + (map c | c in conds[k].1 :: (j, c) := next), next + 1)
  }

  /** How many of the items get split. */
  function SplitCount(items: seq<(nat, seq<nat>)>, sm: Matrix, conds: seq<(nat, set<nat>)>, min: int, tt: TTest): nat {
    if |items| == 0 then 0
    else
      var n := |items| - 1;
      SplitCount(items[..n], sm, conds, min, tt) + if ChoiceOf(sm, items[n].1, conds, min, tt).Some? then 1 else 0
  }

  /** Item ids are distinct among the items, as keys of itemRatingList. */
  predicate DistinctItems(items: seq<(nat, seq<nat>)>) {
    forall a, b :: 0 <= a < b < |items| ==> items[a].0 != items[b].0
  }

  /** The item at position i has a split condition and c is one of its
      situations. */
  predicate SplitsOn(items: seq<(nat, seq<nat>)>, sm: Matrix, conds: seq<(nat, set<nat>)>, min: int, tt: TTest, i: nat, c: nat)
    requires i < |items|
  {
    var k := ChoiceOf(sm, items[i].1, conds, min, tt);
    k.Some? && c in conds[k.value].1
  }

  /** The item at position i is mapped, for situation c, to the id it
      receives: startId plus the number of split items before it. */
  predicate MappedAt(t: SplitTable, items: seq<(nat, seq<nat>)>, sm: Matrix, conds: seq<(nat, set<nat>)>, min: int, tt: TTest, startId: nat, i: nat, c: nat)
    requires i < |items|
  {
    (items[i].0, c) in t && t[(items[i].0, c)] == startId + SplitCount(items[..i], sm, conds, min, tt)
  }

  /** Some item with id j splits on situation c. */
  predicate SomeSplitsOn(items: seq<(nat, seq<nat>)>, sm: Matrix, conds: seq<(nat, set<nat>)>, min: int, tt: TTest, j: nat, c: nat) {
    exists i :: 0 <= i < |items| && items[i].0 == j && SplitsOn(items, sm, conds, min, tt, i, c)
  }

  /** The next free id is startId plus the number of split items. */
  lemma {:induction false} SplitNextId(items: seq<(nat, seq<nat>)>, sm: Matrix, conds: seq<(nat, set<nat>)>, min: int, tt: TTest, startId: nat)
    ensures Split(items, sm, conds, min, tt, startId).1 == startId + SplitCount(items, sm, conds, min, tt)
  {
    if |items| > 0 {
      SplitNextId(items[..|items| - 1], sm, conds, min, tt, startId);
    }
  }

  /** Only split items have entries, and only for the situations of their
      split condition. */
  lemma {:induction false} SplitOnlyKeys(items: seq<(nat, seq<nat>)>, sm: Matrix, conds: seq<(nat, set<nat>)>, min: int, tt: TTest, startId: nat)
    ensures forall j, c :: (j, c) in Split(items, sm, conds, min, tt, startId).0 ==> SomeSplitsOn(items, sm, conds, min, tt, j, c)
  {
    if |items| > 0 {
      var n := |items| - 1;
      var init := items[..n];
      SplitOnlyKeys(init, sm, conds, min, tt, startId);
      var table := Split(init, sm, conds, min, tt, startId).0;
      forall j, c | (j, c) in Split(items, sm, conds, min, tt, startId).0
        ensures SomeSplitsOn(items, sm, conds, min, tt, j, c)
      {
        if (j, c) in table {
          var i :| 0 <= i < n && init[i].0 == j && SplitsOn(init, sm, conds, min, tt, i, c);
          assert init[i] == items[i];
          assert SplitsOn(items, sm, conds, min, tt, i, c);
        } else {
          assert SplitsOn(items, sm, conds, min, tt, n, c);
        }
      }
    }
  }

  /** Every split item is mapped, for every situation of its split
      condition, to startId plus the number of items split before it. */
  lemma {:induction false} SplitMapsItems(items: seq<(nat, seq<nat>)>, sm: Matrix, conds: seq<(nat, set<nat>)>, min: int, tt: TTest, startId: nat)
    requires DistinctItems(items)
    ensures forall i, c :: 0 <= i < |items| && SplitsOn(items, sm, conds, min, tt, i, c) ==>
      MappedAt(Split(items, sm, conds, min, tt, startId).0, items, sm, conds, min, tt, startId, i, c)
  {
    if |items| > 0 {
      var n := |items| - 1;
      var init := items[..n];
      assert DistinctItems(init);
      SplitMapsItems(init, sm, conds, min, tt, startId);
      SplitNextId(init, sm, conds, min, tt, startId);
      var table := Split(init, sm, conds, min, tt, startId).0;
      var r := Split(items, sm, conds, min, tt, startId).0;
      forall i, c | 0 <= i < |items| && SplitsOn(items, sm, conds, min, tt, i, c)
        ensures MappedAt(r, items, sm, conds, min, tt, startId, i, c)
      {
        if i < n {
          assert init[i] == items[i];
          assert init[..i] == items[..i];
          assert SplitsOn(init, sm, conds, min, tt, i, c);
          assert MappedAt(table, init, sm, conds, min, tt, startId, i, c);
          assert items[i].0 != items[n].0;
        } else {
          assert items[..n] == init;
        }
      }
    }
  }

  /** Two split items receive different ids, in visiting order. */
  lemma {:induction false} SplitCountGrows(items: seq<(nat, seq<nat>)>, sm: Matrix, conds: seq<(nat, set<nat>)>, min: int, tt: TTest, a: nat, b: nat)
    requires a < b <= |items|
    requires ChoiceOf(sm, items[a].1, conds, min, tt).Some?
    ensures SplitCount(items[..a], sm, conds, min, tt) < SplitCount(items[..b], sm, conds, min, tt)
    decreases b - a
  {
    if b == a + 1 {
      assert items[..b][..a] == items[..a];
    } else {
      SplitCountGrows(items, sm, conds, min, tt, a, b - 1);
      assert items[..b][..b - 1] == items[..b - 1];
    }
  }
}
