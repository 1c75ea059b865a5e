/** carskit.eval.Measures: the top-n cut of a ranked list and the
    cutoff-map wrappers around the base ranking metrics (nDCG, AUC, AP, RR),
    which come from an external library and are parameters here. */
module Measures {
  import opened Wrappers

  /** The top n of a ranked list: its first n elements, the whole list when
      it is shorter; a negative n reaches `new ArrayList(n)`, which throws. */
  function TopN<T>(list: seq<T>, n: int): (r: Result<seq<T>>)
    ensures r.Ok? <==> n >= 0
    ensures r.Ok? ==> |r.value| == (if n < |list| then n else |list|) && r.value <= list
  {
    var m := if n > |list| then |list| else n;
    if m < 0 then Err(IllegalArgument) else Ok(list[..m])
  }

  /** getTopNList: copies the first min(n, size) elements one by one. */
  method GetTopNList<T>(rankedList: seq<T>, n: int) returns (r: Result<seq<T>>)
    ensures r == TopN(rankedList, n)
  {
    var m := if n > |rankedList| then |rankedList| else n;
    if m < 0 {
      return Err(IllegalArgument);
    }
    var newList: seq<T> := [];
    var i := 0;
    while i < m
      invariant 0 <= i <= m
      invariant newList == rankedList[..i]
    {
      newList := newList + [rankedList[i]];
      i := i + 1;
    }
    return Ok(newList);
  }

  /** The cutoff-map overloads of nDCGAt, AUCAt, APAt and RRAt: for each
      cutoff n in order, the metric of the top n is put under key n. */
  function AtMap<T>(rankedList: seq<T>, ns: seq<int>, metric: seq<T> -> real): (r: Result<map<int, real>>)
  {
    if |ns| == 0 then Ok(map[])
    else
      var acc :- AtMap(rankedList, ns[..|ns| - 1], metric);
      var n := ns[|ns| - 1];
      var top :- TopN(rankedList, n);
      Ok(acc[n := metric(top)])
  }

  /** The map is built iff no cutoff is negative; it has exactly one key per
      cutoff, holding the single-cutoff metric at that cutoff. */
  lemma {:induction false} AtMapMeaning<T>(rankedList: seq<T>, ns: seq<int>, metric: seq<T> -> real)
    ensures AtMap(rankedList, ns, metric).Ok? <==> forall k :: 0 <= k < |ns| ==> ns[k] >= 0
    ensures AtMap(rankedList, ns, metric).Ok? ==>
      var m := AtMap(rankedList, ns, metric).value;
      (forall n :: n in m <==> n in ns)
      && forall n :: n in m ==> Ok(m[n]) == MetricAt(rankedList, n, metric)
  {
    if |ns| > 0 {
      var init := ns[..|ns| - 1];
      AtMapMeaning(rankedList, init, metric);
      assert forall k :: 0 <= k < |init| ==> init[k] == ns[k];
      assert forall n :: n in ns <==> n in init || n == ns[|ns| - 1] by {
        assert ns == init + [ns[|ns| - 1]];
      }
    }
  }

  /** nDCGAt, AUCAt, APAt and RRAt for one cutoff n: the base metric of
      the top-n list, with groundTruth (and, for AUC, numDropped) bound into
      `metric`. Defined exactly for n >= 0, and then the metric of the
      first min(n, size) elements. */
  function MetricAt<T>(rankedList: seq<T>, n: int, metric: seq<T> -> real): (r: Result<real>)
    ensures r.Ok? <==> n >= 0
    ensures r.Ok? ==> r.value == metric(rankedList[..if n < |rankedList| then n else |rankedList|])
  {
    var top :- TopN(rankedList, n);
    Ok(metric(top))
  }

  /** Cutting at the list's own length or beyond keeps the whole list. */
  lemma TopNWhole<T>(list: seq<T>, n: int)
    requires n >= |list|
    ensures TopN(list, n) == Ok(list)
  {
    assert list[..|list|] == list;
  }

  /** Cutting twice keeps the smaller cut. */
  lemma TopNTwice<T>(list: seq<T>, a: nat, b: nat)
    ensures TopN(TopN(list, a).value, b) == TopN(list, if a < b then a else b)
  {
    var t := TopN(list, a).value;
    var m := if a < b then a else b;
    var k := if m < |list| then m else |list|;
    assert t == list[..if a < |list| then a else |list|];
    assert k == (if b < |t| then b else |t|);
    assert t[..k] == list[..k];
  }
}
