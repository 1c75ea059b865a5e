/** The Chen1 and Chen2 context-aware recommenders. Both weigh a rating
    given in another situation by the similarity of that situation to the
    target one (getContextsSimilarity): per context dimension, the cosine
    between two vectors of deviations from the item mean, one entry per
    user who rated the item under both conditions, averaged over the
    dimensions whose cosine is defined. Similarities are cached per item in
    item_ContextsSimilarity. Math.sqrt is left abstract as `root`. */
module Chen {
  import opened Wrappers
  import opened Sums
  import opened SparseMatrices
  import opened DataDAO
  import opened DataLookups
  import DataViews
  import KNN

  /** What the Chen recommenders read: the pair index, the situations and
      their conditions, the contextual training matrix (pairs x situations),
      the user x item training matrix, globalMean, and Math.sqrt. */
  datatype Data = Data(x: PairIndex, sit: SituationIndex, trainCtx: Matrix, train: Matrix,
                       globalMean: real, root: real -> real)

  predicate DataValid(d: Data) {
    PairIndexValid(d.x)
  }

  /** train.rows(): the distinct row indices of a matrix. */
  function RowIds(m: Matrix): (ids: seq<nat>)
    ensures forall e :: e in m ==> e.row in ids
    ensures forall r :: r in ids ==> exists e :: e in m && e.row == r
  {
    if |m| == 0 then []
    else
      var rest := RowIds(m[1..]);
      assert forall e :: e in m ==> e == m[0] || e in m[1..];
      if m[0].row in rest then rest else [m[0].row] + rest
  }

  /** train.columns(): the distinct column indices of a matrix. */
  function ColIds(m: Matrix): (ids: seq<nat>)
    ensures forall e :: e in m ==> e.col in ids
    ensures forall c :: c in ids ==> exists e :: e in m && e.col == c
  {
    if |m| == 0 then []
    else
      var rest := ColIds(m[1..]);
      assert forall e :: e in m ==> e == m[0] || e in m[1..];
      if m[0].col in rest then rest else [m[0].col] + rest
  }

  // ---------------------------------------------------------------------
  // getContextsSimilarity

  /** The cells with a positive rating. */
  function PositiveCells(cells: Matrix): (ps: Matrix)
    ensures forall e :: e in ps <==> e in cells && e.val > 0.0
  {
    if |cells| == 0 then []
    else
      var rest := PositiveCells(cells[1..]);
      assert forall e :: e in cells <==> e == cells[0] || e in cells[1..];
      if cells[0].val > 0.0 then [cells[0]] + rest else rest
  }

  /** rate_ui_condk / count: the mean of the pair's positive ratings in the
      situations that hold the condition, None when there is none. */
  function CondMean(d: Data, ui: nat, cond: nat): (m: Option<real>) {
    var cells := PositiveCells(DataViews.CondCells(RowOf(d.trainCtx, ui), d.sit, cond));
    if |cells| == 0 then None else Some(Total(cells) / |cells| as real)
  }

  /** Both condition means, as deviations from the item mean. */
  function Pairing(ma: Option<real>, mb: Option<real>, avg: real): Option<(real, real)> {
    if ma.Some? && mb.Some? then Some((ma.value - avg, mb.value - avg)) else None
  }

  /** The entries one user adds to the two vectors of a dimension: the
      deviations of the condition means from the item mean, or nothing when
      the pair is not a training row or a condition has no positive rating. */
  function Component(d: Data, user: nat, item: nat, avg: real, condA: nat, condB: nat): Option<(real, real)>
    requires DataValid(d)
  {
    var ui := PairIdOf(d.x, user, item);
    if ui == -1 || ui !in Rows(d.trainCtx) then None
    else Pairing(CondMean(d, ui as nat, condA), CondMean(d, ui as nat, condB), avg)
  }

  /** sim1 = Σ a·b, sim2 = Σ a², sim3 = Σ b² over a dimension's vectors. */
  datatype Moments = Moments(cross: real, first: real, second: real)

  function MomentsOf(comps: seq<(real, real)>): Moments {
    if |comps| == 0 then Moments(0.0, 0.0, 0.0)
    else
      var rest := MomentsOf(comps[1..]);
      var a := comps[0].0;
      var b := comps[0].1;
      Moments(a * b + rest.cross, a * a + rest.first, b * b + rest.second)
  }

  function Swap(p: (real, real)): (real, real) {
    (p.1, p.0)
  }

  function SwapAll(comps: seq<(real, real)>): (s: seq<(real, real)>) {
    if |comps| == 0 then [] else [Swap(comps[0])] + SwapAll(comps[1..])
  }

  /** The two vectors of a dimension, entry by entry, over `users`. */
  function Components(d: Data, users: seq<nat>, item: nat, avg: real, condA: nat, condB: nat): (comps: seq<(real, real)>)
    requires DataValid(d)
  {
    if |users| == 0 then []
    else
      var rest := Components(d, users[1..], item, avg, condA, condB);
      match Component(d, users[0], item, avg, condA, condB)
      case None => rest
      case Some(p) => [p] + rest
  }

  function DimMoments(d: Data, users: seq<nat>, item: nat, avg: real, condA: nat, condB: nat): Moments
    requires DataValid(d)
  {
    MomentsOf(Components(d, users, item, avg, condA, condB))
  }

  /** sim1 / (sqrt(sim2)·sqrt(sim3)) given the two roots, None when the
      denominator is 0. */
  function Cosine(cross: real, rootA: real, rootB: real): Option<real> {
    var simt := rootA * rootB;
    if simt != 0.0 then Some(cross / simt) else None
  }

  /** Math.sqrt(x). */
  function RootOf(d: Data, x: real): real {
    d.root(x)
  }

  /** The cosine on one dimension. */
  function DimScore(d: Data, users: seq<nat>, item: nat, condA: nat, condB: nat): Option<real>
    requires DataValid(d)
  {
    var m := DimMoments(d, users, item, KNN.ItemMean(d.train, d.globalMean, item), condA, condB);
    Cosine(m.cross, RootOf(d, m.first), RootOf(d, m.second))
  }

  /** The running (sim, count) of the loop over the dimensions. */
  function Tally(scores: seq<Option<real>>): (t: (real, nat))
    ensures t.1 <= |scores|
  {
    if |scores| == 0 then (0.0, 0)
    else
      var rest := Tally(scores[1..]);
      match scores[0]
      case None => rest
      case Some(s) => (s + rest.0, rest.1 + 1)
  }

  /** `count == 0 ? sim : sim / count`. */
  function Aggregate(scores: seq<Option<real>>): real {
    var t := Tally(scores);
    if t.1 == 0 then t.0 else t.0 / t.1 as real
  }

  /** The scores that exist, in dimension order. */
  function Present(scores: seq<Option<real>>): (xs: seq<real>)
    ensures |xs| <= |scores|
  {
    if |scores| == 0 then []
    else
      match scores[0]
      case None => Present(scores[1..])
      case Some(s) => [s] + Present(scores[1..])
  }

  lemma {:induction false} TallyPresent(scores: seq<Option<real>>)
    ensures Tally(scores) == (Sum(Present(scores)), |Present(scores)|)
  {
    if |scores| > 0 {
      TallyPresent(scores[1..]);
    }
  }

  /** The similarity is the mean of the dimensions' cosines over the
      dimensions where it is defined, 0 when it is defined on none, and so
      lies in any range holding those cosines. */
  lemma AggregateMeaning(scores: seq<Option<real>>, lo: real, hi: real)
    requires forall k :: 0 <= k < |scores| && scores[k].Some? ==> lo <= scores[k].value <= hi
    ensures |Present(scores)| == 0 ==> Aggregate(scores) == 0.0
    ensures |Present(scores)| > 0 ==> Aggregate(scores) == Mean(Present(scores)) && lo <= Aggregate(scores) <= hi
  {
    TallyPresent(scores);
    if |Present(scores)| == 0 {
      assert Present(scores) == [];
    } else {
      PresentBounds(scores, lo, hi);
      MeanBounds(Present(scores), lo, hi);
    }
  }

  lemma {:induction false} PresentBounds(scores: seq<Option<real>>, lo: real, hi: real)
    requires forall k :: 0 <= k < |scores| && scores[k].Some? ==> lo <= scores[k].value <= hi
    ensures forall i :: 0 <= i < |Present(scores)| ==> lo <= Present(scores)[i] <= hi
  {
    if |scores| > 0 {
      PresentBounds(scores[1..], lo, hi);
    }
  }

  /** One score per condition of c1, paired with c2's condition at the
      same position. */
  function Scores(d: Data, users: seq<nat>, item: nat, conds1: seq<nat>, conds2: seq<nat>): (s: seq<Option<real>>)
    requires DataValid(d)
    requires |conds1| <= |conds2|
    ensures |s| == |conds1|
  {
    seq(|conds1|, k requires 0 <= k < |conds1| => DimScore(d, users, item, conds1[k], conds2[k]))
  }

  /** getContextsSimilarity(item, c1, c2) with the loop over `users`. A
      situation without a condition list is a null list (NullPointer, for c2
      only once the loop runs), and a shorter list for c2 ends in
      ArrayList.get's IndexOutOfBoundsException. */
  function SimilarityOver(d: Data, users: seq<nat>, item: nat, c1: nat, c2: nat): (r: Result<real>)
    requires DataValid(d)
    ensures r.Ok? && c1 in d.sit.ctxConds && |d.sit.ctxConds[c1]| == 0 ==> r.value == 0.0
  {
    if c1 !in d.sit.ctxConds then Err(NullPointer)
    else
      var conds1 := d.sit.ctxConds[c1];
      if |conds1| == 0 then Ok(0.0)
      else if c2 !in d.sit.ctxConds then Err(NullPointer)
      else
        var conds2 := d.sit.ctxConds[c2];
        if |conds2| < |conds1| then Err(ListIndexOutOfBounds)
        else Ok(Aggregate(Scores(d, users, item, conds1, conds2)))
  }

  /** getContextsSimilarity as written: the loop runs over train.columns(),
      the ids of the rated items, used as user ids. */
  function SimilarityAsWritten(d: Data, item: nat, c1: nat, c2: nat): (r: Result<real>)
    requires DataValid(d)
    ensures r.Ok? && c1 in d.sit.ctxConds && |d.sit.ctxConds[c1]| == 0 ==> r.value == 0.0
  {
    SimilarityOver(d, ColIds(d.train), item, c1, c2)
  }

  /** getContextsSimilarity with the loop over the users, train.rows(). */
  function Similarity(d: Data, item: nat, c1: nat, c2: nat): (r: Result<real>)
    requires DataValid(d)
    ensures r.Ok? && c1 in d.sit.ctxConds && |d.sit.ctxConds[c1]| == 0 ==> r.value == 0.0
  {
    SimilarityOver(d, RowIds(d.train), item, c1, c2)
  }

  /** Swapping the vectors swaps sim2 and sim3 and keeps sim1. */
  lemma {:induction false} MomentsOfSwapped(comps: seq<(real, real)>)
    ensures var m := MomentsOf(comps);
      MomentsOf(SwapAll(comps)) == Moments(m.cross, m.second, m.first)
  {
    if |comps| > 0 {
      MomentsOfSwapped(comps[1..]);
      assert SwapAll(comps)[1..] == SwapAll(comps[1..]);
      assert comps[0].1 * comps[0].0 == comps[0].0 * comps[0].1;
    }
  }

  /** One user's pair of deviations, with the conditions swapped. */
  lemma ComponentSwap(d: Data, user: nat, item: nat, avg: real, condA: nat, condB: nat)
    requires DataValid(d)
    ensures var p := Component(d, user, item, avg, condA, condB);
      Component(d, user, item, avg, condB, condA) == if p.Some? then Some(Swap(p.value)) else None
  {
  }

  /** Swapping the conditions swaps each user's pair of deviations. */
  lemma {:induction false} ComponentsSwap(d: Data, users: seq<nat>, item: nat, avg: real, condA: nat, condB: nat)
    requires DataValid(d)
    ensures Components(d, users, item, avg, condB, condA) == SwapAll(Components(d, users, item, avg, condA, condB))
  {
    if |users| > 0 {
      ComponentsSwap(d, users[1..], item, avg, condA, condB);
      ComponentSwap(d, users[0], item, avg, condA, condB);
    }
  }

  lemma MomentsSwap(d: Data, users: seq<nat>, item: nat, avg: real, condA: nat, condB: nat)
    requires DataValid(d)
    ensures var m := DimMoments(d, users, item, avg, condA, condB);
      DimMoments(d, users, item, avg, condB, condA) == Moments(m.cross, m.second, m.first)
  {
    ComponentsSwap(d, users, item, avg, condA, condB);
    MomentsOfSwapped(Components(d, users, item, avg, condA, condB));
  }

  /** The cosine does not change when the two vectors trade places. */
  lemma CosineSymmetric()
    ensures forall cross: real, a: real, b: real :: Cosine(cross, a, b) == Cosine(cross, b, a)
  {
    forall cross: real, a: real, b: real
      ensures Cosine(cross, a, b) == Cosine(cross, b, a)
    {
      assert b * a == a * b;
    }
  }

  /** The cosine of a dimension is symmetric in its two conditions. */
  lemma DimScoreSwap(d: Data, users: seq<nat>, item: nat, condA: nat, condB: nat)
    requires DataValid(d)
    ensures DimScore(d, users, item, condA, condB) == DimScore(d, users, item, condB, condA)
  {
    var avg := KNN.ItemMean(d.train, d.globalMean, item);
    MomentsSwap(d, users, item, avg, condA, condB);
    CosineSymmetric();
  }

  /** The similarity of two situations with as many conditions is
      symmetric: the cosine is, dimension by dimension. */
  lemma SimilaritySymmetric(d: Data, users: seq<nat>, item: nat, c1: nat, c2: nat)
    requires DataValid(d)
    requires c1 in d.sit.ctxConds && c2 in d.sit.ctxConds
    requires |d.sit.ctxConds[c1]| == |d.sit.ctxConds[c2]|
    ensures SimilarityOver(d, users, item, c1, c2) == SimilarityOver(d, users, item, c2, c1)
  {
    var conds1 := d.sit.ctxConds[c1];
    var conds2 := d.sit.ctxConds[c2];
    if |conds1| > 0 {
      forall k | 0 <= k < |conds1|
        ensures DimScore(d, users, item, conds1[k], conds2[k]) == DimScore(d, users, item, conds2[k], conds1[k])
      {
        DimScoreSwap(d, users, item, conds1[k], conds2[k]);
      }
      assert Scores(d, users, item, conds1, conds2) == Scores(d, users, item, conds2, conds1);
    }
  }

  // ---------------------------------------------------------------------
  // The similarity cache

  /** A context similarity as a function of (item, c1, c2). */
  type SimFn = (nat, nat, nat) -> Result<real>

  /** getContextsSimilarity as such a function. */
  function SimilarityFn(d: Data): SimFn
    requires DataValid(d)
  {
    (i: nat, a: nat, b: nat) => Similarity(d, i, a, b)
  }

  /** The written getContextsSimilarity, looping over train.columns(), as
      such a function. */
  function SimilarityAsWrittenFn(d: Data): SimFn
    requires DataValid(d)
  {
    (i: nat, a: nat, b: nat) => SimilarityAsWritten(d, i, a, b)
  }

  /** item_ContextsSimilarity, flattened: the maps stored under an item
      hold "c1,c2" keys, read here as (item, c1, c2). */
  type Cache = map<(nat, nat, nat), real>

  /** Every cached value is the similarity it stands for. */
  predicate CacheSound(sim: SimFn, cache: Cache) {
    forall k :: k in cache ==> sim(k.0, k.1, k.2) == Ok(cache[k])
  }

  /** Swapping the situations changes nothing when the second one is in
      `ctxs` and the similarity is defined. */
  ghost predicate SymmetricOn(sim: SimFn, ctxs: set<nat>) {
    forall i: nat, a: nat, b: nat :: b in ctxs && sim(i, a, b).Ok? ==> sim(i, b, a) == sim(i, a, b)
  }

  /** Every situation has as many conditions (one per dimension), and every
      situation rated in training has its list. */
  predicate SituationsUniform(d: Data) {
    (forall a, b :: a in d.sit.ctxConds && b in d.sit.ctxConds ==> |d.sit.ctxConds[a]| == |d.sit.ctxConds[b]|)
    && (forall e :: e in d.trainCtx ==> e.col in d.sit.ctxConds)
  }

  /** On uniform situations getContextsSimilarity is symmetric. */
  lemma SimilarityFnSymmetric(d: Data)
    requires DataValid(d) && SituationsUniform(d)
    ensures SymmetricOn(SimilarityFn(d), d.sit.ctxConds.Keys)
  {
    forall i: nat, a: nat, b: nat | b in d.sit.ctxConds.Keys && SimilarityFn(d)(i, a, b).Ok?
      ensures SimilarityFn(d)(i, b, a) == SimilarityFn(d)(i, a, b)
    {
      assert a in d.sit.ctxConds;
      SimilaritySymmetric(d, RowIds(d.train), i, a, b);
    }
  }

  /** The written similarity is symmetric on uniform situations too: the
      cosine is, whatever ids the loop runs over. */
  lemma SimilarityAsWrittenFnSymmetric(d: Data)
    requires DataValid(d) && SituationsUniform(d)
    ensures SymmetricOn(SimilarityAsWrittenFn(d), d.sit.ctxConds.Keys)
  {
    forall i: nat, a: nat, b: nat | b in d.sit.ctxConds.Keys && SimilarityAsWrittenFn(d)(i, a, b).Ok?
      ensures SimilarityAsWrittenFn(d)(i, b, a) == SimilarityAsWrittenFn(d)(i, a, b)
    {
      assert a in d.sit.ctxConds;
      SimilaritySymmetric(d, ColIds(d.train), i, a, b);
    }
  }

  /** The lookup of "c,rc" under the item; a missing similarity is computed
      and stored under "c,rc" and "rc,c". */
  function CachedSimilarity(sim: SimFn, cache: Cache, item: nat, c: nat, rc: nat): (r: Result<(real, Cache)>)
    ensures r.Ok? ==> (item, c, rc) in r.value.1 && r.value.1[(item, c, rc)] == r.value.0
    ensures r.Ok? && (item, c, rc) !in cache ==> (item, rc, c) in r.value.1 && r.value.1[(item, rc, c)] == r.value.0
    ensures r.Ok? ==> cache.Keys <= r.value.1.Keys
  {
    if (item, c, rc) in cache then Ok((cache[(item, c, rc)], cache))
    else
      var s :- sim(item, c, rc);
      Ok((s, cache[(item, c, rc) := s][(item, rc, c) := s]))
  }

  /** A sound cache gives the similarity itself and stays sound. */
  lemma CachedSimilaritySound(sim: SimFn, ctxs: set<nat>, cache: Cache, item: nat, c: nat, rc: nat)
    requires CacheSound(sim, cache) && SymmetricOn(sim, ctxs) && rc in ctxs
    ensures var r := CachedSimilarity(sim, cache, item, c, rc);
      r.Ok? == sim(item, c, rc).Ok?
      && (r.Ok? ==> r.value.0 == sim(item, c, rc).value && CacheSound(sim, r.value.1))
  {
    if (item, c, rc) !in cache && sim(item, c, rc).Ok? {
      var s := sim(item, c, rc).value;
      assert sim(item, rc, c) == Ok(s);
    }
  }

  // ---------------------------------------------------------------------
  // Chen1

  /** train.get(u, j) when positive, else globalMean. */
  function Fallback(d: Data, u: nat, j: nat): (r: real)
    ensures r > 0.0 || r == d.globalMean
  {
    var rate := Get(d.train, u, j);
    if rate > 0.0 then rate else d.globalMean
  }

  /** Σ r·sim and Σ sim over the rated situations, with the similarities
      read through the cache, and the cache as the loop leaves it. */
  function Weigh(sim: SimFn, cache: Cache, item: nat, c: nat, cells: Matrix): (r: Result<(real, real, Cache)>)
    decreases |cells|
  {
    if |cells| == 0 then Ok((0.0, 0.0, cache))
    else
      var looked := CachedSimilarity(sim, cache, item, c, cells[0].col);
      if looked.Err? then Err(looked.msg)
      else
        var rest := Weigh(sim, looked.value.1, item, c, cells[1..]);
        if rest.Err? then Err(rest.msg)
        else Ok((Product((looked.value.0, cells[0].val)) + rest.value.0, looked.value.0 + rest.value.1, rest.value.2))
  }

  /** The (similarity, rating) of each rated situation, computed afresh. */
  function SimTerms(sim: SimFn, item: nat, c: nat, cells: Matrix): (r: Result<seq<(real, real)>>)
    ensures r.Ok? ==> |r.value| == |cells|
    ensures r.Ok? ==> forall k :: 0 <= k < |cells| ==>
      r.value[k].1 == cells[k].val && sim(item, c, cells[k].col) == Ok(r.value[k].0)
  {
    if |cells| == 0 then Ok([])
    else
      var s :- sim(item, c, cells[0].col);
      var rest :- SimTerms(sim, item, c, cells[1..]);
      Ok([(s, cells[0].val)] + rest)
  }

  /** The uncached terms of a non-empty list: the first cell's term in
      front of the rest's, with the sums split accordingly. */
  lemma SimTermsCons(sim: SimFn, item: nat, c: nat, cells: Matrix)
    requires |cells| > 0
    ensures var t := SimTerms(sim, item, c, cells);
      var s := sim(item, c, cells[0].col);
      var rest := SimTerms(sim, item, c, cells[1..]);
      t.Ok? == (s.Ok? && rest.Ok?)
      && (t.Ok? ==>
            WeightedSum(t.value) == Product((s.value, cells[0].val)) + WeightedSum(rest.value)
            && TotalWeight(t.value) == s.value + TotalWeight(rest.value))
  {
    var t := SimTerms(sim, item, c, cells);
    if t.Ok? {
      assert t.value[1..] == SimTerms(sim, item, c, cells[1..]).value;
      assert WeightedSum(t.value) == Product(t.value[0]) + WeightedSum(t.value[1..]);
      assert TotalWeight(t.value) == Weight(t.value[0]) + TotalWeight(t.value[1..]);
    }
  }

  /** One step of the cached loop: it fails when the lookup or the rest
      fails, and otherwise adds the first cell's terms to the rest's sums. */
  lemma WeighCons(sim: SimFn, cache: Cache, item: nat, c: nat, cells: Matrix)
    requires |cells| > 0
    ensures var looked := CachedSimilarity(sim, cache, item, c, cells[0].col);
      var w := Weigh(sim, cache, item, c, cells);
      (looked.Err? ==> w.Err?)
      && (looked.Ok? ==>
            var rest := Weigh(sim, looked.value.1, item, c, cells[1..]);
            w.Ok? == rest.Ok?
            && (rest.Ok? ==>
                  w.value.0 == Product((looked.value.0, cells[0].val)) + rest.value.0
                  && w.value.1 == looked.value.0 + rest.value.1
                  && w.value.2 == rest.value.2))
  {
  }

  /** With a sound cache, the cached loop computes the same sums as the
      uncached one, fails exactly when it does, and leaves the cache sound. */
  lemma {:induction false} WeighMatchesTerms(sim: SimFn, ctxs: set<nat>, cache: Cache, item: nat, c: nat, cells: Matrix)
    requires CacheSound(sim, cache) && SymmetricOn(sim, ctxs)
    requires forall e :: e in cells ==> e.col in ctxs
    decreases |cells|
    ensures var w := Weigh(sim, cache, item, c, cells);
      var t := SimTerms(sim, item, c, cells);
      w.Ok? == t.Ok?
      && (w.Ok? ==> w.value.0 == WeightedSum(t.value) && w.value.1 == TotalWeight(t.value) && CacheSound(sim, w.value.2))
  {
    if |cells| > 0 {
      assert cells[0] in cells;
      var looked := CachedSimilarity(sim, cache, item, c, cells[0].col);
      var w := Weigh(sim, cache, item, c, cells);
      var t := SimTerms(sim, item, c, cells);
      CachedSimilaritySound(sim, ctxs, cache, item, c, cells[0].col);
      SimTermsCons(sim, item, c, cells);
      WeighCons(sim, cache, item, c, cells);
      if looked.Ok? {
        assert forall e :: e in cells[1..] ==> e in cells;
        WeighMatchesTerms(sim, ctxs, looked.value.1, item, c, cells[1..]);
        var rw := Weigh(sim, looked.value.1, item, c, cells[1..]);
        var rt := SimTerms(sim, item, c, cells[1..]);
        assert w.Ok? == t.Ok?;
        if w.Ok? {
          var v := cells[0].val;
          var x := looked.value.0;
          assert x == sim(item, c, cells[0].col).value;
          assert w.value.0 == Product((x, v)) + rw.value.0 && WeightedSum(t.value) == Product((x, v)) + WeightedSum(rt.value);
          assert w.value.1 == x + rw.value.1 && TotalWeight(t.value) == x + TotalWeight(rt.value);
        }
      }
    }
  }

  /** The rated situations of a registered pair: Σ r·sim / Σ sim, and the
      fallback when the pair has none or Σ sim is 0. */
  function FromRatedContexts(d: Data, sim: SimFn, cache: Cache, u: nat, j: nat, c: nat, ui: nat): (r: Result<(real, Cache)>)
  {
    var cells := RowOf(d.trainCtx, ui);
    if |cells| == 0 then Ok((Fallback(d, u, j), cache))
    else
      var w :- Weigh(sim, cache, j, c, cells);
      if w.1 == 0.0 then Ok((Fallback(d, u, j), w.2)) else Ok((w.0 / w.1, w.2))
  }

  /** Chen1.predict(u, j, c) over a given context similarity, with the
      cache it reads and the cache it leaves. A pair that is not a training
      row falls back at once. */
  function Chen1PredictWith(d: Data, sim: SimFn, cache: Cache, u: nat, j: nat, c: nat): (r: Result<(real, Cache)>)
    requires DataValid(d)
  {
    var ui := PairIdOf(d.x, u, j);
    if ui == -1 || ui !in Rows(d.trainCtx) then Ok((Fallback(d, u, j), cache))
    else FromRatedContexts(d, sim, cache, u, j, c, ui as nat)
  }

  /** Chen1.predict as written: its similarity loops over train.columns(). */
  function Chen1PredictAsWritten(d: Data, cache: Cache, u: nat, j: nat, c: nat): (r: Result<(real, Cache)>)
    requires DataValid(d)
  {
    Chen1PredictWith(d, SimilarityAsWrittenFn(d), cache, u, j, c)
  }

  /** Chen1.predict with the similarity looping over the users. */
  function Chen1Predict(d: Data, cache: Cache, u: nat, j: nat, c: nat): (r: Result<(real, Cache)>)
    requires DataValid(d)
  {
    Chen1PredictWith(d, SimilarityFn(d), cache, u, j, c)
  }

  /** Chen1's prediction with every similarity computed afresh: the
      similarity-weighted mean of the pair's ratings in its situations. */
  function Chen1ReferenceWith(d: Data, sim: SimFn, u: nat, j: nat, c: nat): (r: Result<real>)
    requires DataValid(d)
  {
    var ui := PairIdOf(d.x, u, j);
    if ui == -1 || ui !in Rows(d.trainCtx) then Ok(Fallback(d, u, j))
    else RatedReference(d, sim, u, j, c, ui as nat)
  }

  /** The uncached prediction from the situations a training row rated. */
  function RatedReference(d: Data, sim: SimFn, u: nat, j: nat, c: nat, ui: nat): (r: Result<real>) {
    var cells := RowOf(d.trainCtx, ui);
    if |cells| == 0 then Ok(Fallback(d, u, j))
    else
      var ts :- SimTerms(sim, j, c, cells);
      if TotalWeight(ts) == 0.0 then Ok(Fallback(d, u, j)) else Ok(WeightedSum(ts) / TotalWeight(ts))
  }

  /** From a sound cache of a similarity symmetric on the row's situations,
      the cached prediction from a training row is the uncached one, and the
      cache left behind is sound. */
  lemma RatedMatchesReference(d: Data, sim: SimFn, ctxs: set<nat>, cache: Cache, u: nat, j: nat, c: nat, ui: nat)
    requires CacheSound(sim, cache) && SymmetricOn(sim, ctxs)
    requires forall e :: e in RowOf(d.trainCtx, ui) ==> e.col in ctxs
    ensures var p := FromRatedContexts(d, sim, cache, u, j, c, ui);
      var r := RatedReference(d, sim, u, j, c, ui);
      p.Ok? == r.Ok? && (p.Ok? ==> p.value.0 == r.value && CacheSound(sim, p.value.1))
  {
    WeighMatchesTerms(sim, ctxs, cache, j, c, RowOf(d.trainCtx, ui));
  }

  /** The cache changes nothing: from a sound cache of a symmetric
      similarity, Chen1 predicts what it would predict without one, fails
      exactly when that fails, and leaves a sound cache behind. */
  lemma Chen1MatchesReferenceWith(d: Data, sim: SimFn, cache: Cache, u: nat, j: nat, c: nat)
    requires DataValid(d) && CacheSound(sim, cache) && SituationsUniform(d)
    requires SymmetricOn(sim, d.sit.ctxConds.Keys)
    ensures var p := Chen1PredictWith(d, sim, cache, u, j, c);
      var r := Chen1ReferenceWith(d, sim, u, j, c);
      p.Ok? == r.Ok? && (p.Ok? ==> p.value.0 == r.value && CacheSound(sim, p.value.1))
  {
    var ui := PairIdOf(d.x, u, j);
    if ui != -1 && ui in Rows(d.trainCtx) {
      RatedMatchesReference(d, sim, d.sit.ctxConds.Keys, cache, u, j, c, ui as nat);
    }
  }

  /** The same for Chen1 with the users' similarity. */
  lemma Chen1MatchesReference(d: Data, cache: Cache, u: nat, j: nat, c: nat)
    requires DataValid(d) && CacheSound(SimilarityFn(d), cache) && SituationsUniform(d)
    ensures var p := Chen1Predict(d, cache, u, j, c);
      var r := Chen1ReferenceWith(d, SimilarityFn(d), u, j, c);
      p.Ok? == r.Ok? && (p.Ok? ==> p.value.0 == r.value && CacheSound(SimilarityFn(d), p.value.1))
  {
    SimilarityFnSymmetric(d);
    Chen1MatchesReferenceWith(d, SimilarityFn(d), cache, u, j, c);
  }

  /** The same for Chen1 as written. */
  lemma Chen1AsWrittenMatchesReference(d: Data, cache: Cache, u: nat, j: nat, c: nat)
    requires DataValid(d) && CacheSound(SimilarityAsWrittenFn(d), cache) && SituationsUniform(d)
    ensures var p := Chen1PredictAsWritten(d, cache, u, j, c);
      var r := Chen1ReferenceWith(d, SimilarityAsWrittenFn(d), u, j, c);
      p.Ok? == r.Ok? && (p.Ok? ==> p.value.0 == r.value && CacheSound(SimilarityAsWrittenFn(d), p.value.1))
  {
    SimilarityAsWrittenFnSymmetric(d);
    Chen1MatchesReferenceWith(d, SimilarityAsWrittenFn(d), cache, u, j, c);
  }

  /** When every situation the pair rated is positively similar to c, the
      prediction lies within the range of the pair's ratings; a pair with
      no training row gets the fallback. */
  lemma Chen1Bounds(d: Data, sim: SimFn, u: nat, j: nat, c: nat, lo: real, hi: real)
    requires DataValid(d)
    requires var ui := PairIdOf(d.x, u, j);
      ui != -1 ==> forall e :: e in d.trainCtx && e.row == ui ==>
        lo <= e.val <= hi && sim(j, c, e.col).Ok? && sim(j, c, e.col).value > 0.0
    ensures var ui := PairIdOf(d.x, u, j);
      (ui == -1 || ui !in Rows(d.trainCtx)) ==> Chen1ReferenceWith(d, sim, u, j, c) == Ok(Fallback(d, u, j))
    ensures var ui := PairIdOf(d.x, u, j);
      ui != -1 && ui in Rows(d.trainCtx) ==> Chen1ReferenceWith(d, sim, u, j, c).Ok? && lo <= Chen1ReferenceWith(d, sim, u, j, c).value <= hi
  {
    var ui := PairIdOf(d.x, u, j);
    if ui != -1 && ui in Rows(d.trainCtx) {
      var cells := RowOf(d.trainCtx, ui as nat);
      var i :| 0 <= i < |d.trainCtx| && d.trainCtx[i].row == ui;
      assert d.trainCtx[i] in cells;
      SimTermsOk(sim, j, c, cells);
      var ts := SimTerms(sim, j, c, cells).value;
      forall k | 0 <= k < |ts|
        ensures ts[k].0 > 0.0 && lo <= ts[k].1 <= hi
      {
        assert cells[k] in cells;
      }
      PositiveWeights(ts);
      WeightedMeanBounds(ts, lo, hi);
    }
  }

  lemma {:induction false} SimTermsOk(sim: SimFn, item: nat, c: nat, cells: Matrix)
    requires forall e :: e in cells ==> sim(item, c, e.col).Ok?
    ensures SimTerms(sim, item, c, cells).Ok?
  {
    if |cells| > 0 {
      assert cells[0] in cells;
      assert forall e :: e in cells[1..] ==> e in cells;
      SimTermsOk(sim, item, c, cells[1..]);
    }
  }

  // ---------------------------------------------------------------------
  // Chen2

  /** Chen2.predictNeighborRating(v, j, c): a registered pair's positive
      rating in exactly c is returned as it is; otherwise Chen1's chain. */
  function NeighbourRating(d: Data, sim: SimFn, cache: Cache, v: nat, j: nat, c: nat): (r: Result<(real, Cache)>)
    requires DataValid(d)
  {
    var ui := PairIdOf(d.x, v, j);
    if ui == -1 || ui !in Rows(d.trainCtx) then Ok((Fallback(d, v, j), cache))
    else if Get(d.trainCtx, ui as nat, c) > 0.0 then Ok((Get(d.trainCtx, ui as nat, c), cache))
    else FromRatedContexts(d, sim, cache, v, j, c, ui as nat)
  }

  /** A neighbour's exact rating in the target situation wins; without one
      the neighbour's rating is predicted as Chen1 predicts it. */
  lemma NeighbourRatingMeaning(d: Data, sim: SimFn, cache: Cache, v: nat, j: nat, c: nat)
    requires DataValid(d)
    ensures var ui := PairIdOf(d.x, v, j);
      ui != -1 && Get(d.trainCtx, ui as nat, c) > 0.0 ==>
        NeighbourRating(d, sim, cache, v, j, c) == Ok((Get(d.trainCtx, ui as nat, c), cache))
    ensures var ui := PairIdOf(d.x, v, j);
      (ui == -1 || Get(d.trainCtx, ui as nat, c) <= 0.0) ==>
        NeighbourRating(d, sim, cache, v, j, c) == Chen1PredictWith(d, sim, cache, v, j, c)
  {
    var ui := PairIdOf(d.x, v, j);
    if ui != -1 && Get(d.trainCtx, ui as nat, c) > 0.0 {
      CellIndex(d.trainCtx, ui as nat, c);
      var i :| 0 <= i < |d.trainCtx| && d.trainCtx[i].row == ui as nat && d.trainCtx[i].col == c;
    }
  }

  /** A stored key sits at some index. */
  lemma {:induction false} CellIndex(m: Matrix, r: nat, c: nat)
    requires Has(m, r, c)
    ensures exists i :: 0 <= i < |m| && m[i].row == r && m[i].col == c
  {
    if m[0].row != r || m[0].col != c {
      CellIndex(m[1..], r, c);
      var i :| 0 <= i < |m[1..]| && m[1..][i].row == r && m[1..][i].col == c;
      assert m[i + 1] == m[1..][i];
    }
  }

  /** A neighbour's rating as a function of the cache and the neighbour. */
  type RateFn = (Cache, nat) -> Result<(real, Cache)>

  function NeighbourRatingFn(d: Data, sim: SimFn, j: nat, c: nat): RateFn
    requires DataValid(d)
  {
    (cache: Cache, v: nat) => NeighbourRating(d, sim, cache, v, j, c)
  }

  /** Σ (predicted rating − user_avg)·sim and Σ sim over the neighbours,
      threading the cache. */
  function NeighbourSums(rate: RateFn, cache: Cache, ns: Matrix, userAvg: real): (r: Result<(real, real, Cache)>)
    decreases |ns|
  {
    if |ns| == 0 then Ok((0.0, 0.0, cache))
    else
      var rated :- rate(cache, ns[0].col);
      var rest :- NeighbourSums(rate, rated.1, ns[1..], userAvg);
      Ok(((rated.0 - userAvg) * ns[0].val + rest.0, ns[0].val + rest.1, rest.2))
  }

  /** Chen2.predict(u, j, c) with a given fallback rate_uj: the neighbours
      are UserKNN's; without any, or with Σ sim = 0, the result is rate_uj,
      and otherwise user_avg + Σ (pred − user_avg)·sim / Σ sim. */
  function Chen2With(d: Data, sim: SimFn, corrs: Matrix, knn: int, ranking: bool, cache: Cache, u: nat, j: nat, c: nat, rateUJ: real): (r: Result<(real, Cache)>)
    requires DataValid(d)
  {
    var ns := KNN.UserNeighbours(corrs, d.train, u, j, knn, ranking);
    Combine(NeighbourRatingFn(d, sim, j, c), cache, ns, KNN.UserMean(d.train, d.globalMean, u), rateUJ)
  }

  /** The part of Chen2.predict after the neighbour search. */
  function Combine(rate: RateFn, cache: Cache, ns: Matrix, userAvg: real, rateUJ: real): (r: Result<(real, Cache)>) {
    if |ns| == 0 then Ok((rateUJ, cache))
    else
      var s :- NeighbourSums(rate, cache, ns, userAvg);
      if s.1 == 0.0 then Ok((rateUJ, s.2)) else Ok((userAvg + s.0 / s.1, s.2))
  }

  /** The same with every rating computed afresh. */
  function CombineReference(rate: RateFn, ns: Matrix, userAvg: real, rateUJ: real): (r: Result<real>) {
    if |ns| == 0 then Ok(rateUJ)
    else
      var ts :- NeighbourTerms(rate, ns, userAvg);
      if TotalWeight(ts) == 0.0 then Ok(rateUJ) else Ok(userAvg + WeightedSum(ts) / TotalWeight(ts))
  }

  /** Chen2.predict as written: rate_uj is computed from the local `rate`,
      still 0, so the fallback is always globalMean, and the similarity
      loops over train.columns(). */
  function Chen2PredictAsWritten(d: Data, corrs: Matrix, knn: int, ranking: bool, cache: Cache, u: nat, j: nat, c: nat): (r: Result<(real, Cache)>)
    requires DataValid(d)
    ensures KNN.UserNeighbours(corrs, d.train, u, j, knn, ranking) == [] ==> r == Ok((d.globalMean, cache))
  {
    Chen2With(d, SimilarityAsWrittenFn(d), corrs, knn, ranking, cache, u, j, c, d.globalMean)
  }

  /** Chen2.predict with rate_uj = train.get(u, j) when positive, else
      globalMean, as the surrounding code reads it. */
  function Chen2Predict(d: Data, corrs: Matrix, knn: int, ranking: bool, cache: Cache, u: nat, j: nat, c: nat): (r: Result<(real, Cache)>)
    requires DataValid(d)
    ensures KNN.UserNeighbours(corrs, d.train, u, j, knn, ranking) == [] ==>
      r == Ok((if Get(d.train, u, j) > 0.0 then Get(d.train, u, j) else d.globalMean, cache))
  {
    Chen2With(d, SimilarityFn(d), corrs, knn, ranking, cache, u, j, c, Fallback(d, u, j))
  }

  /** A user who rated j 4 and has no neighbours: as written Chen2 predicts
      globalMean (3), where the 2D rating 4 was meant. */
  lemma Chen2FallbackCounterexample(d: Data, knn: int, ranking: bool, cache: Cache, c: nat)
    requires DataValid(d)
    requires d.train == [Entry(0, 0, 4.0)] && d.globalMean == 3.0
    ensures Chen2PredictAsWritten(d, [], knn, ranking, cache, 0, 0, c) == Ok((3.0, cache))
    ensures Chen2Predict(d, [], knn, ranking, cache, 0, 0, c) == Ok((4.0, cache))
  {
    assert RowOf([], 0) == [];
    assert KNN.UserNeighbours([], d.train, 0, 0, knn, ranking) == [];
    assert Get(d.train, 0, 0) == 4.0;
  }

  /** Each neighbour's predicted rating computed afresh, as
      (sim, pred − user_avg). */
  function NeighbourTerms(rate: RateFn, ns: Matrix, userAvg: real): (r: Result<seq<(real, real)>>)
    ensures r.Ok? ==> |r.value| == |ns|
    ensures r.Ok? ==> forall k :: 0 <= k < |ns| ==> r.value[k].0 == ns[k].val
  {
    if |ns| == 0 then Ok([])
    else
      var rated :- rate(map[], ns[0].col);
      var rest :- NeighbourTerms(rate, ns[1..], userAvg);
      Ok([(ns[0].val, rated.0 - userAvg)] + rest)
  }

  /** From a sound cache, a rating is the one computed from an empty cache,
      and the cache it leaves is sound. */
  ghost predicate Agrees(rate: RateFn, sim: SimFn, cache: Cache, v: nat) {
    var p := rate(cache, v);
    var q := rate(map[], v);
    p.Ok? == q.Ok? && (p.Ok? ==> p.value.0 == q.value.0 && CacheSound(sim, p.value.1))
  }

  ghost predicate RateSound(rate: RateFn, sim: SimFn) {
    forall cache: Cache, v: nat :: CacheSound(sim, cache) ==> Agrees(rate, sim, cache, v)
  }

  /** A neighbour's predicted rating does not depend on the sound cache it
      reads, and the cache stays sound. */
  lemma NeighbourRatingSound(d: Data, sim: SimFn, ctxs: set<nat>, cache: Cache, v: nat, j: nat, c: nat)
    requires DataValid(d) && CacheSound(sim, cache) && SymmetricOn(sim, ctxs)
    requires forall e :: e in d.trainCtx ==> e.col in ctxs
    ensures var p := NeighbourRating(d, sim, cache, v, j, c);
      var q := NeighbourRating(d, sim, map[], v, j, c);
      p.Ok? == q.Ok? && (p.Ok? ==> p.value.0 == q.value.0 && CacheSound(sim, p.value.1))
  {
    var ui := PairIdOf(d.x, v, j);
    if ui != -1 && ui in Rows(d.trainCtx) && Get(d.trainCtx, ui as nat, c) <= 0.0 {
      RatedMatchesReference(d, sim, ctxs, cache, v, j, c, ui as nat);
      RatedMatchesReference(d, sim, ctxs, map[], v, j, c, ui as nat);
    }
  }

  lemma NeighbourRatingFnSound(d: Data, sim: SimFn, ctxs: set<nat>, j: nat, c: nat)
    requires DataValid(d) && SymmetricOn(sim, ctxs)
    requires forall e :: e in d.trainCtx ==> e.col in ctxs
    ensures RateSound(NeighbourRatingFn(d, sim, j, c), sim)
  {
    forall cache: Cache, v: nat | CacheSound(sim, cache)
      ensures Agrees(NeighbourRatingFn(d, sim, j, c), sim, cache, v)
    {
      NeighbourRatingSound(d, sim, ctxs, cache, v, j, c);
    }
  }

  /** On uniform situations Chen2's neighbour ratings read the similarity
      cache soundly. */
  lemma ChenRatingSound(d: Data, j: nat, c: nat)
    requires DataValid(d) && SituationsUniform(d)
    ensures RateSound(NeighbourRatingFn(d, SimilarityFn(d), j, c), SimilarityFn(d))
  {
    SimilarityFnSymmetric(d);
    NeighbourRatingFnSound(d, SimilarityFn(d), d.sit.ctxConds.Keys, j, c);
  }

  /** The cached neighbour loop computes the sums of the uncached terms. */
  lemma {:induction false} NeighbourSumsMatchTerms(rate: RateFn, sim: SimFn, cache: Cache, ns: Matrix, userAvg: real)
    requires RateSound(rate, sim) && CacheSound(sim, cache)
    decreases |ns|
    ensures var s := NeighbourSums(rate, cache, ns, userAvg);
      var t := NeighbourTerms(rate, ns, userAvg);
      s.Ok? == t.Ok?
      && (s.Ok? ==> s.value.0 == WeightedSum(t.value) && s.value.1 == TotalWeight(t.value) && CacheSound(sim, s.value.2))
  {
    if |ns| > 0 {
      assert Agrees(rate, sim, cache, ns[0].col);
      var rated := rate(cache, ns[0].col);
      if rated.Ok? {
        NeighbourSumsMatchTerms(rate, sim, rated.value.1, ns[1..], userAvg);
        var t := NeighbourTerms(rate, ns, userAvg);
        if t.Ok? {
          assert t.value[1..] == NeighbourTerms(rate, ns[1..], userAvg).value;
          assert WeightedSum(t.value) == Product(t.value[0]) + WeightedSum(t.value[1..]);
          assert TotalWeight(t.value) == Weight(t.value[0]) + TotalWeight(t.value[1..]);
        }
      }
    }
  }

  /** Chen2's prediction with every neighbour rating computed afresh. */
  function Chen2ReferenceWith(d: Data, sim: SimFn, corrs: Matrix, knn: int, ranking: bool, u: nat, j: nat, c: nat, rateUJ: real): (r: Result<real>)
    requires DataValid(d)
  {
    var ns := KNN.UserNeighbours(corrs, d.train, u, j, knn, ranking);
    CombineReference(NeighbourRatingFn(d, sim, j, c), ns, KNN.UserMean(d.train, d.globalMean, u), rateUJ)
  }

  lemma CombineMatchesReference(rate: RateFn, sim: SimFn, cache: Cache, ns: Matrix, userAvg: real, rateUJ: real)
    requires RateSound(rate, sim) && CacheSound(sim, cache)
    ensures var p := Combine(rate, cache, ns, userAvg, rateUJ);
      var r := CombineReference(rate, ns, userAvg, rateUJ);
      p.Ok? == r.Ok? && (p.Ok? ==> p.value.0 == r.value && CacheSound(sim, p.value.1))
  {
    NeighbourSumsMatchTerms(rate, sim, cache, ns, userAvg);
  }

  /** The cache changes nothing: from a sound cache Chen2 predicts what it
      would predict without one and leaves a sound cache behind. */
  lemma Chen2MatchesReference(d: Data, corrs: Matrix, knn: int, ranking: bool, cache: Cache, u: nat, j: nat, c: nat)
    requires DataValid(d) && CacheSound(SimilarityFn(d), cache) && SituationsUniform(d)
    ensures var p := Chen2Predict(d, corrs, knn, ranking, cache, u, j, c);
      var r := Chen2ReferenceWith(d, SimilarityFn(d), corrs, knn, ranking, u, j, c, Fallback(d, u, j));
      p.Ok? == r.Ok? && (p.Ok? ==> p.value.0 == r.value && CacheSound(SimilarityFn(d), p.value.1))
  {
    var ns := KNN.UserNeighbours(corrs, d.train, u, j, knn, ranking);
    ChenRatingSound(d, j, c);
    CombineMatchesReference(NeighbourRatingFn(d, SimilarityFn(d), j, c), SimilarityFn(d), cache, ns, KNN.UserMean(d.train, d.globalMean, u), Fallback(d, u, j));
  }

  /** The same for Chen2 as written, with the written similarity and
      globalMean as the fallback. */
  lemma Chen2AsWrittenMatchesReference(d: Data, corrs: Matrix, knn: int, ranking: bool, cache: Cache, u: nat, j: nat, c: nat)
    requires DataValid(d) && CacheSound(SimilarityAsWrittenFn(d), cache) && SituationsUniform(d)
    ensures var p := Chen2PredictAsWritten(d, corrs, knn, ranking, cache, u, j, c);
      var r := Chen2ReferenceWith(d, SimilarityAsWrittenFn(d), corrs, knn, ranking, u, j, c, d.globalMean);
      p.Ok? == r.Ok? && (p.Ok? ==> p.value.0 == r.value && CacheSound(SimilarityAsWrittenFn(d), p.value.1))
  {
    var sim := SimilarityAsWrittenFn(d);
    var ns := KNN.UserNeighbours(corrs, d.train, u, j, knn, ranking);
    SimilarityAsWrittenFnSymmetric(d);
    NeighbourRatingFnSound(d, sim, d.sit.ctxConds.Keys, j, c);
    CombineMatchesReference(NeighbourRatingFn(d, sim, j, c), sim, cache, ns, KNN.UserMean(d.train, d.globalMean, u), d.globalMean);
  }

  /** In rating mode the neighbours' similarities are positive, so with
      neighbours the prediction is the similarity-weighted mean of their
      predicted ratings and lies within any range holding those. */
  lemma Chen2Bounds(d: Data, sim: SimFn, corrs: Matrix, knn: int, u: nat, j: nat, c: nat, rateUJ: real, lo: real, hi: real)
    requires DataValid(d)
    requires forall v: nat :: NeighbourRating(d, sim, map[], v, j, c).Ok? ==>
      lo <= NeighbourRating(d, sim, map[], v, j, c).value.0 <= hi
    ensures var r := Chen2ReferenceWith(d, sim, corrs, knn, false, u, j, c, rateUJ);
      KNN.UserNeighbours(corrs, d.train, u, j, knn, false) != [] && r.Ok? ==> lo <= r.value <= hi
  {
    var ns := KNN.UserNeighbours(corrs, d.train, u, j, knn, false);
    var rate := NeighbourRatingFn(d, sim, j, c);
    assert forall v: nat :: rate(map[], v) == NeighbourRating(d, sim, map[], v, j, c);
    forall k | 0 <= k < |ns|
      ensures ns[k].val > 0.0
    {
      assert ns[k] in multiset(ns);
    }
    CombineBounds(rate, ns, KNN.UserMean(d.train, d.globalMean, u), rateUJ, lo, hi);
  }

  /** With positive weights, a combination of neighbour ratings that lie
      in [lo, hi] lies in [lo, hi]. */
  lemma CombineBounds(rate: RateFn, ns: Matrix, userAvg: real, rateUJ: real, lo: real, hi: real)
    requires forall v: nat :: rate(map[], v).Ok? ==> lo <= rate(map[], v).value.0 <= hi
    requires forall k :: 0 <= k < |ns| ==> ns[k].val > 0.0
    ensures var r := CombineReference(rate, ns, userAvg, rateUJ);
      |ns| > 0 && r.Ok? ==> lo <= r.value <= hi
  {
    var t := NeighbourTerms(rate, ns, userAvg);
    if |ns| > 0 && t.Ok? {
      NeighbourTermsBounds(rate, ns, userAvg, lo, hi);
      PositiveWeights(t.value);
      WeightedMeanBounds(t.value, lo - userAvg, hi - userAvg);
    }
  }

  lemma {:induction false} NeighbourTermsBounds(rate: RateFn, ns: Matrix, userAvg: real, lo: real, hi: real)
    requires forall v: nat :: rate(map[], v).Ok? ==> lo <= rate(map[], v).value.0 <= hi
    ensures var t := NeighbourTerms(rate, ns, userAvg);
      t.Ok? ==> forall k :: 0 <= k < |t.value| ==> lo - userAvg <= t.value[k].1 <= hi - userAvg
  {
    if |ns| > 0 {
      NeighbourTermsBounds(rate, ns[1..], userAvg, lo, hi);
    }
  }

  // ---------------------------------------------------------------------
  // The user loop of getContextsSimilarity

  /** The data of the counterexample below: one user, who rated item 5
      with 3 and rated it in situations 0 and 1 (with 5 and 1), one
      condition each; "5,5" is not a pair. */
  predicate ColumnsExample(d: Data)
    requires DataValid(d)
  {
    d.train == [Entry(0, 5, 3.0)]
    && d.trainCtx == [Entry(0, 0, 5.0), Entry(0, 1, 1.0)]
    && PairIdOf(d.x, 0, 5) == 0 && PairIdOf(d.x, 5, 5) == -1
    && d.sit.ctxConds == map[0 := [0], 1 := [1]] && d.sit.condCtxs == map[0 := {0}, 1 := {1}]
    && RootOf(d, 4.0) == 2.0
  }

  /** The mean of one cell is its value. */
  lemma MeanOfOne(e: Entry)
    ensures MeanOrElse([e], 0.0) == e.val
  {
    assert [e][1..] == [];
    assert Total([e]) == Val(e) + Total([]);
  }

  lemma ExampleItemMean(d: Data)
    requires DataValid(d) && ColumnsExample(d)
    ensures KNN.ItemMean(d.train, d.globalMean, 5) == 3.0
  {
    assert d.train[1..] == [];
    assert ColOf(d.train, 5) == [Entry(0, 5, 3.0)];
    MeanOfOne(Entry(0, 5, 3.0));
  }

  /** A single score gives the loop's sim / count directly. */
  lemma AggregateSingle(x: Option<real>)
    ensures Aggregate([x]) == if x.Some? then x.value else 0.0
  {
    assert [x][1..] == [];
    assert Tally([x][1..]) == (0.0, 0);
    if x.Some? {
      assert Tally([x]) == (x.value, 1);
    } else {
      assert Tally([x]) == (0.0, 0);
    }
  }

  /** With no pair for "user" 5 the vectors are empty: sim1 is 0. */
  lemma ExampleAsWrittenScore(d: Data)
    requires DataValid(d) && ColumnsExample(d)
    ensures DimScore(d, [5], 5, 0, 1) in {None, Some(0.0)}
  {
    var avg := KNN.ItemMean(d.train, d.globalMean, 5);
    assert Component(d, 5, 5, avg, 0, 1) == None;
    assert [5][1..] == [];
    assert Components(d, [5], 5, avg, 0, 1) == [];
    assert DimMoments(d, [5], 5, avg, 0, 1) == Moments(0.0, 0.0, 0.0);
  }

  /** Looping over the item ids, the only "user" is 5, whose pair with item
      5 does not exist: no dimension has a vector, and the similarity is 0. */
  lemma ColumnsAsUsersAsWritten(d: Data)
    requires DataValid(d) && ColumnsExample(d)
    ensures SimilarityAsWritten(d, 5, 0, 1) == Ok(0.0)
  {
    assert d.train[1..] == [];
    assert ColIds(d.train) == [5];
    var score := DimScore(d, [5], 5, 0, 1);
    ExampleAsWrittenScore(d);
    assert Scores(d, [5], 5, [0], [1]) == [score];
    AggregateSingle(score);
  }

  lemma ExampleCondCells(d: Data)
    requires DataValid(d) && ColumnsExample(d)
    ensures DataViews.CondCells(RowOf(d.trainCtx, 0), d.sit, 0) == [Entry(0, 0, 5.0)]
    ensures DataViews.CondCells(RowOf(d.trainCtx, 0), d.sit, 1) == [Entry(0, 1, 1.0)]
  {
    ExampleCondCellsOf(d.trainCtx, d.sit);
  }

  /** ExampleCondCells over the cells and the situation index alone. */
  lemma ExampleCondCellsOf(cells: Matrix, sit: SituationIndex)
    requires cells == [Entry(0, 0, 5.0), Entry(0, 1, 1.0)]
    requires sit.condCtxs == map[0 := {0}, 1 := {1}]
    ensures DataViews.CondCells(RowOf(cells, 0), sit, 0) == [Entry(0, 0, 5.0)]
    ensures DataViews.CondCells(RowOf(cells, 0), sit, 1) == [Entry(0, 1, 1.0)]
  {
    var a, b := Entry(0, 0, 5.0), Entry(0, 1, 1.0);
    TwoCells(a, b, 0, {0});
    TwoCells(a, b, 0, {1});
    assert DataViews.CondCtxs(sit, 0) == {0};
    assert DataViews.CondCtxs(sit, 1) == {1};
  }

  /** The row and the column filter of a two-cell matrix. */
  lemma TwoCells(a: Entry, b: Entry, r: nat, cols: set<nat>)
    ensures RowOf([a, b], r) == (if a.row == r then [a] else []) + (if b.row == r then [b] else [])
    ensures ColsIn([a, b], cols) == (if a.col in cols then [a] else []) + (if b.col in cols then [b] else [])
  {
    assert [a, b][1..] == [b] && [b][1..] == [];
  }

  lemma ExampleCondMeans(d: Data)
    requires DataValid(d) && ColumnsExample(d)
    ensures CondMean(d, 0, 0) == Some(5.0) && CondMean(d, 0, 1) == Some(1.0)
  {
    ExampleCondCells(d);
    var c0 := [Entry(0, 0, 5.0)];
    var c1 := [Entry(0, 1, 1.0)];
    assert c0[1..] == [] && c1[1..] == [];
    assert PositiveCells(c0) == c0;
    assert PositiveCells(c1) == c1;
    MeanOfOne(c0[0]);
    MeanOfOne(c1[0]);
  }

  lemma ExampleComponents(d: Data)
    requires DataValid(d) && ColumnsExample(d)
    ensures Components(d, [0], 5, 3.0, 0, 1) == [(2.0, -2.0)]
  {
    ExampleCondMeans(d);
    assert 0 in Rows(d.trainCtx) by {
      assert d.trainCtx[0].row == 0;
    }
    assert Component(d, 0, 5, 3.0, 0, 1) == Some((2.0, -2.0));
    OneUserComponents(d, 0, 5, 3.0, 0, 1);
  }

  /** The components of one user are that user's component, if any. */
  lemma OneUserComponents(d: Data, user: nat, item: nat, avg: real, condA: nat, condB: nat)
    requires DataValid(d)
    ensures Components(d, [user], item, avg, condA, condB) ==
      match Component(d, user, item, avg, condA, condB)
      case None => []
      case Some(p) => [p]
  {
    assert [user][1..] == [];
  }

  /** The deviations 2 and -2 give sim1 = -4 and sim2 = sim3 = 4. */
  lemma ExampleMoments()
    ensures MomentsOf([(2.0, -2.0)]) == Moments(-4.0, 4.0, 4.0)
  {
    var comps := [(2.0, -2.0)];
    assert comps[1..] == [];
  }

  /** On the one dimension the cosine over the users is -4 / (2 · 2). */
  lemma ExampleCorrectedScore(d: Data)
    requires DataValid(d) && ColumnsExample(d)
    ensures DimScore(d, [0], 5, 0, 1) == Some(-1.0)
  {
    ExampleItemMean(d);
    ExampleComponents(d);
    ExampleMoments();
    assert DimMoments(d, [0], 5, 3.0, 0, 1) == Moments(-4.0, 4.0, 4.0);
    assert Cosine(-4.0, 2.0, 2.0) == Some(-1.0);
  }

  /** Looping over the users, user 0 contributes the deviations 2 and -2,
      whose cosine is -1. */
  lemma ColumnsAsUsersCorrected(d: Data)
    requires DataValid(d) && ColumnsExample(d)
    ensures Similarity(d, 5, 0, 1) == Ok(-1.0)
  {
    assert d.train[1..] == [];
    assert RowIds(d.train) == [0];
    ExampleCorrectedScore(d);
    assert Scores(d, [0], 5, [0], [1]) == [Some(-1.0)];
    AggregateSingle(Some(-1.0));
  }
}
