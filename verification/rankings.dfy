/** The ranking evaluation of carskit.generic.Recommender (evalRankings):
    the candidate items, the items filter, the ground truth of each (user,
    situation) and the truncated ranked list that the metrics receive. The
    metric formulas themselves belong to an external library. */
module Rankings {
  import opened Wrappers
  import opened Sorting

  // ---------------------------------------------------------------------
  // The items filter

  datatype ItemsFilter = NoFilter | UserFilter | UserContextFilter

  function FilterName(f: ItemsFilter): string {
    match f
    case NoFilter => "none"
    case UserFilter => "user"
    case UserContextFilter => "user-context"
  }

  const InvalidFilter := "Filter defined in items.filter is invalid"

  /** The items.filter option is one of CANDIDATE_ITEMS_FILTERS; any other
      value ends the program. */
  function ParseItemsFilter(s: string): (r: Result<ItemsFilter>)
    ensures r.Ok? <==> s == "none" || s == "user" || s == "user-context"
    ensures r.Ok? ==> FilterName(r.value) == s
  {
    if s == "none" then Ok(NoFilter)
    else if s == "user" then Ok(UserFilter)
    else if s == "user-context" then Ok(UserContextFilter)
    else Err(InvalidFilter)
  }

  lemma FilterNameRoundTrip(f: ItemsFilter)
    ensures ParseItemsFilter(FilterName(f)) == Ok(f)
  {
  }

  // ---------------------------------------------------------------------
  // Candidate items

  /** The elements of s that satisfy p, in order. */
  function Select(s: seq<nat>, p: nat -> bool): (r: seq<nat>)
    ensures forall j :: j in r <==> j in s && p(j)
    ensures |r| <= |s|
  {
    if |s| == 0 then []
    else
      var n := |s| - 1;
      assert forall j :: j in s <==> j in s[..n] || j == s[n] by {
        assert s == s[..n] + [s[n]];
      }
      Select(s[..n], p) + (if p(s[n]) then [s[n]] else [])
  }

  /** The items removed when numIgnore > 0: the numIgnore items with the
      most training ratings (all of them when there are fewer). */
  function Ignored(items: seq<nat>, degree: nat -> real, numIgnore: int): (r: seq<nat>)
    ensures numIgnore <= 0 ==> r == []
    ensures numIgnore > 0 ==> |r| == if numIgnore < |items| then numIgnore else |items|
    ensures multiset(r) <= multiset(items)
    ensures forall x, y :: x in multiset(r) && y in multiset(items) - multiset(r) ==> degree(x) >= degree(y)
  {
    if numIgnore > 0 then TopK(items, numIgnore, degree) else []
  }

  /** candItems: the training items without the ignored ones. Every removed
      item has at least as many training ratings as every kept one. */
  function Candidates(items: seq<nat>, degree: nat -> real, numIgnore: int): (cands: seq<nat>)
    ensures forall j :: j in cands <==> j in items && j !in Ignored(items, degree, numIgnore)
    ensures numIgnore <= 0 ==> cands == items
    ensures forall x, y :: x in items && x !in cands && y in cands ==> degree(x) >= degree(y)
  {
    var gone := Ignored(items, degree, numIgnore);
    var cands := Select(items, j => j !in gone);
    forall x, y | x in items && x !in cands && y in cands
      ensures degree(x) >= degree(y)
    {
      assert x in multiset(gone);
      assert multiset(gone)[y] == 0;
      assert y in multiset(items) - multiset(gone);
    }
    assert numIgnore <= 0 ==> cands == items by {
      if numIgnore <= 0 {
        assert forall k :: 0 <= k < |items| ==> items[k] !in gone;
        SelectAll(items, j => j !in gone);
      }
    }
    cands
  }

  lemma {:induction false} SelectAll(s: seq<nat>, p: nat -> bool)
    requires forall k :: 0 <= k < |s| ==> p(s[k])
    ensures Select(s, p) == s
  {
    if |s| > 0 {
      var n := |s| - 1;
      var front := s[..n];
      assert forall k :: 0 <= k < n ==> front[k] == s[k];
      SelectAll(front, p);
      assert p(s[n]);
      assert Select(s, p) == Select(front, p) + [s[n]];
      assert s == front + [s[n]];
    }
  }

  // ---------------------------------------------------------------------
  // One (user, situation)

  /** An item passes the filter unless the filter is on and the item is in
      ratedItems. */
  predicate Passes(filter: ItemsFilter, rated: set<nat>, j: nat) {
    filter == NoFilter || j !in rated
  }

  /** itemScores: the candidates that pass the filter and whose ranking
      score is not NaN (None), with that score, in candidate order. */
  function Scored(cands: seq<nat>, filter: ItemsFilter, rated: set<nat>, score: nat -> Option<real>): (r: seq<(nat, real)>)
    ensures |r| <= |cands|
    ensures forall k :: 0 <= k < |r| ==> r[k].0 in cands && Passes(filter, rated, r[k].0) && score(r[k].0) == Some(r[k].1)
  {
    if |cands| == 0 then []
    else
      var n := |cands| - 1;
      var j := cands[n];
      var init := Scored(cands[..n], filter, rated, score);
      assert forall k :: 0 <= k < |init| ==> init[k].0 in cands;
      init + (if Passes(filter, rated, j) && score(j).Some? then [(j, score(j).value)] else [])
  }

  /** The number of numCands-- steps: candidates the filter blocks. */
  function Blocked(cands: seq<nat>, filter: ItemsFilter, rated: set<nat>): nat {
    if |cands| == 0 then 0
    else
      var n := |cands| - 1;
      Blocked(cands[..n], filter, rated) + (if Passes(filter, rated, cands[n]) then 0 else 1)
  }

  function ScoreOf(e: (nat, real)): real {
    e.1
  }

  function Items(es: seq<(nat, real)>): (r: seq<nat>)
    ensures |r| == |es| && forall k :: 0 <= k < |es| ==> r[k] == es[k].0
  {
    if |es| == 0 then [] else [es[0].0] + Items(es[1..])
  }

  /** What the metrics of one (user, situation) receive: the ranked items,
      the correct items and numDropped. */
  datatype Ranking = Ranking(ctx: nat, ranked: seq<nat>, correct: set<nat>, numDropped: int)

  /** The recomd list: the scored candidates sorted by score, largest first,
      cut to numRecs when numRecs is positive and smaller. */
  function Recommended(scored: seq<(nat, real)>, numRecs: int): (r: seq<(nat, real)>)
  {
    var sorted := SortDesc(scored, ScoreOf);
    if numRecs <= 0 || |sorted| <= numRecs then sorted else sorted[..numRecs]
  }

  /** numTopNRanks: how many recommendations are written out, 10 when
      numRecs is negative. */
  function TopNRanks(numRecs: int): int {
    if numRecs < 0 then 10 else numRecs
  }

  /** The loop over recomd that fills rankedItems. The output branch is
      always on, so each item is added and, while count < numTopNRanks,
      written out; the loop breaks as soon as count reaches numTopNRanks.
      When count starts at or above numTopNRanks (numTopNRanks 0), nothing
      is written and every item is added. */
  function RankLoop(recomd: seq<(nat, real)>, numTopNRanks: int, count: int): (r: seq<(nat, real)>)
    ensures r <= recomd
    ensures |r| == if count < numTopNRanks && numTopNRanks - count < |recomd| then numTopNRanks - count else |recomd|
    decreases |recomd|
  {
    if |recomd| == 0 then []
    else if count < numTopNRanks then
      if count + 1 >= numTopNRanks then [recomd[0]]
      else [recomd[0]] + RankLoop(recomd[1..], numTopNRanks, count + 1)
    else [recomd[0]] + RankLoop(recomd[1..], numTopNRanks, count)
  }

  /** The body of the situation loop after posItems: None when the
      situation is skipped (no correct item, or nothing to rank). */
  function EvalSituation(cands: seq<nat>, ctx: nat, pos: set<nat>, filter: ItemsFilter, rated: set<nat>,
                         score: nat -> Option<real>, numRecs: int): (r: Option<Ranking>)
  {
    if !HasCorrect(cands, pos) then None
    else
      var correct := set j | j in pos && j in cands;
      var scored := Scored(cands, filter, rated, score);
      if |scored| == 0 then None
      else
        var recomd := Recommended(scored, numRecs);
        var ranked := RankLoop(recomd, TopNRanks(numRecs), 0);
        var numCands := |cands| - Blocked(cands, filter, rated);
        Some(Ranking(ctx, Items(ranked), correct, numCands - |ranked|))
  }

  /** Some candidate passes the filter with a score. */
  predicate Rankable(cands: seq<nat>, filter: ItemsFilter, rated: set<nat>, score: nat -> Option<real>) {
    exists k :: 0 <= k < |cands| && Passes(filter, rated, cands[k]) && score(cands[k]).Some?
  }

  lemma {:induction false} ScoredEmpty(cands: seq<nat>, filter: ItemsFilter, rated: set<nat>, score: nat -> Option<real>)
    ensures |Scored(cands, filter, rated, score)| == 0 <==> !Rankable(cands, filter, rated, score)
  {
    if |cands| > 0 {
      var n := |cands| - 1;
      ScoredEmpty(cands[..n], filter, rated, score);
      if Rankable(cands[..n], filter, rated, score) {
        var k :| 0 <= k < n && Passes(filter, rated, cands[..n][k]) && score(cands[..n][k]).Some?;
        assert cands[k] == cands[..n][k];
      }
      if Rankable(cands, filter, rated, score) && !(Passes(filter, rated, cands[n]) && score(cands[n]).Some?) {
        var k :| 0 <= k < |cands| && Passes(filter, rated, cands[k]) && score(cands[k]).Some?;
        assert k < n && cands[..n][k] == cands[k];
      }
    }
  }

  /** A situation is skipped iff none of its test items is a candidate or
      no candidate passes the filter with a score. */
  lemma EvalSituationSkips(cands: seq<nat>, ctx: nat, pos: set<nat>, filter: ItemsFilter, rated: set<nat>,
                           score: nat -> Option<real>, numRecs: int)
    ensures EvalSituation(cands, ctx, pos, filter, rated, score, numRecs).None?
      <==> (forall j :: j in pos ==> j !in cands) || !Rankable(cands, filter, rated, score)
  {
    ScoredEmpty(cands, filter, rated, score);
    if !(forall j :: j in pos ==> j !in cands) {
      var j :| j in pos && j in cands;
      assert HasCorrect(cands, pos);
    }
  }

  /** The correct items are the test items that are candidates. */
  lemma EvalSituationCorrect(cands: seq<nat>, ctx: nat, pos: set<nat>, filter: ItemsFilter, rated: set<nat>,
                             score: nat -> Option<real>, numRecs: int)
    requires EvalSituation(cands, ctx, pos, filter, rated, score, numRecs).Some?
    ensures var r := EvalSituation(cands, ctx, pos, filter, rated, score, numRecs).value;
      r.ctx == ctx && forall j :: j in r.correct <==> j in pos && j in cands
  {
  }

  /** Elements of the recomd list are elements of the scored list. */
  lemma RecommendedFromScored(scored: seq<(nat, real)>, numRecs: int, k: nat)
    requires k < |Recommended(scored, numRecs)|
    ensures Recommended(scored, numRecs)[k] in scored
  {
    var sorted := SortDesc(scored, ScoreOf);
    assert Recommended(scored, numRecs)[k] == sorted[k];
    assert sorted[k] in multiset(sorted);
  }

  /** Every ranked item is a candidate that passes the filter and has a
      score; with a filter on, no ranked item is in ratedItems. */
  lemma EvalSituationRanked(cands: seq<nat>, ctx: nat, pos: set<nat>, filter: ItemsFilter, rated: set<nat>,
                            score: nat -> Option<real>, numRecs: int)
    requires EvalSituation(cands, ctx, pos, filter, rated, score, numRecs).Some?
    ensures var r := EvalSituation(cands, ctx, pos, filter, rated, score, numRecs).value;
      forall k :: 0 <= k < |r.ranked| ==>
        r.ranked[k] in cands && score(r.ranked[k]).Some? && (filter != NoFilter ==> r.ranked[k] !in rated)
  {
    var scored := Scored(cands, filter, rated, score);
    var recomd := Recommended(scored, numRecs);
    var ranked := RankLoop(recomd, TopNRanks(numRecs), 0);
    forall k | 0 <= k < |ranked|
      ensures ranked[k].0 in cands && score(ranked[k].0).Some? && (filter != NoFilter ==> ranked[k].0 !in rated)
    {
      assert ranked[k] == recomd[k];
      RecommendedFromScored(scored, numRecs, k);
      var i :| 0 <= i < |scored| && scored[i] == recomd[k];
    }
  }

  /** The ranked list has min(numRecs, scored) items when numRecs is
      positive, min(10, scored) when it is negative (the output cap breaks
      the loop), and every scored item when it is 0; numDropped counts the
      candidates that pass the filter but are not ranked. */
  lemma EvalSituationSizes(cands: seq<nat>, ctx: nat, pos: set<nat>, filter: ItemsFilter, rated: set<nat>,
                           score: nat -> Option<real>, numRecs: int)
    requires EvalSituation(cands, ctx, pos, filter, rated, score, numRecs).Some?
    ensures var r := EvalSituation(cands, ctx, pos, filter, rated, score, numRecs).value;
      var n := |Scored(cands, filter, rated, score)|;
      |r.ranked| == (if numRecs < 0 then (if 10 < n then 10 else n) else if 0 < numRecs < n then numRecs else n)
      && r.numDropped == |cands| - Blocked(cands, filter, rated) - |r.ranked|
      && r.numDropped >= 0
  {
    ScoredAndBlocked(cands, filter, rated, score);
  }

  lemma {:induction false} ScoredAndBlocked(cands: seq<nat>, filter: ItemsFilter, rated: set<nat>, score: nat -> Option<real>)
    ensures |Scored(cands, filter, rated, score)| + Blocked(cands, filter, rated) <= |cands|
  {
    if |cands| > 0 {
      ScoredAndBlocked(cands[..|cands| - 1], filter, rated, score);
    }
  }

  /** The ranked items come in non-increasing score order. */
  lemma EvalSituationOrder(cands: seq<nat>, ctx: nat, pos: set<nat>, filter: ItemsFilter, rated: set<nat>,
                           score: nat -> Option<real>, numRecs: int)
    requires EvalSituation(cands, ctx, pos, filter, rated, score, numRecs).Some?
    ensures var r := EvalSituation(cands, ctx, pos, filter, rated, score, numRecs).value;
      forall a, b :: 0 <= a < b < |r.ranked| ==>
        (score(r.ranked[a]).Some? && score(r.ranked[b]).Some? && score(r.ranked[a]).value >= score(r.ranked[b]).value)
  {
    var scored := Scored(cands, filter, rated, score);
    var sorted := SortDesc(scored, ScoreOf);
    var recomd := Recommended(scored, numRecs);
    var ranked := RankLoop(recomd, TopNRanks(numRecs), 0);
    assert EvalSituation(cands, ctx, pos, filter, rated, score, numRecs).value.ranked == Items(ranked);
    forall a, b | 0 <= a < b < |ranked|
      ensures score(ranked[a].0).Some? && score(ranked[b].0).Some? && score(ranked[a].0).value >= score(ranked[b].0).value
    {
      assert ranked[a] == recomd[a] && ranked[b] == recomd[b];
      RecommendedFromScored(scored, numRecs, a);
      RecommendedFromScored(scored, numRecs, b);
      assert recomd[a] == sorted[a] && recomd[b] == sorted[b];
      var i :| 0 <= i < |scored| && scored[i] == recomd[a];
      var i' :| 0 <= i' < |scored| && scored[i'] == recomd[b];
    }
  }

  /** Without a filter the ranking does not depend on ratedItems. */
  lemma {:induction false} NoFilterIgnoresRated(cands: seq<nat>, rated: set<nat>, rated': set<nat>, score: nat -> Option<real>)
    ensures Scored(cands, NoFilter, rated, score) == Scored(cands, NoFilter, rated', score)
    ensures Blocked(cands, NoFilter, rated) == 0
  {
    if |cands| > 0 {
      NoFilterIgnoresRated(cands[..|cands| - 1], rated, rated', score);
    }
  }

  // ---------------------------------------------------------------------
  // The user and situation loops

  /** A test user's situations in iteration order, each with its test items
      (posItems). */
  datatype TestUser = TestUser(user: nat, situations: seq<(nat, set<nat>)>)

  /** cList_train.values(): every item of a user's training situations. */
  function AllItems(trainU: map<nat, set<nat>>): set<nat> {
    set c, j | c in trainU && j in trainU[c] :: j
  }

  /** Some test item of the situation is a candidate. */
  predicate HasCorrect(cands: seq<nat>, pos: set<nat>) {
    exists j :: j in pos && j in cands
  }

  /** The situation loop of one user. ratedItems is carried in and out: the
      "user-context" filter replaces it only for a situation the user has
      training ratings in, and only once the situation has a correct item;
      otherwise the set from before (an earlier situation, or an earlier
      user) stays. */
  function Situations(cands: seq<nat>, u: nat, sits: seq<(nat, set<nat>)>, trainU: map<nat, set<nat>>,
                      filter: ItemsFilter, rated: set<nat>, score: (nat, nat, nat) -> Option<real>, numRecs: int): (r: (seq<Ranking>, set<nat>))
    ensures |r.0| <= |sits|
  {
    if |sits| == 0 then ([], rated)
    else
      var n := |sits| - 1;
      var (done, rated') := Situations(cands, u, sits[..n], trainU, filter, rated, score, numRecs);
      var (c, pos) := sits[n];
      if !HasCorrect(cands, pos) then (done, rated')
      else
        var rated2 := if filter == UserContextFilter && c in trainU then trainU[c] else rated';
        var r := EvalSituation(cands, c, pos, filter, rated2, (j: nat) => score(u, j, c), numRecs);
        (done + (if r.Some? then [r.value] else []), rated2)
  }

  /** The training situations of a user (cList_train), empty for a user
      without training ratings. */
  function TrainOf(train: map<nat, map<nat, set<nat>>>, u: nat): map<nat, set<nat>> {
    if u in train then train[u] else map[]
  }

  /** ratedItems when a user's loop starts: with the "user" filter, every
      item the user rated in training; otherwise what the previous user
      left. */
  function UserStart(filter: ItemsFilter, trainU: map<nat, set<nat>>, rated: set<nat>): set<nat> {
    if filter == UserFilter then AllItems(trainU) else rated
  }

  /** The user loop: per test user, the rankings its situations produced
      (possibly none), and the ratedItems left at the end. */
  function Users(cands: seq<nat>, users: seq<TestUser>, train: map<nat, map<nat, set<nat>>>,
                 filter: ItemsFilter, rated: set<nat>, score: (nat, nat, nat) -> Option<real>, numRecs: int): (r: (seq<seq<Ranking>>, set<nat>))
  {
    if |users| == 0 then ([], rated)
    else
      var n := |users| - 1;
      var (done, rated') := Users(cands, users[..n], train, filter, rated, score, numRecs);
      var tu := users[n];
      var trainU := TrainOf(train, tu.user);
      var (rs, rated2) := Situations(cands, tu.user, tu.situations, trainU, filter, UserStart(filter, trainU, rated'), score, numRecs);
      (done + [rs], rated2)
  }

  /** evalRankings up to the metrics: ratedItems starts empty. */
  function EvalRankings(cands: seq<nat>, users: seq<TestUser>, train: map<nat, map<nat, set<nat>>>,
                        filter: ItemsFilter, score: (nat, nat, nat) -> Option<real>, numRecs: int): seq<seq<Ranking>> {
    Users(cands, users, train, filter, {}, score, numRecs).0
  }

  /** Every test user gets an entry, even one all of whose situations were
      skipped. */
  lemma {:induction false} UsersCount(cands: seq<nat>, users: seq<TestUser>, train: map<nat, map<nat, set<nat>>>,
                                      filter: ItemsFilter, rated: set<nat>, score: (nat, nat, nat) -> Option<real>, numRecs: int)
    ensures |Users(cands, users, train, filter, rated, score, numRecs).0| == |users|
  {
    if |users| > 0 {
      UsersCount(cands, users[..|users| - 1], train, filter, rated, score, numRecs);
    }
  }

  lemma EvalRankingsPerUser(cands: seq<nat>, users: seq<TestUser>, train: map<nat, map<nat, set<nat>>>,
                            filter: ItemsFilter, score: (nat, nat, nat) -> Option<real>, numRecs: int)
    ensures |EvalRankings(cands, users, train, filter, score, numRecs)| == |users|
  {
    UsersCount(cands, users, train, filter, {}, score, numRecs);
  }

  /** The exception of the first ranked situation whose output line cannot
      name it (getContextSituationFromInnerId); None when every line can be
      written. */
  function FirstNameError(rs: seq<Ranking>, names: nat -> Result<string>): (e: Option<string>)
    ensures e.None? <==> forall i :: 0 <= i < |rs| ==> names(rs[i].ctx).Ok?
    ensures e.Some? ==> exists i :: 0 <= i < |rs| && names(rs[i].ctx) == Err(e.value)
                          && forall k :: 0 <= k < i ==> names(rs[k].ctx).Ok?
  {
    if |rs| == 0 then None
    else if names(rs[0].ctx).Err? then Some(names(rs[0].ctx).msg)
    else
      var rest := FirstNameError(rs[1..], names);
      assert forall i :: 1 <= i < |rs| ==> rs[i] == rs[1..][i - 1];
      if rest.Some? then
        var j :| 0 <= j < |rs[1..]| && names(rs[1..][j].ctx) == Err(rest.value)
                 && forall k :: 0 <= k < j ==> names(rs[1..][k].ctx).Ok?;
        assert names(rs[j + 1].ctx) == Err(rest.value);
        rest
      else rest
  }

  /** The first naming error over all users' rankings, users in order and
      within a user its situations in order; None when every ranked
      situation can be named. */
  function FirstRankingError(rss: seq<seq<Ranking>>, names: nat -> Result<string>): (e: Option<string>)
    ensures e.None? <==> forall u, k :: 0 <= u < |rss| && 0 <= k < |rss[u]| ==> names(rss[u][k].ctx).Ok?
    ensures e.Some? ==> exists u, k :: 0 <= u < |rss| && 0 <= k < |rss[u]| && names(rss[u][k].ctx) == Err(e.value)
  {
    if |rss| == 0 then None
    else
      var n := |rss| - 1;
      var front := rss[..n];
      var prev := FirstRankingError(front, names);
      assert forall u :: 0 <= u < n ==> front[u] == rss[u];
      if prev.Some? then
        var u, k :| 0 <= u < n && 0 <= k < |front[u]| && names(front[u][k].ctx) == Err(prev.value);
        assert names(rss[u][k].ctx) == Err(prev.value);
        prev
      else
        var last := FirstNameError(rss[n], names);
        if last.Some? then
          var k :| 0 <= k < |rss[n]| && names(rss[n][k].ctx) == Err(last.value);
          last
        else last
  }

  /** evalRankings as a whole. isResultsOut is always on, so every ranked
      (not skipped) situation also writes a line that names the situation
      through names; the first name that throws ends the evaluation with
      that exception. Otherwise the result is the per-user rankings. */
  function EvalRankingsRun(cands: seq<nat>, users: seq<TestUser>, train: map<nat, map<nat, set<nat>>>,
                           filter: ItemsFilter, score: (nat, nat, nat) -> Option<real>, numRecs: int,
                           names: nat -> Result<string>): (r: Result<seq<seq<Ranking>>>)
    ensures var rss := EvalRankings(cands, users, train, filter, score, numRecs);
      r.Ok? <==> forall u, k :: 0 <= u < |rss| && 0 <= k < |rss[u]| ==> names(rss[u][k].ctx).Ok?
    ensures r.Ok? ==> r.value == EvalRankings(cands, users, train, filter, score, numRecs)
    ensures var rss := EvalRankings(cands, users, train, filter, score, numRecs);
      r.Err? ==> exists u, k :: 0 <= u < |rss| && 0 <= k < |rss[u]| && names(rss[u][k].ctx) == Err(r.msg)
  {
    var rss := EvalRankings(cands, users, train, filter, score, numRecs);
    match FirstRankingError(rss, names)
    case Some(e) => Err(e)
    case None => Ok(rss)
  }

  /** When evalRankings completes, it has one entry per test user. */
  lemma EvalRankingsRunPerUser(cands: seq<nat>, users: seq<TestUser>, train: map<nat, map<nat, set<nat>>>,
                               filter: ItemsFilter, score: (nat, nat, nat) -> Option<real>, numRecs: int,
                               names: nat -> Result<string>)
    ensures var r := EvalRankingsRun(cands, users, train, filter, score, numRecs, names);
      r.Ok? ==> |r.value| == |users|
  {
    EvalRankingsPerUser(cands, users, train, filter, score, numRecs);
  }

  /** No ranked item of any ranking lies in the set. */
  predicate Avoids(rs: seq<Ranking>, items: set<nat>) {
    forall k, i :: 0 <= k < |rs| && 0 <= i < |rs[k].ranked| ==> rs[k].ranked[i] !in items
  }

  /** With the "user" filter, ratedItems stays what the user started with,
      and no ranking contains any of those items. */
  lemma {:induction false} SituationsUserFilter(cands: seq<nat>, u: nat, sits: seq<(nat, set<nat>)>, trainU: map<nat, set<nat>>,
                                                rated: set<nat>, score: (nat, nat, nat) -> Option<real>, numRecs: int)
    ensures var r := Situations(cands, u, sits, trainU, UserFilter, rated, score, numRecs);
      r.1 == rated && Avoids(r.0, rated)
  {
    if |sits| > 0 {
      var n := |sits| - 1;
      SituationsUserFilter(cands, u, sits[..n], trainU, rated, score, numRecs);
      var (c, pos) := sits[n];
      var done := Situations(cands, u, sits[..n], trainU, UserFilter, rated, score, numRecs).0;
      if HasCorrect(cands, pos) {
        var r := EvalSituation(cands, c, pos, UserFilter, rated, (j: nat) => score(u, j, c), numRecs);
        if r.Some? {
          EvalSituationRanked(cands, c, pos, UserFilter, rated, (j: nat) => score(u, j, c), numRecs);
          AvoidsAppend(done, r.value, rated);
        }
      }
    }
  }

  lemma AvoidsAppend(rs: seq<Ranking>, r: Ranking, items: set<nat>)
    requires Avoids(rs, items)
    requires forall i :: 0 <= i < |r.ranked| ==> r.ranked[i] !in items
    ensures Avoids(rs + [r], items)
  {
    forall k, i | 0 <= k < |rs + [r]| && 0 <= i < |(rs + [r])[k].ranked|
      ensures (rs + [r])[k].ranked[i] !in items
    {
      if k < |rs| {
        assert (rs + [r])[k] == rs[k];
      }
    }
  }

  /** The "user" filter: no item a test user rated in training, in any
      situation, is ranked for that user. */
  lemma {:induction false} UserFilterExcludesTraining(cands: seq<nat>, users: seq<TestUser>, train: map<nat, map<nat, set<nat>>>,
                                                      rated: set<nat>, score: (nat, nat, nat) -> Option<real>, numRecs: int)
    ensures var r := Users(cands, users, train, UserFilter, rated, score, numRecs).0;
      |r| == |users| && forall k :: 0 <= k < |users| ==> Avoids(r[k], AllItems(TrainOf(train, users[k].user)))
  {
    UsersCount(cands, users, train, UserFilter, rated, score, numRecs);
    if |users| > 0 {
      var n := |users| - 1;
      UserFilterExcludesTraining(cands, users[..n], train, rated, score, numRecs);
      var done := Users(cands, users[..n], train, UserFilter, rated, score, numRecs).0;
      var tu := users[n];
      var trainU := TrainOf(train, tu.user);
      var rs := Situations(cands, tu.user, tu.situations, trainU, UserFilter, AllItems(trainU), score, numRecs).0;
      assert Users(cands, users, train, UserFilter, rated, score, numRecs).0 == done + [rs];
      SituationsUserFilter(cands, tu.user, tu.situations, trainU, AllItems(trainU), score, numRecs);
      forall k | 0 <= k < |users|
        ensures Avoids((done + [rs])[k], AllItems(TrainOf(train, users[k].user)))
      {
        if k < n {
          assert (done + [rs])[k] == done[k];
          assert users[..n][k] == users[k];
        }
      }
    }
  }

  /** A training situation that takes over ratedItems under the
      "user-context" filter. */
  predicate Matches(cands: seq<nat>, trainU: map<nat, set<nat>>, sit: (nat, set<nat>)) {
    HasCorrect(cands, sit.1) && sit.0 in trainU
  }

  /** No ranking of a situation the user has training ratings in contains
      an item of those ratings. */
  predicate AvoidsOwnSituation(rs: seq<Ranking>, trainU: map<nat, set<nat>>) {
    forall k, i :: 0 <= k < |rs| && rs[k].ctx in trainU && 0 <= i < |rs[k].ranked| ==> rs[k].ranked[i] !in trainU[rs[k].ctx]
  }

  lemma AvoidsOwnSituationAppend(rs: seq<Ranking>, r: Ranking, trainU: map<nat, set<nat>>)
    requires AvoidsOwnSituation(rs, trainU)
    requires r.ctx in trainU ==> forall i :: 0 <= i < |r.ranked| ==> r.ranked[i] !in trainU[r.ctx]
    ensures AvoidsOwnSituation(rs + [r], trainU)
  {
    forall k, i | 0 <= k < |rs + [r]| && (rs + [r])[k].ctx in trainU && 0 <= i < |(rs + [r])[k].ranked|
      ensures (rs + [r])[k].ranked[i] !in trainU[(rs + [r])[k].ctx]
    {
      if k < |rs| {
        assert (rs + [r])[k] == rs[k];
      }
    }
  }

  /** The "user-context" filter: a ranking for a situation the user has
      training ratings in contains none of those ratings' items. */
  lemma {:induction false} SituationsUserContext(cands: seq<nat>, u: nat, sits: seq<(nat, set<nat>)>, trainU: map<nat, set<nat>>,
                                                 rated: set<nat>, score: (nat, nat, nat) -> Option<real>, numRecs: int)
    ensures AvoidsOwnSituation(Situations(cands, u, sits, trainU, UserContextFilter, rated, score, numRecs).0, trainU)
  {
    if |sits| > 0 {
      var n := |sits| - 1;
      SituationsUserContext(cands, u, sits[..n], trainU, rated, score, numRecs);
      var (done, rated') := Situations(cands, u, sits[..n], trainU, UserContextFilter, rated, score, numRecs);
      var (c, pos) := sits[n];
      if HasCorrect(cands, pos) {
        var rated2 := if c in trainU then trainU[c] else rated';
        var r := EvalSituation(cands, c, pos, UserContextFilter, rated2, (j: nat) => score(u, j, c), numRecs);
        if r.Some? {
          EvalSituationRanked(cands, c, pos, UserContextFilter, rated2, (j: nat) => score(u, j, c), numRecs);
          EvalSituationCorrect(cands, c, pos, UserContextFilter, rated2, (j: nat) => score(u, j, c), numRecs);
          AvoidsOwnSituationAppend(done, r.value, trainU);
        } else {
          assert done + [] == done;
        }
      }
    }
  }

  /** The "user-context" filter carries ratedItems: after a user's loop it
      is the training set of the last situation that took over, or the set
      the loop started with (possibly another user's) when none did. */
  lemma {:induction false} SituationsCarry(cands: seq<nat>, u: nat, sits: seq<(nat, set<nat>)>, trainU: map<nat, set<nat>>,
                                           rated: set<nat>, score: (nat, nat, nat) -> Option<real>, numRecs: int)
    ensures var out := Situations(cands, u, sits, trainU, UserContextFilter, rated, score, numRecs).1;
      ((forall k :: 0 <= k < |sits| ==> !Matches(cands, trainU, sits[k])) ==> out == rated)
      && (forall i :: (0 <= i < |sits| && Matches(cands, trainU, sits[i])
            && (forall k :: i < k < |sits| ==> !Matches(cands, trainU, sits[k]))) ==> out == trainU[sits[i].0])
  {
    if |sits| > 0 {
      var n := |sits| - 1;
      var init := sits[..n];
      assert forall k :: 0 <= k < n ==> init[k] == sits[k];
      SituationsCarry(cands, u, init, trainU, rated, score, numRecs);
    }
  }
}
