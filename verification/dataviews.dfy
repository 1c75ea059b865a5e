/** The DataDAO views computed from a rating matrix and the store: the
    user -> situation -> items lists, the user and item sets, the count of
    ratings of an item, the flattened user-item matrix, the averages of a
    user, an item or the whole matrix in a situation, and the rating scale
    with its cached extremes. A matrix row that is not a registered
    user-item pair makes the Java code unbox a null; the model returns
    Err("NullPointerException") there. */
module DataViews {
  import opened Wrappers
  import opened Text
  import opened Registries
  import opened Sums
  import opened SparseMatrices
  import opened DataDAO
  import opened DataLookups

  /** Every stored cell sits in the row of a user-item pair whose user and
      item are known (getUserIdFromUI and getItemIdFromUI do not throw). */
  predicate RowsRegistered(x: PairIndex, m: Matrix) {
    forall e :: e in m ==> e.row in x.uiUser && e.row in x.uiItem
  }

  /** In a consistent store those are the rows numbered by pair ids. */
  lemma RowsRegisteredMeaning(x: PairIndex, m: Matrix)
    requires PairIndexValid(x)
    ensures RowsRegistered(x, m) <==> forall e :: e in m ==> e.row < |x.pairs.keys|
  {
  }

  /** The (user, item) of a pair id, (0, 0) for an unregistered one. */
  function PairOf(x: PairIndex, p: nat): (nat, nat) {
    if p in x.uiUser && p in x.uiItem then (x.uiUser[p], x.uiItem[p]) else (0, 0)
  }

  // ---------------------------------------------------------------------
  // getUserCtxList

  /** The rating passes the optional threshold (strictly above it). */
  predicate Passes(e: Entry, threshold: Option<real>) {
    threshold.None? || e.val > threshold.value
  }

  /** Item i is listed for user u under situation c. */
  predicate Listed(r: map<nat, map<nat, set<nat>>>, u: nat, c: nat, i: nat) {
    u in r && c in r[u] && i in r[u][c]
  }

  /** Item i is listed for user u under some situation. */
  predicate ListedFor(r: map<nat, map<nat, set<nat>>>, u: nat, i: nat) {
    u in r && exists c :: c in r[u] && i in r[u][c]
  }

  /** The stored cell is a rating by user u of item i in situation c that
      passes the threshold. */
  predicate CellGives(x: PairIndex, e: Entry, threshold: Option<real>, u: nat, c: nat, i: nat) {
    Passes(e, threshold) && e.row in x.uiUser && e.row in x.uiItem
    && x.uiUser[e.row] == u && e.col == c && x.uiItem[e.row] == i
  }

  /** uciList.get(uid).put(c, itemid), creating the inner multimap. */
  function NestedPut(r: map<nat, map<nat, set<nat>>>, u: nat, c: nat, i: nat): (r': map<nat, map<nat, set<nat>>>)
    ensures forall u2 :: u2 in r' <==> u2 in r || u2 == u
    ensures forall u2, c2 :: u2 in r' && c2 in r'[u2] <==> (u2 in r && c2 in r[u2]) || (u2 == u && c2 == c)
    ensures forall u2, c2, i2 :: Listed(r', u2, c2, i2) <==> Listed(r, u2, c2, i2) || (u2 == u && c2 == c && i2 == i)
  {
    var inner := if u in r then r[u] else map[];
    r[u := MultiPut(inner, c, i)]
  }

  /** getUserCtxList(sm) (threshold None) and getUserCtxList(sm, th):
      user id -> situation id -> the items rated in it. */
  function UserCtxList(x: PairIndex, m: Matrix, threshold: Option<real>): (r: Result<map<nat, map<nat, set<nat>>>>)
    ensures r.Ok? <==> RowsRegistered(x, m)
  {
    if |m| == 0 then Ok(map[])
    else
      var n := |m| - 1;
      var e := m[n];
      assert forall f :: f in m <==> f in m[..n] || f == e by {
        assert m == m[..n] + [e];
      }
      var rest :- UserCtxList(x, m[..n], threshold);
      if e.row !in x.uiUser || e.row !in x.uiItem then Err(NullPointer)
      else if !Passes(e, threshold) then Ok(rest)
      else Ok(NestedPut(rest, x.uiUser[e.row], e.col, x.uiItem[e.row]))
  }

  /** What the lists hold: exactly the (user, situation, item) triples of the
      stored cells that pass the threshold. */
  lemma {:induction false} UserCtxListMembers(x: PairIndex, m: Matrix, threshold: Option<real>)
    requires RowsRegistered(x, m)
    ensures forall u, c, i :: Listed(UserCtxList(x, m, threshold).value, u, c, i)
              <==> exists e :: e in m && CellGives(x, e, threshold, u, c, i)
  {
    if |m| > 0 {
      var n := |m| - 1;
      var last := m[n];
      assert forall f :: f in m <==> f in m[..n] || f == last by {
        assert m == m[..n] + [last];
      }
      UserCtxListMembers(x, m[..n], threshold);
      var rest := UserCtxList(x, m[..n], threshold).value;
      var r := UserCtxList(x, m, threshold).value;
      forall u, c, i
        ensures Listed(r, u, c, i) <==> exists e :: e in m && CellGives(x, e, threshold, u, c, i)
      {
        if exists e :: e in m && CellGives(x, e, threshold, u, c, i) {
          var e :| e in m && CellGives(x, e, threshold, u, c, i);
          if e != last {
            assert e in m[..n];
          }
        }
        if Listed(rest, u, c, i) {
          var e :| e in m[..n] && CellGives(x, e, threshold, u, c, i);
          assert e in m;
        }
        if CellGives(x, last, threshold, u, c, i) {
          assert last in m;
        }
      }
    }
  }

  /** A user or a situation is keyed only with something listed under it. */
  lemma {:induction false} UserCtxListNoEmpty(x: PairIndex, m: Matrix, threshold: Option<real>)
    requires RowsRegistered(x, m)
    ensures forall u, c :: u in UserCtxList(x, m, threshold).value && c in UserCtxList(x, m, threshold).value[u]
              ==> exists i :: Listed(UserCtxList(x, m, threshold).value, u, c, i)
    ensures forall u :: u in UserCtxList(x, m, threshold).value ==> exists c :: c in UserCtxList(x, m, threshold).value[u]
  {
    if |m| > 0 {
      var n := |m| - 1;
      var last := m[n];
      assert forall f :: f in m <==> f in m[..n] || f == last by {
        assert m == m[..n] + [last];
      }
      UserCtxListNoEmpty(x, m[..n], threshold);
      var rest := UserCtxList(x, m[..n], threshold).value;
      var r := UserCtxList(x, m, threshold).value;
      if Passes(last, threshold) {
        var u, i := x.uiUser[last.row], x.uiItem[last.row];
        assert Listed(r, u, last.col, i);
        forall u2, c2 | u2 in r && c2 in r[u2] ensures exists i2 :: Listed(r, u2, c2, i2) {
          if !(u2 == u && c2 == last.col) {
            var i2 :| Listed(rest, u2, c2, i2);
            assert Listed(r, u2, c2, i2);
          }
        }
        forall u2 | u2 in r ensures exists c2 :: c2 in r[u2] {
          if u2 != u {
            var c2 :| c2 in rest[u2];
            assert c2 in r[u2];
          } else {
            assert last.col in r[u2];
          }
        }
      }
    }
  }

  // ---------------------------------------------------------------------
  // getUserList, getItemList, getRatedItemsList

  /** getUserList(sm): the users with a stored rating. */
  function UserList(x: PairIndex, m: Matrix): (users: Result<set<nat>>)
    ensures users.Ok? <==> RowsRegistered(x, m)
  {
    if RowsRegistered(x, m) then Ok(set e | e in m :: x.uiUser[e.row]) else Err(NullPointer)
  }

  /** getItemList(sm): the items with a stored rating. */
  function ItemList(x: PairIndex, m: Matrix): (items: Result<set<nat>>)
    ensures items.Ok? <==> RowsRegistered(x, m)
  {
    if RowsRegistered(x, m) then Ok(set e | e in m :: x.uiItem[e.row]) else Err(NullPointer)
  }

  /** The users of getUserList are the users keyed in getUserCtxList. */
  lemma UserListAgrees(x: PairIndex, m: Matrix)
    requires RowsRegistered(x, m)
    ensures UserList(x, m).value == UserCtxList(x, m, None).value.Keys
  {
    var r := UserCtxList(x, m, None).value;
    UserCtxListMembers(x, m, None);
    UserCtxListNoEmpty(x, m, None);
    forall u ensures u in UserList(x, m).value <==> u in r {
      if u in r {
        var c :| c in r[u];
        var i :| Listed(r, u, c, i);
        var e :| e in m && CellGives(x, e, None, u, c, i);
      }
      if u in UserList(x, m).value {
        var e :| e in m && x.uiUser[e.row] == u;
        assert CellGives(x, e, None, u, e.col, x.uiItem[e.row]);
      }
    }
  }

  /** Item i is listed for some user under some situation. */
  predicate ListedAnywhere(r: map<nat, map<nat, set<nat>>>, i: nat) {
    exists u :: u in r && ListedFor(r, u, i)
  }

  /** The items of getItemList are those getUserCtxList lists for some user
      and situation. */
  lemma ItemListAgrees(x: PairIndex, m: Matrix)
    requires RowsRegistered(x, m)
    ensures forall i: nat :: i in ItemList(x, m).value <==> ListedAnywhere(UserCtxList(x, m, None).value, i)
  {
    var r := UserCtxList(x, m, None).value;
    UserCtxListMembers(x, m, None);
    var items := ItemList(x, m).value;
    forall i: nat | ListedAnywhere(r, i)
      ensures i in items
    {
      var u :| u in r && ListedFor(r, u, i);
      var c :| c in r[u] && i in r[u][c];
      assert Listed(r, u, c, i);
      var e :| e in m && CellGives(x, e, None, u, c, i);
    }
    forall i: nat | i in items
      ensures ListedAnywhere(r, i)
    {
      var e :| e in m && x.uiItem[e.row] == i;
      assert CellGives(x, e, None, x.uiUser[e.row], e.col, i);
      assert Listed(r, x.uiUser[e.row], e.col, i);
      assert ListedFor(r, x.uiUser[e.row], i);
    }
  }

  /** The pair ids of a user (uRatedList.get: empty for an unknown user). */
  function UserPairs(x: PairIndex, u: nat): set<nat> {
    if u in x.uRated then x.uRated[u] else {}
  }

  /** The pair ids of an item (iRatedList.get). */
  function ItemPairs(x: PairIndex, i: nat): set<nat> {
    if i in x.iRated then x.iRated[i] else {}
  }

  /** getRatedItemsList(sm, uid): the items of the user's pairs whose row
      holds a stored cell. */
  function RatedItems(x: PairIndex, m: Matrix, u: nat): (items: Result<set<nat>>)
    ensures items.Ok? <==> forall p :: p in UserPairs(x, u) && RowOf(m, p) != [] ==> p in x.uiItem
  {
    if forall p :: p in UserPairs(x, u) && RowOf(m, p) != [] ==> p in x.uiItem then
      Ok(set p | p in UserPairs(x, u) && RowOf(m, p) != [] :: x.uiItem[p])
    else Err(NullPointer)
  }

  /** In a consistent store the user's items are found, and they are those
      listed for the user in some situation of getUserCtxList. */
  lemma RatedItemsAgree(x: PairIndex, m: Matrix, u: nat)
    requires UserListsConsistent(x)
    requires RowsRegistered(x, m)
    ensures RatedItems(x, m, u).Ok?
    ensures forall i :: i in RatedItems(x, m, u).value <==> ListedFor(UserCtxList(x, m, None).value, u, i)
  {
    var r := UserCtxList(x, m, None).value;
    forall p | p in UserPairs(x, u) && RowOf(m, p) != [] ensures p in x.uiItem {
      assert RowOf(m, p)[0] in RowOf(m, p);
    }
    UserCtxListMembers(x, m, None);
    assert RatedItems(x, m, u).Ok?;
    var items := RatedItems(x, m, u).value;
    forall i ensures i in items <==> ListedFor(r, u, i) {
      if i in items {
        var p :| p in UserPairs(x, u) && RowOf(m, p) != [] && x.uiItem[p] == i;
        assert p in x.uiUser && x.uiUser[p] == u;
        var e := RowOf(m, p)[0];
        assert e in RowOf(m, p);
        assert CellGives(x, e, None, u, e.col, i);
        assert Listed(r, u, e.col, i);
      }
      if ListedFor(r, u, i) {
        var c :| c in r[u] && i in r[u][c];
        assert Listed(r, u, c, i);
        var e :| e in m && CellGives(x, e, None, u, c, i);
        assert e in RowOf(m, e.row);
        assert e.row in UserPairs(x, u);
        assert i in items;
      }
    }
  }

  // ---------------------------------------------------------------------
  // getRatingCountByItem

  /** getRatingCountByItem(sm, item): the stored cells in the rows of the
      item's pairs. */
  function RatingCountByItem(x: PairIndex, m: Matrix, item: nat): (n: nat)
    ensures n <= |m|
  {
    |RowsIn(m, ItemPairs(x, item))|
  }

  /** The stored cells whose pair is of the given item, in order. */
  function CellsOfItem(x: PairIndex, m: Matrix, item: nat): (s: Matrix)
    ensures forall e :: e in s <==> e in m && e.row in x.uiItem && x.uiItem[e.row] == item
  {
    if |m| == 0 then []
    else
      var rest := CellsOfItem(x, m[1..], item);
      if m[0].row in x.uiItem && x.uiItem[m[0].row] == item then [m[0]] + rest else rest
  }

  /** The count is the number of stored ratings of the item, over all
      users and situations. */
  lemma {:induction false} RatingCountIsItemCells(x: PairIndex, m: Matrix, item: nat)
    requires ItemListsConsistent(x)
    ensures RowsIn(m, ItemPairs(x, item)) == CellsOfItem(x, m, item)
    ensures RatingCountByItem(x, m, item) == |CellsOfItem(x, m, item)|
  {
    if |m| > 0 {
      RatingCountIsItemCells(x, m[1..], item);
      var p := m[0].row;
      assert p in ItemPairs(x, item) <==> p in x.uiItem && x.uiItem[p] == item;
    }
  }

  // ---------------------------------------------------------------------
  // toTraditionalSparseMatrix

  /** dataTable.put(uid, iid, sv.mean()) for the rows of the listed cells. */
  function RowMeans(x: PairIndex, full: Matrix, part: Matrix): (t: Matrix)
    ensures WellFormed(t)
    ensures Keys(t) == set e | e in part :: PairOf(x, e.row)
  {
    if |part| == 0 then []
    else
      var n := |part| - 1;
      var e := part[n];
      var rest := RowMeans(x, full, part[..n]);
      assert part == part[..n] + [e];
      var k := PairOf(x, e.row);
      Put(rest, k.0, k.1, Average(full, [e.row]))
  }

  /** toTraditionalSparseMatrix(sm): the user x item matrix whose cell is
      the mean of the pair's row, for every pair with a stored cell. */
  function ToTraditional(x: PairIndex, m: Matrix): (t: Result<Matrix>)
    ensures t.Ok? <==> RowsRegistered(x, m)
    ensures t.Ok? ==> WellFormed(t.value)
  {
    if RowsRegistered(x, m) then Ok(RowMeans(x, m, m)) else Err(NullPointer)
  }

  /** Distinct rows of the cells are distinct (user, item) pairs. */
  predicate PairsInjective(x: PairIndex, m: Matrix) {
    forall e, f :: e in m && f in m && PairOf(x, e.row) == PairOf(x, f.row) ==> e.row == f.row
  }

  lemma PairsInjectiveOfValid(x: PairIndex, m: Matrix)
    requires PairIndexValid(x)
    requires RowsRegistered(x, m)
    ensures PairsInjective(x, m)
  {
    forall e, f | e in m && f in m && PairOf(x, e.row) == PairOf(x, f.row) ensures e.row == f.row {
      if e.row != f.row {
        PairsDistinct(x, e.row, f.row);
      }
    }
  }

  /** Each user-item cell holds the mean of its own pair's ratings: no two
      pairs share a cell, so no row's mean overwrites another's. */
  lemma {:induction false} RowMeansValues(x: PairIndex, full: Matrix, part: Matrix)
    requires PairsInjective(x, part)
    ensures forall e :: e in part ==> Get(RowMeans(x, full, part), PairOf(x, e.row).0, PairOf(x, e.row).1) == Average(full, [e.row])
  {
    if |part| > 0 {
      var n := |part| - 1;
      var last := part[n];
      assert forall f :: f in part <==> f in part[..n] || f == last by {
        assert part == part[..n] + [last];
      }
      RowMeansValues(x, full, part[..n]);
      forall e | e in part
        ensures Get(RowMeans(x, full, part), PairOf(x, e.row).0, PairOf(x, e.row).1) == Average(full, [e.row])
      {
        if e.row != last.row {
          assert e in part[..n];
        }
      }
    }
  }

  lemma ToTraditionalCells(x: PairIndex, m: Matrix)
    requires PairsInjective(x, m)
    requires RowsRegistered(x, m)
    ensures var t := ToTraditional(x, m).value;
      (forall u: nat, i: nat :: Has(t, u, i) <==> exists p :: p in Rows(m) && PairOf(x, p) == (u, i))
      && (forall p :: p in Rows(m) ==> Get(t, x.uiUser[p], x.uiItem[p]) == Average(m, [p]))
  {
    var t := ToTraditional(x, m).value;
    RowMeansValues(x, m, m);
    forall u: nat, i: nat | Has(t, u, i)
      ensures exists p :: p in Rows(m) && PairOf(x, p) == (u, i)
    {
      var e :| e in m && PairOf(x, e.row) == (u, i);
      var j :| 0 <= j < |m| && m[j] == e;
      assert e.row in Rows(m);
    }
    forall p | p in Rows(m)
      ensures Has(t, PairOf(x, p).0, PairOf(x, p).1)
    {
      var j :| 0 <= j < |m| && m[j].row == p;
      assert m[j] in m;
    }
    forall p | p in Rows(m) ensures Get(t, x.uiUser[p], x.uiItem[p]) == Average(m, [p]) {
      var j :| 0 <= j < |m| && m[j].row == p;
      assert m[j] in m;
    }
  }

  // ---------------------------------------------------------------------
  // getUserContextAvg, getItemContextAvg, getContextAvg

  /** condContextsList.get(cond): the situations holding a condition, empty
      for an id that is not a condition. */
  function CondCtxs(sit: SituationIndex, id: int): set<nat> {
    if id >= 0 && id in sit.condCtxs then sit.condCtxs[id] else {}
  }

  /** The cells rated in a situation that holds the condition. */
  function CondCells(cells: Matrix, sit: SituationIndex, id: int): Matrix {
    ColsIn(cells, CondCtxs(sit, id))
  }

  /** sums[i] / counters[i] for the conditions whose counter is positive,
      in the order of the situation's conditions. */
  function ConditionMeans(cells: Matrix, sit: SituationIndex, ids: seq<int>): (ms: seq<real>)
    ensures |ms| <= |ids|
  {
    if |ids| == 0 then []
    else
      var n := |ids| - 1;
      var rest := ConditionMeans(cells, sit, ids[..n]);
      var cc := CondCells(cells, sit, ids[n]);
      if |cc| == 0 then rest else rest + [Total(cc) / |cc| as real]
  }

  /** avg / counter when counter > 0, else 0. */
  function MeanOrZero(xs: seq<real>): real {
    if |xs| == 0 then 0.0 else Mean(xs)
  }

  /** The shared body of the three context averages: idCtx.get(contextId)
      split at commas, each field read by Integer.valueOf, and the mean of
      the per-condition means over the given cells. getContextAvg reads
      every field before touching a cell (eager); the user and item
      variants read them once per cell, so a bad field only throws when
      there is a cell. */
  function ContextAverage(cells: Matrix, sit: SituationIndex, c: nat, eager: bool): (r: Result<real>)
    requires Valid(sit.ctxs)
    ensures c >= |sit.ctxs.keys| ==> r == Err(NullPointer)
    ensures c < |sit.ctxs.keys| ==>
              (r.Ok? <==> ParseIds(sit.ctxs.keys[c]).Some? || (!eager && |cells| == 0))
  {
    if c >= |sit.ctxs.keys| then Err(NullPointer)
    else
      match ParseIds(sit.ctxs.keys[c])
      case None => if !eager && |cells| == 0 then Ok(0.0) else Err(NumberFormat)
      case Some(ids) => Ok(MeanOrZero(ConditionMeans(cells, sit, ids)))
  }

  /** The three context averages as written: they read idCtx, the inverse
      of ctxIds, which only getContextId(int) builds. Until that has been
      called (idCtxBuilt false) the lookup dereferences null. */
  function ContextAverageAsWritten(cells: Matrix, sit: SituationIndex, c: nat, eager: bool, idCtxBuilt: bool): (r: Result<real>)
    requires Valid(sit.ctxs)
    ensures !idCtxBuilt ==> r == Err(NullPointer)
    ensures idCtxBuilt ==> r == ContextAverage(cells, sit, c, eager)
  {
    if !idCtxBuilt then Err(NullPointer) else ContextAverage(cells, sit, c, eager)
  }

  /** getUserContextAvg(sm, userId, contextId). */
  function UserContextAvg(st: Store, m: Matrix, u: nat, c: nat): (r: Result<real>)
    requires StoreValid(st)
    ensures c < |st.sit.ctxs.keys| && ParseIds(st.sit.ctxs.keys[c]).None? ==>
              (r.Ok? <==> RowsIn(m, UserPairs(st.ui, u)) == [])
  {
    ContextAverage(RowsIn(m, UserPairs(st.ui, u)), st.sit, c, false)
  }

  /** getItemContextAvg(sm, itemId, contextId). */
  function ItemContextAvg(st: Store, m: Matrix, i: nat, c: nat): (r: Result<real>)
    requires StoreValid(st)
    ensures c < |st.sit.ctxs.keys| && ParseIds(st.sit.ctxs.keys[c]).None? ==>
              (r.Ok? <==> RowsIn(m, ItemPairs(st.ui, i)) == [])
  {
    ContextAverage(RowsIn(m, ItemPairs(st.ui, i)), st.sit, c, false)
  }

  /** getContextAvg(sm, contextId). */
  function ContextAvg(st: Store, m: Matrix, c: nat): (r: Result<real>)
    requires StoreValid(st)
    ensures c < |st.sit.ctxs.keys| ==> (r.Ok? <==> ParseIds(st.sit.ctxs.keys[c]).Some?)
  {
    ContextAverage(m, st.sit, c, true)
  }

  /** The cells counted for condition k are exactly the cells rated in a
      situation that holds k. */
  lemma CondCellsMeaning(cells: Matrix, sit: SituationIndex, k: nat)
    requires SituationIndexValid(sit)
    ensures forall e :: e in CondCells(cells, sit, k) <==> e in cells && e.col in sit.ctxConds && k in sit.ctxConds[e.col]
  {
  }

  /** The cells of the user variant are the user's ratings, those of the
      item variant the item's. */
  lemma AveragedCellsMeaning(x: PairIndex, m: Matrix, u: nat, i: nat)
    requires PairIndexValid(x)
    ensures forall e :: e in RowsIn(m, UserPairs(x, u)) <==> e in m && e.row in x.uiUser && x.uiUser[e.row] == u
    ensures forall e :: e in RowsIn(m, ItemPairs(x, i)) <==> e in m && e.row in x.uiItem && x.uiItem[e.row] == i
  {
  }

  /** For a stored situation, the average is taken over its recorded
      conditions. Condition offsets are taken to fit in an int. */
  lemma ContextAverageOfStored(cells: Matrix, sit: SituationIndex, c: nat, eager: bool)
    requires SituationIndexValid(sit)
    requires c < |sit.ctxs.keys|
    requires forall k :: k in sit.ctxConds[c] ==> k <= MaxInt
    requires |sit.ctxConds[c]| >= 1
    ensures ContextAverage(cells, sit, c, eager) == Ok(MeanOrZero(ConditionMeans(cells, sit, sit.ctxConds[c])))
  {
    ConditionsRoundTrip(sit, c);
  }

  /** On a freshly loaded store, where nothing has called getContextId(int)
      yet, the written averages throw for a stored situation that the
      intended reading averages without error. */
  lemma FreshStoreAverageThrows(cells: Matrix, sit: SituationIndex, c: nat, eager: bool)
    requires SituationIndexValid(sit)
    requires c < |sit.ctxs.keys|
    requires forall k :: k in sit.ctxConds[c] ==> k <= MaxInt
    requires |sit.ctxConds[c]| >= 1
    ensures ContextAverageAsWritten(cells, sit, c, eager, false) == Err(NullPointer)
    ensures ContextAverage(cells, sit, c, eager).Ok?
  {
    ContextAverageOfStored(cells, sit, c, eager);
  }

  /** The situation without conditions (key "") cannot be averaged over a
      whole matrix; a user or item with no rating gets 0 in it. */
  lemma EmptySituationAverage(cells: Matrix, sit: SituationIndex, c: nat)
    requires SituationIndexValid(sit)
    requires c < |sit.ctxs.keys| && sit.ctxConds[c] == []
    ensures ContextAverage(cells, sit, c, true) == Err(NumberFormat)
    ensures ContextAverage(cells, sit, c, false) == if cells == [] then Ok(0.0) else Err(NumberFormat)
  {
    assert IdsKey([]) == "";
  }

  lemma {:induction false} ConditionMeansBounds(cells: Matrix, sit: SituationIndex, ids: seq<int>, lo: real, hi: real)
    requires forall e :: e in cells ==> lo <= e.val <= hi
    ensures forall k :: 0 <= k < |ConditionMeans(cells, sit, ids)| ==> lo <= ConditionMeans(cells, sit, ids)[k] <= hi
  {
    if |ids| > 0 {
      var n := |ids| - 1;
      ConditionMeansBounds(cells, sit, ids[..n], lo, hi);
      var cc := CondCells(cells, sit, ids[n]);
      if |cc| > 0 {
        MeanOfCellsBounds(cc, lo, hi);
      }
    }
  }

  /** A context average is 0 when no condition of the situation has a
      rating among the cells, and otherwise lies within the range of the
      ratings. */
  lemma ContextAverageBounds(cells: Matrix, sit: SituationIndex, c: nat, eager: bool, lo: real, hi: real)
    requires Valid(sit.ctxs)
    requires forall e :: e in cells ==> lo <= e.val <= hi
    requires ContextAverage(cells, sit, c, eager).Ok?
    ensures var a := ContextAverage(cells, sit, c, eager).value;
      a == 0.0 || lo <= a <= hi
  {
    if ParseIds(sit.ctxs.keys[c]).Some? {
      var ms := ConditionMeans(cells, sit, ParseIds(sit.ctxs.keys[c]).value);
      ConditionMeansBounds(cells, sit, ParseIds(sit.ctxs.keys[c]).value, lo, hi);
      if |ms| > 0 {
        MeanBounds(ms, lo, hi);
      }
    }
  }

  // ---------------------------------------------------------------------
  // Rating scale

  predicate Increasing(s: seq<real>) {
    forall i, j :: 0 <= i < j < |s| ==> s[i] < s[j]
  }

  function InsertRate(v: real, s: seq<real>): (r: seq<real>)
    requires Increasing(s)
    ensures Increasing(r)
    ensures forall y :: y in r <==> y == v || y in s
  {
    if |s| == 0 then [v]
    else if v == s[0] then s
    else if v < s[0] then
      assert forall j :: 0 <= j < |s| ==> v < s[j];
      [v] + s
    else
      var t := InsertRate(v, s[1..]);
      assert forall j :: 0 <= j < |t| ==> s[0] < t[j] by {
        forall j | 0 <= j < |t| ensures s[0] < t[j] {
          assert t[j] in t;
          if t[j] != v {
            var k :| 0 <= k < |s[1..]| && s[1..][k] == t[j];
            assert s[k + 1] == t[j];
          }
        }
      }
      [s[0]] + t
  }

  /** ratingScale: the distinct ratings read (scaleDist.elementSet()),
      sorted. */
  function RatingScale(rates: seq<real>): (scale: seq<real>)
    ensures Increasing(scale)
    ensures forall y :: y in scale <==> y in rates
  {
    if |rates| == 0 then []
    else
      var n := |rates| - 1;
      assert forall y :: y in rates <==> y in rates[..n] || y == rates[n] by {
        assert rates == rates[..n] + [rates[n]];
      }
      InsertRate(rates[n], RatingScale(rates[..n]))
  }

  /** Collections.max; NoSuchElementException on an empty list. */
  function ScaleMax(scale: seq<real>): (r: Result<real>)
    ensures r.Ok? <==> |scale| > 0
    ensures r.Ok? ==> r.value in scale && forall y :: y in scale ==> y <= r.value
  {
    if |scale| == 0 then Err(NoSuchElement)
    else if |scale| == 1 then Ok(scale[0])
    else
      var rest := ScaleMax(scale[1..]).value;
      assert forall y :: y in scale ==> y == scale[0] || y in scale[1..];
      Ok(if scale[0] > rest then scale[0] else rest)
  }

  /** Collections.min; NoSuchElementException on an empty list. */
  function ScaleMin(scale: seq<real>): (r: Result<real>)
    ensures r.Ok? <==> |scale| > 0
    ensures r.Ok? ==> r.value in scale && forall y :: y in scale ==> r.value <= y
  {
    if |scale| == 0 then Err(NoSuchElement)
    else if |scale| == 1 then Ok(scale[0])
    else
      var rest := ScaleMin(scale[1..]).value;
      assert forall y :: y in scale ==> y == scale[0] || y in scale[1..];
      Ok(if scale[0] < rest then scale[0] else rest)
  }

  /** The MaxRate and MinRate fields, -1 until computed. */
  datatype RateCache = RateCache(maxRate: real, minRate: real)

  const Unset := -1.0
  const FreshCache := RateCache(Unset, Unset)

  /** Each cached extreme is either unset or the true extreme. */
  predicate CacheSound(cache: RateCache, scale: seq<real>) {
    (cache.maxRate == Unset || ScaleMax(scale) == Ok(cache.maxRate))
    && (cache.minRate == Unset || ScaleMin(scale) == Ok(cache.minRate))
  }

  lemma FreshCacheSound(scale: seq<real>)
    ensures CacheSound(FreshCache, scale)
  {
  }

  /** getRatingMax: computes and caches the largest rating when unset. */
  function RatingMax(cache: RateCache, scale: seq<real>): (r: Result<(real, RateCache)>)
    requires CacheSound(cache, scale)
    ensures r.Ok? <==> |scale| > 0
    ensures r.Ok? ==> ScaleMax(scale) == Ok(r.value.0) && CacheSound(r.value.1, scale)
  {
    if cache.maxRate == Unset then
      var mx :- ScaleMax(scale);
      Ok((mx, cache.(maxRate := mx)))
    else Ok((cache.maxRate, cache))
  }

  /** getRatingMin as written: it tests MaxRate, not MinRate, before
      computing. */
  function RatingMinAsWritten(cache: RateCache, scale: seq<real>): (r: Result<(real, RateCache)>)
    ensures cache.maxRate == Unset ==> r.Ok? == (|scale| > 0)
    ensures cache.maxRate != Unset ==> r == Ok((cache.minRate, cache))
  {
    if cache.maxRate == Unset then
      var mn :- ScaleMin(scale);
      Ok((mn, cache.(minRate := mn)))
    else Ok((cache.minRate, cache))
  }

  /** After getRatingMax on ratings {1, 5}, getRatingMin answers the unset
      marker -1 instead of 1. */
  lemma RatingMinAsWrittenAfterMax()
    ensures var scale := [1.0, 5.0];
      var afterMax := RatingMax(FreshCache, scale).value.1;
      ScaleMin(scale) == Ok(1.0) && RatingMinAsWritten(afterMax, scale) == Ok((-1.0, afterMax))
  {
    var scale := [1.0, 5.0];
    assert ScaleMax(scale[1..]) == Ok(5.0);
    assert ScaleMin(scale[1..]) == Ok(5.0);
  }

  /** getRatingMin as intended: tests MinRate, so it returns the smallest
      rating whatever was asked before. */
  function RatingMin(cache: RateCache, scale: seq<real>): (r: Result<(real, RateCache)>)
    requires CacheSound(cache, scale)
    ensures r.Ok? <==> |scale| > 0
    ensures r.Ok? ==> ScaleMin(scale) == Ok(r.value.0) && CacheSound(r.value.1, scale)
  {
    if cache.minRate == Unset then
      var mn :- ScaleMin(scale);
      Ok((mn, cache.(minRate := mn)))
    else Ok((cache.minRate, cache))
  }

  /** With the intended test, asking for the maximum first does not change
      the minimum, and the scale's extremes are its first and last ratings. */
  lemma RatingMinAfterMax(rates: seq<real>)
    requires |rates| > 0
    ensures var scale := RatingScale(rates);
      var afterMax := RatingMax(FreshCache, scale).value.1;
      RatingMin(afterMax, scale).Ok?
      && RatingMin(afterMax, scale).value.0 == scale[0]
      && RatingMax(FreshCache, scale).value.0 == scale[|scale| - 1]
  {
    var scale := RatingScale(rates);
    assert rates[0] in scale;
    var afterMax := RatingMax(FreshCache, scale).value.1;
    var mn := RatingMin(afterMax, scale).value.0;
    assert mn in scale && scale[0] in scale;
    var k :| 0 <= k < |scale| && scale[k] == mn;
    assert mn <= scale[0];
    var mx := RatingMax(FreshCache, scale).value.0;
    var j :| 0 <= j < |scale| && scale[j] == mx;
    assert scale[|scale| - 1] in scale;
  }
}
