/** The DataDAO lookups between raw names and inner ids: users, items and
    user-item pairs, conditions, and situations given either by their key
    ("0,3,5") or by their condition names ("time:morning,loc:home"), plus
    ContextRecommender.getConditions. Guava's BiMap.get returns null for a
    missing key; where the Java code unboxes that null into an int, the
    model returns Err("NullPointerException"). */
module DataLookups {
  import opened Wrappers
  import opened Text
  import opened Registries
  import opened DataDAO


  /** getUserId(String), getItemId(String), getContextDimensionId(String):
      the inner id of a raw name, unboxed. */
  function RawId(r: Registry<string>, raw: string): (id: Result<nat>)
    requires Valid(r)
    ensures id.Ok? <==> raw in r.keys
    ensures id.Ok? ==> id.value < |r.keys| && r.keys[id.value] == raw
    ensures id.Err? ==> id.msg == NullPointer
  {
    if raw in r.ids then Ok(r.ids[raw]) else Err(NullPointer)
  }

  /** getUserItemId(String): the id of a pair key, or -1 when the key is
      not registered. */
  function UserItemIdOfKey(x: PairIndex, key: string): (id: int)
    requires PairIndexValid(x)
    ensures id == -1 <==> key !in x.pairs.keys
    ensures id != -1 ==> 0 <= id < |x.pairs.keys| && x.pairs.keys[id] == key
  {
    if key in x.pairs.ids then x.pairs.ids[key] else -1
  }

  /** getUserItemId(u + "," + i) on inner ids: the pair id, -1 when the
      pair is not registered. */
  function PairIdOf(x: PairIndex, u: nat, i: nat): (id: int)
    requires PairIndexValid(x)
    ensures id != -1 ==> 0 <= id < |x.pairs.keys| && x.pairs.keys[id] == PairKey(u, i)
  {
    UserItemIdOfKey(x, PairKey(u, i))
  }

  /** getUserItemId(rawUser, rawItem): the raw names are resolved (an
      unknown one throws) and the key "u,i" is looked up. */
  function UserItemId(x: PairIndex, rawUser: string, rawItem: string): (id: Result<int>)
    requires PairIndexValid(x)
    ensures id.Ok? <==> rawUser in x.users.keys && rawItem in x.items.keys
    ensures id.Ok? ==> id.value == UserItemIdOfKey(x, PairKey(x.users.ids[rawUser], x.items.ids[rawItem]))
  {
    var u :- RawId(x.users, rawUser);
    var i :- RawId(x.items, rawItem);
    Ok(UserItemIdOfKey(x, PairKey(u, i)))
  }

  /** getUserIdFromUI: the user of a pair id (unboxing null throws). */
  function UserIdFromUI(x: PairIndex, ui: nat): (u: Result<nat>)
    requires PairIndexValid(x)
    ensures u.Ok? <==> ui < |x.pairs.keys|
    ensures u.Ok? ==> u.value < |x.users.keys|
  {
    if ui in x.uiUser then Ok(x.uiUser[ui]) else Err(NullPointer)
  }

  /** getItemIdFromUI: the item of a pair id (unboxing null throws). */
  function ItemIdFromUI(x: PairIndex, ui: nat): (i: Result<nat>)
    requires PairIndexValid(x)
    ensures i.Ok? <==> ui < |x.pairs.keys|
    ensures i.Ok? ==> i.value < |x.items.keys|
  {
    if ui in x.uiItem then Ok(x.uiItem[ui]) else Err(NullPointer)
  }

  /** Every registered pair id is recovered from the user and item it was
      built from, through both the key and the raw names. */
  lemma PairRoundTrip(x: PairIndex, p: nat)
    requires PairIndexValid(x)
    requires p < |x.pairs.keys|
    ensures UserIdFromUI(x, p).Ok? && ItemIdFromUI(x, p).Ok?
    ensures var u := UserIdFromUI(x, p).value; var i := ItemIdFromUI(x, p).value;
            UserItemIdOfKey(x, PairKey(u, i)) == p
            && UserItemId(x, x.users.keys[u], x.items.keys[i]) == Ok(p)
  {
    var u := x.uiUser[p];
    var i := x.uiItem[p];
    assert x.users.ids[x.users.keys[u]] == u;
    assert x.items.ids[x.items.keys[i]] == i;
  }

  /** A pair id names one (user, item) pair: different ids, different pairs. */
  lemma PairsDistinct(x: PairIndex, p: nat, q: nat)
    requires PairIndexValid(x)
    requires p < |x.pairs.keys| && q < |x.pairs.keys| && p != q
    ensures (x.uiUser[p], x.uiItem[p]) != (x.uiUser[q], x.uiItem[q])
  {
    assert x.pairs.ids[x.pairs.keys[p]] == p && x.pairs.ids[x.pairs.keys[q]] == q;
  }

  // ---------------------------------------------------------------------
  // Situations

  /** Insertion into an ascending list without duplicates (TreeSet.add). */
  function InsertAscending(v: nat, s: seq<nat>): (r: seq<nat>)
    requires StrictlyAscending(s)
    ensures StrictlyAscending(r)
    ensures forall y :: y in r <==> y == v || y in s
  {
    if |s| == 0 then [v]
    else if v == s[0] then s
    else if v < s[0] then
      assert forall y :: y in s ==> s[0] <= y by {
        forall y | y in s ensures s[0] <= y {
          var j :| 0 <= j < |s| && s[j] == y;
        }
      }
      [v] + s
    else
      var t := InsertAscending(v, s[1..]);
      assert forall y :: y in t ==> s[0] < y by {
        forall y | y in t ensures s[0] < y {
          if y != v {
            var j :| 0 <= j < |s[1..]| && s[1..][j] == y;
            assert s[j + 1] == y;
          }
        }
      }
      assert forall j :: 0 <= j < |t| ==> s[0] < t[j] by {
        forall j | 0 <= j < |t| ensures s[0] < t[j] {
          assert t[j] in t;
        }
      }
      [s[0]] + t
  }

  /** The ids of a list in ascending order, each once (a TreeSet walked in
      order). */
  function SortedDistinct(ids: seq<nat>): (r: seq<nat>)
    ensures StrictlyAscending(r)
    ensures forall y :: y in r <==> y in ids
  {
    if |ids| == 0 then []
    else
      var n := |ids| - 1;
      var t := SortedDistinct(ids[..n]);
      assert forall y :: y in ids <==> y in ids[..n] || y == ids[n] by {
        assert ids == ids[..n] + [ids[n]];
      }
      InsertAscending(ids[n], t)
  }

  /** Two ascending lists with the same elements are the same list. */
  lemma {:induction false} AscendingUnique(a: seq<nat>, b: seq<nat>)
    requires StrictlyAscending(a) && StrictlyAscending(b)
    requires forall y :: y in a <==> y in b
    ensures a == b
  {
    if |a| > 0 {
      assert a[0] in b;
    }
    if |b| > 0 {
      assert b[0] in a;
    }
    if |a| > 0 {
      AscendingFirst(a, b[0]);
      AscendingFirst(b, a[0]);
      assert forall y :: y in a[1..] <==> y in b[1..] by {
        forall y
          ensures y in a[1..] <==> y in b[1..]
        {
          AscendingRest(a, y);
          AscendingRest(b, y);
        }
      }
      AscendingUnique(a[1..], b[1..]);
      assert a == [a[0]] + a[1..] && b == [b[0]] + b[1..];
    }
  }

  lemma AscendingFirst(s: seq<nat>, y: nat)
    requires StrictlyAscending(s) && y in s
    ensures s[0] <= y
  {
    var j :| 0 <= j < |s| && s[j] == y;
  }

  lemma AscendingRest(s: seq<nat>, y: nat)
    requires StrictlyAscending(s) && |s| > 0
    ensures y in s[1..] <==> y in s && y != s[0]
  {
    if y in s && y != s[0] {
      var j :| 0 <= j < |s| && s[j] == y;
      assert s[1..][j - 1] == y;
    }
    if y in s[1..] {
      var j :| 0 <= j < |s| - 1 && s[1..][j] == y;
      assert s[j + 1] == y;
    }
  }

  /** getContextConditionId(String) over a list of names: each name's
      condition id, in order; a name without one throws. */
  function ConditionIds(cond: ConditionIndex, names: seq<string>): (r: Result<seq<nat>>)
    ensures r.Ok? <==> forall k :: 0 <= k < |names| ==> names[k] in cond.condIds.fwd
    ensures r.Ok? ==> |r.value| == |names|
    ensures r.Ok? ==> forall k :: 0 <= k < |names| ==> r.value[k] == cond.condIds.fwd[names[k]]
    ensures r.Err? ==> r.msg == NullPointer
  {
    if |names| == 0 then Ok([])
    else
      var n := |names| - 1;
      assert forall k :: 0 <= k < n ==> names[..n][k] == names[k];
      match ConditionIds(cond, names[..n])
      case Err(e) => Err(e)
      case Ok(ids) =>
        if names[n] in cond.condIds.fwd then Ok(ids + [cond.condIds.fwd[names[n]]]) else Err(NullPointer)
  }

  /** getContextId(String) on the "dim:cond,dim:cond" form, after the
      names have been lower-cased, split at commas and trimmed: the set of
      their condition ids, in ascending order, is the situation key. */
  function ContextIdOfNames(st: Store, names: seq<string>): (r: Result<nat>)
    requires StoreValid(st)
    ensures r.Ok? ==> ConditionIds(st.cond, names).Ok?
    ensures r.Ok? ==> r.value < |st.sit.ctxs.keys|
                      && st.sit.ctxs.keys[r.value] == IdsKey(SortedDistinct(ConditionIds(st.cond, names).value))
  {
    var ids :- ConditionIds(st.cond, names);
    RawId(st.sit.ctxs, IdsKey(SortedDistinct(ids)))
  }

  /** getContextId(String): a raw id with a colon lists conditions by name;
      otherwise it is the situation key itself. */
  function ContextId(st: Store, raw: string): (r: Result<nat>)
    requires StoreValid(st)
    ensures ':' !in raw ==> r == RawId(st.sit.ctxs, raw)
    ensures ':' in raw ==> r == ContextIdOfNames(st, TrimAll(SplitTrimmed(Lower(raw), ',')))
  {
    if ':' in raw then ContextIdOfNames(st, TrimAll(SplitTrimmed(Lower(raw), ',')))
    else RawId(st.sit.ctxs, raw)
  }

  function TrimAll(parts: seq<string>): (r: seq<string>)
    ensures |r| == |parts|
    ensures forall k :: 0 <= k < |parts| ==> r[k] == Trim(parts[k])
  {
    seq(|parts|, k requires 0 <= k < |parts| => Trim(parts[k]))
  }

  /** The order in which conditions are named, and repetitions, do not
      matter. */
  lemma ContextIdOrderInsensitive(st: Store, a: seq<string>, b: seq<string>)
    requires StoreValid(st)
    requires forall n :: n in a <==> n in b
    ensures ContextIdOfNames(st, a) == ContextIdOfNames(st, b)
  {
    var ra := ConditionIds(st.cond, a);
    var rb := ConditionIds(st.cond, b);
    assert ra.Ok? <==> rb.Ok? by {
      if ra.Ok? {
        forall k | 0 <= k < |b| ensures b[k] in st.cond.condIds.fwd {
          assert b[k] in a;
        }
      }
      if rb.Ok? {
        forall k | 0 <= k < |a| ensures a[k] in st.cond.condIds.fwd {
          assert a[k] in b;
        }
      }
    }
    if ra.Ok? {
      forall y ensures y in ra.value <==> y in rb.value {
        if y in ra.value {
          var k :| 0 <= k < |ra.value| && ra.value[k] == y;
          assert a[k] in b;
          var j :| 0 <= j < |b| && b[j] == a[k];
          assert rb.value[j] == y;
        }
        if y in rb.value {
          var k :| 0 <= k < |rb.value| && rb.value[k] == y;
          assert b[k] in a;
          var j :| 0 <= j < |a| && a[j] == b[k];
          assert ra.value[j] == y;
        }
      }
      AscendingUnique(SortedDistinct(ra.value), SortedDistinct(rb.value));
    }
  }

  /** Naming exactly the conditions of a stored situation finds it. */
  lemma ContextIdOfSituation(st: Store, c: nat, names: seq<string>)
    requires StoreValid(st)
    requires c < |st.sit.ctxs.keys|
    requires ConditionIds(st.cond, names).Ok?
    requires forall y :: y in ConditionIds(st.cond, names).value <==> y in st.sit.ctxConds[c]
    ensures ContextIdOfNames(st, names) == Ok(c)
  {
    var ids := ConditionIds(st.cond, names).value;
    AscendingUnique(SortedDistinct(ids), st.sit.ctxConds[c]);
    assert st.sit.ctxs.ids[st.sit.ctxs.keys[c]] == c;
  }

  /** getContextId(int) followed by the split and Integer.valueOf of
      ContextRecommender.getConditions: the condition ids of a situation,
      read back from its key. An unknown id throws on the null key; the
      empty situation's key "" splits into one empty field, which throws. */
  function Conditions(sit: SituationIndex, c: nat): (r: Result<seq<int>>)
    requires Valid(sit.ctxs)
    ensures c >= |sit.ctxs.keys| ==> r == Err(NullPointer)
    ensures c < |sit.ctxs.keys| ==> (r.Ok? <==> ParseIds(sit.ctxs.keys[c]).Some?)
  {
    if c < |sit.ctxs.keys| then
      match ParseIds(sit.ctxs.keys[c])
      case None => Err(NumberFormat)
      case Some(ids) => Ok(ids)
    else Err(NullPointer)
  }

  /** getConditions gives back the list recorded when the situation was
      loaded (contextConditionsList), hence ascending; only the empty
      situation fails. Condition offsets are taken to fit in an int. */
  lemma ConditionsRoundTrip(sit: SituationIndex, c: nat)
    requires SituationIndexValid(sit)
    requires c < |sit.ctxs.keys|
    requires forall k :: k in sit.ctxConds[c] ==> k <= MaxInt
    ensures |sit.ctxConds[c]| >= 1 ==> Conditions(sit, c) == Ok(sit.ctxConds[c])
    ensures |sit.ctxConds[c]| == 0 ==> Conditions(sit, c) == Err(NumberFormat)
  {
    var conds := sit.ctxConds[c];
    assert forall i :: 0 <= i < |conds| ==> conds[i] <= MaxInt by {
      forall i | 0 <= i < |conds| ensures conds[i] <= MaxInt {
        assert conds[i] in conds;
      }
    }
    ParseIdsKey(conds);
  }

  /** The name of a condition id (getContextConditionId(int)); Java's string
      concatenation renders a missing one as "null". */
  function ConditionName(cond: ConditionIndex, id: int): string {
    if id >= 0 && id in cond.condIds.inv then cond.condIds.inv[id] else "null"
  }

  function ConditionNames(cond: ConditionIndex, ids: seq<int>): (names: seq<string>)
    ensures |names| == |ids|
    ensures forall k :: 0 <= k < |ids| ==> names[k] == ConditionName(cond, ids[k])
  {
    seq(|ids|, k requires 0 <= k < |ids| => ConditionName(cond, ids[k]))
  }

  /** getContextSituationFromInnerId: the names of a situation's conditions
      joined with semicolons. */
  function SituationNames(st: Store, c: nat): (r: Result<string>)
    requires StoreValid(st)
    ensures r.Ok? <==> Conditions(st.sit, c).Ok?
    ensures r.Ok? ==> r.value == Join(ConditionNames(st.cond, Conditions(st.sit, c).value), ';')
  {
    var ids :- Conditions(st.sit, c);
    Ok(Join(ConditionNames(st.cond, ids), ';'))
  }

  /** For a stored non-empty situation, the names are those of the
      conditions recorded for it, in ascending id order. */
  lemma SituationNamesOfStored(st: Store, c: nat)
    requires StoreValid(st)
    requires c < |st.sit.ctxs.keys|
    requires forall k :: k in st.sit.ctxConds[c] ==> k <= MaxInt
    requires |st.sit.ctxConds[c]| >= 1
    ensures SituationNames(st, c) == Ok(Join(ConditionNames(st.cond, st.sit.ctxConds[c]), ';'))
  {
    ConditionsRoundTrip(st.sit, c);
  }
}
