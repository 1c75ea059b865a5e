/** DataDAO: reading a binary-format rating file into the contextual rating
    matrix, with the identifier registries, the user/item rated lists and
    the situation/condition indexes that the recommenders query.

    A data line is "user,item,rating,f0,f1,...", where fk is 1 when the
    condition of header column k holds; the header names every column
    "dimension:condition". A situation is the ascending list of the offsets
    k whose field is 1, and its key is that list joined with commas. */
module DataDAO {
  import opened Wrappers
  import opened Text
  import opened Registries
  import opened SparseMatrices

  /** One data line after String.split(",", -1): user, item, the rating (the
      double parse of the third field is not modelled) and the condition
      fields from the fourth on. */
  datatype Line = Line(user: string, item: string, rate: real, flags: seq<string>)

  /** userIds, itemIds, uiIds, uiUserIds, uiItemIds, uRatedList, iRatedList. */
  datatype PairIndex = PairIndex(
    users: Registry<string>,
    items: Registry<string>,
    pairs: Registry<string>,
    uiUser: map<nat, nat>,
    uiItem: map<nat, nat>,
    uRated: map<nat, set<nat>>,
    iRated: map<nat, set<nat>>)

  /** ctxIds, contextConditionsList, condContextsList. */
  datatype SituationIndex = SituationIndex(
    ctxs: Registry<string>,
    ctxConds: map<nat, seq<nat>>,
    condCtxs: map<nat, set<nat>>)

  /** dimIds, condIds, dimConditionsList, condDimensionMap. */
  datatype ConditionIndex = ConditionIndex(
    dims: Registry<string>,
    condIds: BiMap<string, nat>,
    dimConds: map<nat, set<nat>>,
    condDim: map<nat, nat>)

  /** The registries and indexes that a training set and its test set share. */
  datatype Store = Store(ui: PairIndex, sit: SituationIndex, cond: ConditionIndex)

  /** One loaded file: the shared store after reading it, the rating matrix
      (rows = user-item pair ids, columns = situation ids), every rating read
      (scaleDist, duplicates included) and the offsets of the "...:na"
      header columns (EmptyContextConditions). */
  datatype Loaded = Loaded(store: Store, matrix: Matrix, rates: seq<real>, emptyConds: seq<nat>)

  function EmptyStore(): (s: Store)
    ensures StoreValid(s)
  {
    Store(PairIndex(Empty(), Empty(), Empty(), map[], map[], map[], map[]),
          SituationIndex(Empty(), map[], map[]),
          ConditionIndex(Empty(), BiEmpty(), map[], map[]))
  }

  /** HashMultimap.put: the value joins the key's set. */
  function MultiPut(mm: map<nat, set<nat>>, k: nat, v: nat): (r: map<nat, set<nat>>)
    ensures r.Keys == mm.Keys + {k}
    ensures v in r[k]
    ensures forall k2 :: k2 in mm ==> mm[k2] <= r[k2]
    ensures forall k2, v2 :: k2 in r && v2 in r[k2] ==> (k2 == k && v2 == v) || (k2 in mm && v2 in mm[k2])
  {
    mm[k := (if k in mm then mm[k] else {}) + {v}]
  }

  predicate StrictlyAscending(s: seq<nat>) {
    forall i, j :: 0 <= i < j < |s| ==> s[i] < s[j]
  }

  // ---------------------------------------------------------------------
  // Consistency of the store

  /** Every pair id names a registered user and item, and its registry key
      is the pair key built from them. */
  predicate PairKeysConsistent(x: PairIndex) {
    (forall p :: 0 <= p < |x.pairs.keys| ==>
       p in x.uiUser && p in x.uiItem
       && x.uiUser[p] < |x.users.keys| && x.uiItem[p] < |x.items.keys|
       && x.pairs.keys[p] == PairKey(x.uiUser[p], x.uiItem[p]))
    && (forall p :: p in x.uiUser ==> p < |x.pairs.keys|)
    && (forall p :: p in x.uiItem ==> p < |x.pairs.keys|)
  }

  /** uRatedList holds exactly the pairs of each user. */
  predicate UserListsConsistent(x: PairIndex) {
    (forall u, p :: u in x.uRated && p in x.uRated[u] ==> p in x.uiUser && x.uiUser[p] == u)
    && (forall p :: p in x.uiUser ==> x.uiUser[p] in x.uRated && p in x.uRated[x.uiUser[p]])
  }

  /** iRatedList holds exactly the pairs of each item. */
  predicate ItemListsConsistent(x: PairIndex) {
    (forall i, p :: i in x.iRated && p in x.iRated[i] ==> p in x.uiItem && x.uiItem[p] == i)
    && (forall p :: p in x.uiItem ==> x.uiItem[p] in x.iRated && p in x.iRated[x.uiItem[p]])
  }

  predicate PairIndexValid(x: PairIndex) {
    Valid(x.users) && Valid(x.items) && Valid(x.pairs)
    && PairKeysConsistent(x) && UserListsConsistent(x) && ItemListsConsistent(x)
  }

  /** Every situation id has its ascending condition list, whose key is the
      registered one. */
  predicate SituationKeysConsistent(x: SituationIndex) {
    (forall c :: 0 <= c < |x.ctxs.keys| ==>
       c in x.ctxConds && StrictlyAscending(x.ctxConds[c]) && x.ctxs.keys[c] == IdsKey(x.ctxConds[c]))
    && (forall c :: c in x.ctxConds ==> c < |x.ctxs.keys|)
  }

  /** condContextsList is the inverse of contextConditionsList. */
  predicate ConditionListsConsistent(x: SituationIndex) {
    (forall k, c :: k in x.condCtxs && c in x.condCtxs[k] ==> c in x.ctxConds && k in x.ctxConds[c])
    && (forall c, k :: c in x.ctxConds && k in x.ctxConds[c] ==> k in x.condCtxs && c in x.condCtxs[k])
  }

  predicate SituationIndexValid(x: SituationIndex) {
    Valid(x.ctxs) && SituationKeysConsistent(x) && ConditionListsConsistent(x)
  }

  predicate ConditionIndexValid(x: ConditionIndex) {
    Valid(x.dims) && BiValid(x.condIds)
  }

  predicate StoreValid(s: Store) {
    PairIndexValid(s.ui) && SituationIndexValid(s.sit) && ConditionIndexValid(s.cond)
  }

  /** The matrix holds no cell twice and only uses registered ids. */
  predicate LoadedValid(ld: Loaded) {
    StoreValid(ld.store) && WellFormed(ld.matrix)
    && forall e :: e in ld.matrix ==> e.row < |ld.store.ui.pairs.keys| && e.col < |ld.store.sit.ctxs.keys|
  }

  // ---------------------------------------------------------------------
  // Header

  /** The dimension named by a header column "dim:cond": the column is
      trimmed, split at ':' (String.split(":")), and its first field trimmed;
      a column that is made only of colons once trimmed splits into no field
      and raises ArrayIndexOutOfBoundsException. */
  function DimensionOf(column: string): (r: Result<string>)
  {
    var cs := SplitTrimmed(Trim(column), ':');
    if |cs| == 0 then Err(IndexOutOfBounds) else Ok(Trim(cs[0]))
  }

  /** A column without a colon names its own trimmed text; the dimension is
      missing exactly when the trimmed column splits into no field, as ":"
      and " :" do. */
  lemma DimensionOfCases(column: string)
    ensures ':' !in column ==> DimensionOf(column) == Ok(Trim(column))
    ensures DimensionOf(column).Err? <==> |SplitTrimmed(Trim(column), ':')| == 0
    ensures DimensionOf(":").Err? && DimensionOf(" :").Err?
  {
    if ':' !in column {
      DimensionOfNoColon(column);
    }
    DimensionOfColon();
  }

  lemma DimensionOfNoColon(column: string)
    requires ':' !in column
    ensures DimensionOf(column) == Ok(Trim(column))
  {
    var t := Trim(column);
    TrimChars(column);
    SplitTrimmedNoSep(t, ':');
    TrimNoBlank(t);
  }

  lemma DimensionOfColon()
    ensures DimensionOf(":").Err? && DimensionOf(" :").Err?
  {
    assert Split(":", ':') == ["", ""] by {
      assert ":" == "" + [':'] + "";
      SplitAfterField("", "", ':');
      SplitNoSep("", ':');
    }
    assert SplitTrimmed(":", ':') == [];
    TrimColon();
  }

  /** " :" and ":" both trim to ":". */
  lemma TrimColon()
    ensures Trim(":") == ":" && Trim(" :") == ":"
  {
    var c: string := ":";
    assert !IsBlank(c[0]);
    assert TrimStart(c) == c;
    assert TrimEnd(c) == c;
    var b: string := " :";
    assert IsBlank(b[0]) && b[1..] == c;
    assert TrimStart(b) == c;
  }

  /** A header column: its trimmed name and its dimension. */
  datatype Column = Column(name: string, dim: Result<string>)

  function ParseColumn(column: string): Column {
    Column(Trim(column), DimensionOf(column))
  }

  /** The header fields from the fourth on, as columns. */
  function ParseColumns(columns: seq<string>): (cs: seq<Column>)
    ensures |cs| == |columns|
  {
    if |columns| == 0 then [] else ParseColumns(columns[..|columns| - 1]) + [ParseColumn(columns[|columns| - 1])]
  }

  /** Reading the header column at `offset` (header field offset+3): its
      dimension gets the next dimension id if new, the column name is bound
      to the offset in condIds (an offset already bound to another name
      raises IllegalArgumentException), the dimension lists the offset and
      the offset maps to the dimension. */
  function ReadColumn(x: ConditionIndex, col: Column, offset: nat): (r: Result<ConditionIndex>)
    requires ConditionIndexValid(x)
    ensures r.Ok? ==> ConditionIndexValid(r.value)
    ensures r.Err? <==> col.dim.Err? || (offset in x.condIds.inv && x.condIds.inv[offset] != col.name)
    ensures r.Ok? ==> r.value.dims == Intern(x.dims, col.dim.value).0
    ensures r.Ok? ==> r.value.condIds.fwd == x.condIds.fwd[col.name := offset]
    ensures r.Ok? ==> r.value.condIds.inv.Keys <= x.condIds.inv.Keys + {offset}
    ensures r.Ok? ==> r.value.condDim == x.condDim[offset := Intern(x.dims, col.dim.value).1]
    ensures r.Ok? ==> r.value.condDim.Keys == x.condDim.Keys + {offset}
    ensures r.Ok? ==> r.value.dimConds == MultiPut(x.dimConds, Intern(x.dims, col.dim.value).1, offset)
  {
    match col.dim
    case Err(e) => Err(e)
    case Ok(dim) =>
      var (dims', dimc) := Intern(x.dims, dim);
      match BiPut(x.condIds, col.name, offset)
      case Err(e) => Err(e)
      case Ok(condIds') =>
        Ok(ConditionIndex(dims', condIds', MultiPut(x.dimConds, dimc, offset), x.condDim[offset := dimc]))
  }

  /** Reading the header columns in order: column k gets offset k. */
  function ReadHeader(x: ConditionIndex, cols: seq<Column>): (r: Result<ConditionIndex>)
    requires ConditionIndexValid(x)
    ensures r.Ok? ==> ConditionIndexValid(r.value)
  {
    if |cols| == 0 then Ok(x)
    else
      var n := |cols| - 1;
      match ReadHeader(x, cols[..n])
      case Err(e) => Err(e)
      case Ok(x1) => ReadColumn(x1, cols[n], n)
  }

  /** A header is read only if every column names a dimension; on a fresh
      store every such header is read, and condIds then binds offsets of
      this header only. */
  lemma ReadHeaderErrors(x: ConditionIndex, cols: seq<Column>)
    requires ConditionIndexValid(x)
    ensures ReadHeader(x, cols).Ok? ==> forall k :: 0 <= k < |cols| ==> cols[k].dim.Ok?
    ensures (forall k :: 0 <= k < |cols| ==> cols[k].dim.Ok?) && |x.condIds.inv| == 0 ==> ReadHeader(x, cols).Ok?
    ensures ReadHeader(x, cols).Ok? ==> forall v :: v in ReadHeader(x, cols).value.condIds.inv ==> v in x.condIds.inv || v < |cols|
  {
    ReadHeaderNeedsDims(x, cols);
    ReadHeaderOffsets(x, cols);
    if (forall k :: 0 <= k < |cols| ==> cols[k].dim.Ok?) && |x.condIds.inv| == 0 {
      ReadHeaderFresh(x, cols);
    }
  }

  lemma {:induction false} ReadHeaderNeedsDims(x: ConditionIndex, cols: seq<Column>)
    requires ConditionIndexValid(x)
    ensures ReadHeader(x, cols).Ok? ==> forall k :: 0 <= k < |cols| ==> cols[k].dim.Ok?
  {
    if |cols| > 0 && ReadHeader(x, cols).Ok? {
      var front := cols[..|cols| - 1];
      ReadHeaderLast(x, cols);
      ReadHeaderNeedsDims(x, front);
      AllDimsStep(cols, front);
    }
  }

  /** A header read whole had its front read, and its last column names a
      dimension. */
  lemma ReadHeaderLast(x: ConditionIndex, cols: seq<Column>)
    requires ConditionIndexValid(x) && |cols| > 0 && ReadHeader(x, cols).Ok?
    ensures ReadHeader(x, cols[..|cols| - 1]).Ok? && cols[|cols| - 1].dim.Ok?
  {
  }

  lemma AllDimsStep(cols: seq<Column>, front: seq<Column>)
    requires |cols| > 0 && front == cols[..|cols| - 1]
    requires forall k :: 0 <= k < |front| ==> front[k].dim.Ok?
    requires cols[|cols| - 1].dim.Ok?
    ensures forall k :: 0 <= k < |cols| ==> cols[k].dim.Ok?
  {
    forall k | 0 <= k < |cols|
      ensures cols[k].dim.Ok?
    {
      if k < |front| {
        assert front[k] == cols[k];
      }
    }
  }

  lemma {:induction false} ReadHeaderOffsets(x: ConditionIndex, cols: seq<Column>)
    requires ConditionIndexValid(x)
    ensures ReadHeader(x, cols).Ok? ==> forall v :: v in ReadHeader(x, cols).value.condIds.inv ==> v in x.condIds.inv || v < |cols|
  {
    if |cols| > 0 && ReadHeader(x, cols).Ok? {
      ReadHeaderOffsets(x, cols[..|cols| - 1]);
    }
  }

  lemma {:induction false} ReadHeaderFresh(x: ConditionIndex, cols: seq<Column>)
    requires ConditionIndexValid(x) && |x.condIds.inv| == 0
    requires forall k :: 0 <= k < |cols| ==> cols[k].dim.Ok?
    ensures ReadHeader(x, cols).Ok?
  {
    if |cols| > 0 {
      var n := |cols| - 1;
      assert forall k :: 0 <= k < n ==> cols[..n][k] == cols[k];
      ReadHeaderFresh(x, cols[..n]);
      ReadHeaderOffsets(x, cols[..n]);
      assert n !in x.condIds.inv by {
        assert x.condIds.inv == map[];
      }
    }
  }

  /** Every offset of the header gets a dimension, and the dimension
      registry is the one obtained by registering the columns' dimensions in
      order. */
  lemma {:induction false} ReadHeaderIndexes(x: ConditionIndex, cols: seq<Column>)
    requires ConditionIndexValid(x)
    ensures ReadHeader(x, cols).Ok? ==> forall k :: 0 <= k < |cols| ==> k in ReadHeader(x, cols).value.condDim
    ensures ReadHeader(x, cols).Ok? ==> ReadHeader(x, cols).value.dims == InternAll(x.dims, DimensionsOf(cols))
  {
    if |cols| > 0 && ReadHeader(x, cols).Ok? {
      var n := |cols| - 1;
      ReadHeaderIndexes(x, cols[..n]);
      var x1 := ReadHeader(x, cols[..n]).value;
      var x2 := ReadHeader(x, cols).value;
      HeaderStep(x1.condDim, x2.condDim, n);
      assert DimensionsOf(cols)[..n] == DimensionsOf(cols[..n]);
    }
  }

  lemma HeaderStep(before: map<nat, nat>, after: map<nat, nat>, n: nat)
    requires forall k :: 0 <= k < n ==> k in before
    requires after.Keys == before.Keys + {n}
    ensures forall k :: 0 <= k < n + 1 ==> k in after
  {
  }

  /** The dimension names of the header columns, in order; a column that has
      none contributes the empty string (the header is rejected anyway). */
  function DimensionsOf(cols: seq<Column>): (ds: seq<string>)
    ensures |ds| == |cols|
  {
    if |cols| == 0 then []
    else
      var n := |cols| - 1;
      DimensionsOf(cols[..n]) + [match cols[n].dim case Ok(d) => d case Err(_) => ""]
  }

  /** The ascending positions that hold true. */
  function Positions(bs: seq<bool>): (r: seq<nat>)
    ensures StrictlyAscending(r)
    ensures forall k :: k in r ==> k < |bs|
    ensures forall k :: k in r <==> 0 <= k < |bs| && bs[k]
  {
    if |bs| == 0 then []
    else
      var n := |bs| - 1;
      var r0 := Positions(bs[..n]);
      assert forall k :: 0 <= k < n ==> bs[..n][k] == bs[k];
      AppendAbove(r0, n);
      r0 + (if bs[n] then [n] else [])
  }

  lemma AppendAbove(s: seq<nat>, n: nat)
    requires StrictlyAscending(s)
    requires forall k :: k in s ==> k < n
    ensures StrictlyAscending(s + [n])
  {
    forall i, j | 0 <= i < j < |s| + 1
      ensures (s + [n])[i] < (s + [n])[j]
    {
      if j == |s| {
        assert s[i] in s;
      }
    }
  }

  /** The offsets of the header columns whose trimmed name ends with ":na". */
  function EmptyConditions(cols: seq<Column>): (r: seq<nat>)
    ensures StrictlyAscending(r)
    ensures forall k :: k in r <==> 0 <= k < |cols| && EndsWith(cols[k].name, ":na")
  {
    Positions(seq(|cols|, k requires 0 <= k < |cols| => EndsWith(cols[k].name, ":na")))
  }

  // ---------------------------------------------------------------------
  // Data lines

  /** Integer.valueOf of every trimmed condition field. */
  function FlagValues(flags: seq<string>): (vs: seq<Option<int>>)
    ensures |vs| == |flags|
  {
    if |flags| == 0 then [] else FlagValues(flags[..|flags| - 1]) + [ParseInt(Trim(flags[|flags| - 1]))]
  }

  /** The situation of a line: the ascending offsets whose field is 1. Every
      field is parsed, so one field that is not a number fails the line. */
  function SituationOf(vs: seq<Option<int>>): (r: Result<seq<nat>>)
    ensures r.Ok? <==> forall k :: 0 <= k < |vs| ==> vs[k].Some?
    ensures r.Ok? ==> StrictlyAscending(r.value)
    ensures r.Ok? ==> forall k :: k in r.value <==> 0 <= k < |vs| && vs[k] == Some(1)
  {
    if forall k :: 0 <= k < |vs| ==> vs[k].Some? then
      Ok(Positions(seq(|vs|, k requires 0 <= k < |vs| => vs[k] == Some(1))))
    else Err(NumberFormat)
  }

  /** Registering the user, the item and their pair, and recording the pair
      in both rated lists and in the pair-to-user and pair-to-item maps.
      Returns the pair id. */
  function AddPair(x: PairIndex, user: string, item: string): (r: (PairIndex, nat))
    requires PairIndexValid(x)
    ensures PairIndexValid(r.0)
    ensures r.0.users == Intern(x.users, user).0
    ensures r.0.items == Intern(x.items, item).0
    ensures x.pairs.keys <= r.0.pairs.keys
    ensures r.1 < |r.0.pairs.keys| && r.0.pairs.keys[r.1] == PairKey(r.0.users.ids[user], r.0.items.ids[item])
    ensures r.0.uiUser[r.1] == r.0.users.ids[user] && r.0.uiItem[r.1] == r.0.items.ids[item]
    ensures r.0.pairs == Intern(x.pairs, PairKey(r.0.users.ids[user], r.0.items.ids[item])).0
  {
    var (users', u) := Intern(x.users, user);
    var (items', i) := Intern(x.items, item);
    var (pairs', p) := Intern(x.pairs, PairKey(u, i));
    var x' := PairIndex(users', items', pairs', x.uiUser[p := u], x.uiItem[p := i],
                        MultiPut(x.uRated, u, p), MultiPut(x.iRated, i, p));
    assert p < |x.pairs.keys| ==> x.uiUser[p] == u && x.uiItem[p] == i by {
      if p < |x.pairs.keys| {
        KnownPair(x, p, u, i);
      }
    }
    AddPairKeys(x, x', p, u, i);
    AddPairUsers(x, x', p, u);
    AddPairItems(x, x', p, i);
    (x', p)
  }

  /** A pair already registered under key "u,i" already maps to u and i. */
  lemma KnownPair(x: PairIndex, p: nat, u: nat, i: nat)
    requires PairKeysConsistent(x)
    requires p < |x.pairs.keys| && x.pairs.keys[p] == PairKey(u, i)
    ensures x.uiUser[p] == u && x.uiItem[p] == i
  {
    PairKeyInjective(x.uiUser[p], x.uiItem[p], u, i);
  }

  lemma AddPairKeys(x: PairIndex, x': PairIndex, p: nat, u: nat, i: nat)
    requires PairKeysConsistent(x)
    requires x.users.keys <= x'.users.keys && x.items.keys <= x'.items.keys
    requires u < |x'.users.keys| && i < |x'.items.keys|
    requires p < |x.pairs.keys| ==> x'.pairs == x.pairs && x.pairs.keys[p] == PairKey(u, i)
    requires p >= |x.pairs.keys| ==> p == |x.pairs.keys| && x'.pairs.keys == x.pairs.keys + [PairKey(u, i)]
    requires x'.uiUser == x.uiUser[p := u] && x'.uiItem == x.uiItem[p := i]
    ensures PairKeysConsistent(x')
  {
    var n, n' := |x.pairs.keys|, |x'.pairs.keys|;
    assert n <= n' && p < n';
    assert x'.pairs.keys[p] == PairKey(u, i);
    assert forall q :: 0 <= q < n ==> x'.pairs.keys[q] == x.pairs.keys[q];
    forall q | 0 <= q < n'
      ensures q in x'.uiUser && q in x'.uiItem
      ensures x'.uiUser[q] < |x'.users.keys| && x'.uiItem[q] < |x'.items.keys|
      ensures x'.pairs.keys[q] == PairKey(x'.uiUser[q], x'.uiItem[q])
    {
      if q != p {
        assert q < n;
      }
    }
    forall q | q in x'.uiUser
      ensures q < n'
    {
      if q != p {
        assert q in x.uiUser;
      }
    }
    forall q | q in x'.uiItem
      ensures q < n'
    {
      if q != p {
        assert q in x.uiItem;
      }
    }
  }

  lemma AddPairUsers(x: PairIndex, x': PairIndex, p: nat, u: nat)
    requires UserListsConsistent(x)
    requires p in x.uiUser ==> x.uiUser[p] == u
    requires x'.uiUser == x.uiUser[p := u] && x'.uRated == MultiPut(x.uRated, u, p)
    ensures UserListsConsistent(x')
  {
  }

  lemma AddPairItems(x: PairIndex, x': PairIndex, p: nat, i: nat)
    requires ItemListsConsistent(x)
    requires p in x.uiItem ==> x.uiItem[p] == i
    requires x'.uiItem == x.uiItem[p := i] && x'.iRated == MultiPut(x.iRated, i, p)
    ensures ItemListsConsistent(x')
  {
  }

  /** Registering the situation key of a condition list and indexing it
      both ways (contextConditionsList and condContextsList). Returns the
      situation id. */
  function AddSituation(x: SituationIndex, conds: seq<nat>): (r: (SituationIndex, nat))
    requires SituationIndexValid(x)
    requires StrictlyAscending(conds)
    ensures SituationIndexValid(r.0)
    ensures r.0.ctxs == Intern(x.ctxs, IdsKey(conds)).0
    ensures r.1 == Intern(x.ctxs, IdsKey(conds)).1
    ensures r.1 < |r.0.ctxs.keys| && r.0.ctxs.keys[r.1] == IdsKey(conds)
    ensures r.0.ctxConds[r.1] == conds
  {
    var (ctxs', c) := Intern(x.ctxs, IdsKey(conds));
    assert c < |x.ctxs.keys| ==> x.ctxConds[c] == conds by {
      if c < |x.ctxs.keys| {
        // a known situation: its key already encodes the same list
        IdsKeyInjective(x.ctxConds[c], conds);
      }
    }
    var x' := SituationIndex(ctxs', x.ctxConds[c := conds], AddContext(x.condCtxs, conds, c));
    AddSituationKeys(x, x', conds, c);
    AddSituationLists(x, x', conds, c);
    (x', c)
  }

  /** Putting situation c under each of its conditions. */
  function AddContext(cc: map<nat, set<nat>>, conds: seq<nat>, c: nat): (r: map<nat, set<nat>>)
    ensures forall k :: k in conds ==> k in r && c in r[k]
    ensures forall k :: k in cc ==> k in r && cc[k] <= r[k]
    ensures forall k, c2 :: k in r && c2 in r[k] ==> (k in conds && c2 == c) || (k in cc && c2 in cc[k])
  {
    if |conds| == 0 then cc else MultiPut(AddContext(cc, conds[1..], c), conds[0], c)
  }

  lemma AddSituationKeys(x: SituationIndex, x': SituationIndex, conds: seq<nat>, c: nat)
    requires SituationKeysConsistent(x) && StrictlyAscending(conds)
    requires c < |x.ctxs.keys| ==> x'.ctxs == x.ctxs && x.ctxConds[c] == conds
    requires c >= |x.ctxs.keys| ==> c == |x.ctxs.keys| && x'.ctxs.keys == x.ctxs.keys + [IdsKey(conds)]
    requires x'.ctxConds == x.ctxConds[c := conds]
    ensures SituationKeysConsistent(x')
  {
  }

  lemma AddSituationLists(x: SituationIndex, x': SituationIndex, conds: seq<nat>, c: nat)
    requires ConditionListsConsistent(x)
    requires c in x.ctxConds ==> x.ctxConds[c] == conds
    requires x'.ctxConds == x.ctxConds[c := conds] && x'.condCtxs == AddContext(x.condCtxs, conds, c)
    ensures ConditionListsConsistent(x')
  {
  }

  /** A data line whose condition fields have been read into its situation. */
  datatype Row = Row(user: string, item: string, rate: real, conds: seq<nat>)

  /** Parsing the condition fields of one data line. */
  function ParseLine(line: Line): (r: Result<Row>)
    ensures r.Ok? <==> SituationOf(FlagValues(line.flags)).Ok?
    ensures r.Ok? ==> r.value == Row(line.user, line.item, line.rate, SituationOf(FlagValues(line.flags)).value)
    ensures r.Ok? ==> StrictlyAscending(r.value.conds)
  {
    var conds :- SituationOf(FlagValues(line.flags));
    Ok(Row(line.user, line.item, line.rate, conds))
  }

  /** Parsing every data line; the first line that fails ends the read. */
  function ParseLines(lines: seq<Line>): (r: Result<seq<Row>>)
    ensures r.Ok? <==> forall k :: 0 <= k < |lines| ==> ParseLine(lines[k]).Ok?
    ensures r.Ok? ==> |r.value| == |lines|
    ensures r.Ok? ==> forall k :: 0 <= k < |lines| ==> r.value[k] == ParseLine(lines[k]).value
    ensures r.Ok? ==> AllAscending(r.value)
  {
    ParseEach(lines, ParseLine)
  }

  /** The loop over the lines, for a given per-line parser. */
  function ParseEach(lines: seq<Line>, parse: Line -> Result<Row>): (r: Result<seq<Row>>)
    ensures r.Ok? <==> forall k :: 0 <= k < |lines| ==> parse(lines[k]).Ok?
    ensures r.Ok? ==> |r.value| == |lines|
    ensures r.Ok? ==> forall k :: 0 <= k < |lines| ==> r.value[k] == parse(lines[k]).value
  {
    if |lines| == 0 then Ok([])
    else
      var n := |lines| - 1;
      assert forall k :: 0 <= k < n ==> lines[..n][k] == lines[k];
      match ParseEach(lines[..n], parse)
      case Err(e) => Err(e)
      case Ok(rows) =>
        match parse(lines[n])
        case Err(e) => Err(e)
        case Ok(row) => Ok(rows + [row])
  }

  predicate AllAscending(rows: seq<Row>) {
    forall k :: 0 <= k < |rows| ==> StrictlyAscending(rows[k].conds)
  }

  /** Indexing one parsed line: returns the new state with the pair id and
      the situation id of the line. The line's cell gets its rating
      (dataTable.put overwrites an earlier rating of the same cell) and
      every other cell keeps its value; the rating is also counted in
      scaleDist, duplicate or not. */
  function LoadRow(ld: Loaded, row: Row): (r: (Loaded, nat, nat))
    requires LoadedValid(ld) && StrictlyAscending(row.conds)
    ensures LoadedValid(r.0)
    ensures r.0.store.cond == ld.store.cond && r.0.emptyConds == ld.emptyConds
    ensures r.0.rates == ld.rates + [row.rate]
  {
    var (ui', p) := AddPair(ld.store.ui, row.user, row.item);
    var (sit', c) := AddSituation(ld.store.sit, row.conds);
    var m' := Put(ld.matrix, p, c, row.rate);
    var ld' := Loaded(Store(ui', sit', ld.store.cond), m', ld.rates + [row.rate], ld.emptyConds);
    CellsRegistered(ld.matrix, m', p, c, |ui'.pairs.keys|, |sit'.ctxs.keys|);
    (ld', p, c)
  }

  /** What LoadRow does to the registries and the matrix. */
  lemma LoadRowEffect(ld: Loaded, row: Row)
    requires LoadedValid(ld) && StrictlyAscending(row.conds)
    ensures var (ld', p, c) := LoadRow(ld, row);
              && ld'.store.ui.users == Intern(ld.store.ui.users, row.user).0
              && ld'.store.ui.items == Intern(ld.store.ui.items, row.item).0
              && ld'.store.ui.pairs == Intern(ld.store.ui.pairs, PairKey(ld'.store.ui.users.ids[row.user], ld'.store.ui.items.ids[row.item])).0
              && ld'.store.sit.ctxs == Intern(ld.store.sit.ctxs, IdsKey(row.conds)).0
              && ld.store.ui.pairs.keys <= ld'.store.ui.pairs.keys
              && ld.store.sit.ctxs.keys <= ld'.store.sit.ctxs.keys
              && p < |ld'.store.ui.pairs.keys|
              && ld'.store.ui.pairs.keys[p] == PairKey(ld'.store.ui.users.ids[row.user], ld'.store.ui.items.ids[row.item])
              && c < |ld'.store.sit.ctxs.keys|
              && ld'.store.sit.ctxs.keys[c] == IdsKey(row.conds)
              && Get(ld'.matrix, p, c) == row.rate
              && (forall p2: nat, c2: nat :: !(p2 == p && c2 == c) ==> Get(ld'.matrix, p2, c2) == Get(ld.matrix, p2, c2))
              && Keys(ld'.matrix) == Keys(ld.matrix) + {(p, c)}
              && |ld'.matrix| == if Has(ld.matrix, p, c) then |ld.matrix| else |ld.matrix| + 1
  {
  }

  /** After Put, every stored cell is either the new one or an old one. */
  lemma CellsRegistered(m: Matrix, m': Matrix, p: nat, c: nat, np: nat, nc: nat)
    requires forall e :: e in m ==> e.row < np && e.col < nc
    requires p < np && c < nc
    requires Keys(m') == Keys(m) + {(p, c)}
    ensures forall e :: e in m' ==> e.row < np && e.col < nc
  {
    forall e | e in m'
      ensures e.row < np && e.col < nc
    {
      KeysMember(m', e);
      if !(e.row == p && e.col == c) {
        var e0 := KeyEntry(m, e.row, e.col);
      }
    }
  }

  /** A stored cell is held by some entry. */
  lemma {:induction false} KeyEntry(m: Matrix, r: nat, c: nat) returns (e: Entry)
    requires (r, c) in Keys(m)
    ensures e in m && e.row == r && e.col == c
  {
    if m[0].row == r && m[0].col == c {
      e := m[0];
    } else {
      e := KeyEntry(m[1..], r, c);
    }
  }

  /** Indexing the parsed lines in order (a fold from the left, written by
      its last step). */
  function LoadRows(ld: Loaded, rows: seq<Row>): (r: Loaded)
    requires LoadedValid(ld) && AllAscending(rows)
    ensures LoadedValid(r)
    ensures r.store.cond == ld.store.cond && r.emptyConds == ld.emptyConds
  {
    if |rows| == 0 then ld
    else
      var n := |rows| - 1;
      PrefixAscending(rows, n);
      LoadRow(LoadRows(ld, rows[..n]), rows[n]).0
  }

  lemma PrefixAscending(rows: seq<Row>, n: nat)
    requires AllAscending(rows) && n <= |rows|
    ensures AllAscending(rows[..n])
  {
    assert forall k :: 0 <= k < n ==> rows[..n][k] == rows[k];
  }

  /** numRatings: every line adds its rating to scaleDist, and the matrix
      grows by at most one cell per line. */
  lemma {:induction false} LoadRowsCounts(ld: Loaded, rows: seq<Row>)
    requires LoadedValid(ld) && AllAscending(rows)
    ensures LoadRows(ld, rows).rates == ld.rates + RatesOf(rows)
    ensures |LoadRows(ld, rows).matrix| <= |ld.matrix| + |rows|
  {
    if |rows| > 0 {
      var n := |rows| - 1;
      var front := rows[..n];
      var prev := LoadRowsLastCounts(ld, rows);
      LoadRowsCounts(ld, front);
      var last := LoadRows(ld, rows);
      CountsStep(ld.rates, prev.rates, last.rates, RatesOf(front), RatesOf(rows), rows[n].rate);
      SizeStep(|ld.matrix|, |prev.matrix|, |last.matrix|, n);
    }
  }

  /** The matrix grows by at most one cell per line. */
  lemma SizeStep(first: nat, prev: nat, last: nat, n: nat)
    requires prev <= first + n && last <= prev + 1
    ensures last <= first + n + 1
  {
  }

  /** The last line adds its rating and at most one cell. */
  lemma LoadRowsLastCounts(ld: Loaded, rows: seq<Row>) returns (prev: Loaded)
    requires LoadedValid(ld) && AllAscending(rows) && |rows| > 0
    ensures AllAscending(rows[..|rows| - 1])
    ensures prev == LoadRows(ld, rows[..|rows| - 1])
    ensures LoadRows(ld, rows).rates == prev.rates + [rows[|rows| - 1].rate]
    ensures |LoadRows(ld, rows).matrix| <= |prev.matrix| + 1
  {
    PrefixAscending(rows, |rows| - 1);
    prev := LoadRows(ld, rows[..|rows| - 1]);
    LoadRowEffect(prev, rows[|rows| - 1]);
  }

  /** The rates grow by the last line's rating. */
  lemma CountsStep(first: seq<real>, prev: seq<real>, last: seq<real>, front: seq<real>, all: seq<real>, x: real)
    requires prev == first + front && last == prev + [x] && all == front + [x]
    ensures last == first + all
  {
  }

  /** userIds and itemIds after reading: the given registries with the
      lines' users (items) registered in order of first appearance. */
  lemma {:induction false} LoadRowsRegistries(ld: Loaded, rows: seq<Row>)
    requires LoadedValid(ld) && AllAscending(rows)
    ensures LoadRows(ld, rows).store.ui.users == InternAll(ld.store.ui.users, UsersOf(rows))
    ensures LoadRows(ld, rows).store.ui.items == InternAll(ld.store.ui.items, ItemsOf(rows))
  {
    if |rows| > 0 {
      var n := |rows| - 1;
      PrefixAscending(rows, n);
      LoadRowsRegistries(ld, rows[..n]);
      LoadRowEffect(LoadRows(ld, rows[..n]), rows[n]);
      assert UsersOf(rows)[..n] == UsersOf(rows[..n]);
      assert ItemsOf(rows)[..n] == ItemsOf(rows[..n]);
    }
  }

  function RatesOf(rows: seq<Row>): (rs: seq<real>)
    ensures |rs| == |rows|
  {
    if |rows| == 0 then [] else RatesOf(rows[..|rows| - 1]) + [rows[|rows| - 1].rate]
  }

  function UsersOf(rows: seq<Row>): (us: seq<string>)
    ensures |us| == |rows|
  {
    if |rows| == 0 then [] else UsersOf(rows[..|rows| - 1]) + [rows[|rows| - 1].user]
  }

  function ItemsOf(rows: seq<Row>): (its: seq<string>)
    ensures |its| == |rows|
  {
    if |rows| == 0 then [] else ItemsOf(rows[..|rows| - 1]) + [rows[|rows| - 1].item]
  }

  // ---------------------------------------------------------------------
  // What the loaded matrix holds

  /** The cell a parsed line lands in, read through the registries of a
      store: its pair id and its situation id, None while either is not
      registered. */
  function CellOf(st: Store, row: Row): Option<(nat, nat)> {
    if row.user in st.ui.users.ids && row.item in st.ui.items.ids then
      var key := PairKey(st.ui.users.ids[row.user], st.ui.items.ids[row.item]);
      if key in st.ui.pairs.ids && IdsKey(row.conds) in st.sit.ctxs.ids then
        Some((st.ui.pairs.ids[key], st.sit.ctxs.ids[IdsKey(row.conds)]))
      else None
    else None
  }

  /** Two lines about the same user, item and situation. */
  predicate SameCell(a: Row, b: Row) {
    a.user == b.user && a.item == b.item && a.conds == b.conds
  }

  /** No later line is about the same cell as line k. */
  predicate LastFor(rows: seq<Row>, k: nat) {
    forall k2 :: k < k2 < |rows| ==> !SameCell(rows[k2], rows[k])
  }

  /** The registries of st2 grow those of st. */
  predicate StoreExtends(st: Store, st2: Store) {
    Extends(st.ui.users, st2.ui.users) && Extends(st.ui.items, st2.ui.items)
    && Extends(st.ui.pairs, st2.ui.pairs) && Extends(st.sit.ctxs, st2.sit.ctxs)
  }

  /** A line keeps its cell while the registries grow. */
  lemma CellOfStable(st: Store, st2: Store, row: Row)
    requires StoreExtends(st, st2) && CellOf(st, row).Some?
    ensures CellOf(st2, row) == CellOf(st, row)
  {
  }

  /** Distinct cells come from distinct lines: the registries number keys
      one-to-one, and both key renderings are injective. */
  lemma CellOfInjective(st: Store, a: Row, b: Row)
    requires StoreValid(st)
    requires CellOf(st, a).Some? && CellOf(st, a) == CellOf(st, b)
    ensures SameCell(a, b)
  {
    var x := st.ui;
    var ka := PairKey(x.users.ids[a.user], x.items.ids[a.item]);
    var kb := PairKey(x.users.ids[b.user], x.items.ids[b.item]);
    assert x.pairs.keys[x.pairs.ids[ka]] == ka && x.pairs.keys[x.pairs.ids[kb]] == kb;
    PairKeyInjective(x.users.ids[a.user], x.items.ids[a.item], x.users.ids[b.user], x.items.ids[b.item]);
    assert x.users.keys[x.users.ids[a.user]] == a.user && x.users.keys[x.users.ids[b.user]] == b.user;
    assert x.items.keys[x.items.ids[a.item]] == a.item && x.items.keys[x.items.ids[b.item]] == b.item;
    var sa := IdsKey(a.conds);
    var sb := IdsKey(b.conds);
    assert st.sit.ctxs.keys[st.sit.ctxs.ids[sa]] == sa && st.sit.ctxs.keys[st.sit.ctxs.ids[sb]] == sb;
    IdsKeyInjective(a.conds, b.conds);
  }

  /** One line loaded: the registries grow, and the line's cell is the one
      LoadRow wrote. */
  lemma LoadRowCell(ld: Loaded, row: Row)
    requires LoadedValid(ld) && StrictlyAscending(row.conds)
    ensures var (ld', p, c) := LoadRow(ld, row);
      StoreExtends(ld.store, ld'.store) && CellOf(ld'.store, row) == Some((p, c))
  {
    var (ld', p, c) := LoadRow(ld, row);
    LoadRowEffect(ld, row);
    InternExtends(ld.store.ui.users, row.user);
    InternExtends(ld.store.ui.items, row.item);
    InternExtends(ld.store.ui.pairs, PairKey(ld'.store.ui.users.ids[row.user], ld'.store.ui.items.ids[row.item]));
    InternExtends(ld.store.sit.ctxs, IdsKey(row.conds));
  }

  /** One line loaded, as seen from outside: the registries grow (the pair
      and situation registries by the line's keys), the line's cell gets
      its rating, and no other cell changes. */
  ghost predicate Step(a: Loaded, b: Loaded, row: Row, cell: (nat, nat)) {
    CellStep(a, b, row, cell) && PairStep(a, b, row) && SituationStep(a, b, row) && MatrixStep(a, b, row, cell)
  }

  /** The registries of a step grow, and the line lands in its cell. */
  ghost predicate CellStep(a: Loaded, b: Loaded, row: Row, cell: (nat, nat)) {
    StoreExtends(a.store, b.store) && CellOf(b.store, row) == Some(cell)
  }

  /** The matrix of a step: the line's cell is stored with its rating, no
      other cell changes. */
  ghost predicate MatrixStep(a: Loaded, b: Loaded, row: Row, cell: (nat, nat)) {
    && Keys(b.matrix) == Keys(a.matrix) + {cell}
    && Get(b.matrix, cell.0, cell.1) == row.rate
    && (forall p: nat, c: nat :: (p, c) != cell ==> Get(b.matrix, p, c) == Get(a.matrix, p, c))
  }

  /** The pair registry of a step grows by the line's pair key. */
  ghost predicate PairStep(a: Loaded, b: Loaded, row: Row) {
    PairStepUi(a.store.ui, b.store.ui, row)
  }

  ghost predicate PairStepUi(x: PairIndex, y: PairIndex, row: Row) {
    && Extends(x.users, y.users) && Extends(x.items, y.items)
    && Valid(x.pairs)
    && row.user in y.users.ids && row.item in y.items.ids
    && y.pairs == Intern(x.pairs, PairKeyOf(y, row)).0
  }

  /** The situation registry of a step grows by the line's situation key. */
  ghost predicate SituationStep(a: Loaded, b: Loaded, row: Row) {
    Valid(a.store.sit.ctxs) && b.store.sit.ctxs == Intern(a.store.sit.ctxs, IdsKey(row.conds)).0
  }

  /** The states of a load, one per line read (states[0] before any), and
      the cell each line landed in. */
  ghost predicate Trace(states: seq<Loaded>, rows: seq<Row>, cells: seq<(nat, nat)>) {
    |states| == |rows| + 1 && |cells| == |rows|
    && forall i :: 0 <= i < |rows| ==> Step(states[i], states[i + 1], rows[i], cells[i])
  }

  /** A trace grows by one line. */
  lemma TraceSnoc(states: seq<Loaded>, rows: seq<Row>, cells: seq<(nat, nat)>, next: Loaded, cell: (nat, nat))
    returns (ss: seq<Loaded>, cs: seq<(nat, nat)>)
    requires |rows| > 0 && Trace(states, rows[..|rows| - 1], cells)
    requires Step(states[|rows| - 1], next, rows[|rows| - 1], cell)
    ensures ss == states + [next] && cs == cells + [cell]
    ensures Trace(ss, rows, cs) && ss[0] == states[0] && ss[|rows|] == next
  {
    var n := |rows| - 1;
    var front := rows[..n];
    ss, cs := states + [next], cells + [cell];
    forall i | 0 <= i < |rows|
      ensures Step(ss[i], ss[i + 1], rows[i], cs[i])
    {
      assert ss[i] == states[i];
      if i < n {
        assert front[i] == rows[i] && ss[i + 1] == states[i + 1] && cs[i] == cells[i];
        assert Step(states[i], states[i + 1], front[i], cells[i]);
      } else {
        assert ss[i + 1] == next && cs[i] == cell;
      }
    }
  }

  /** Lines read earlier keep their cells in every later state. */
  lemma {:induction false} TraceCells(states: seq<Loaded>, rows: seq<Row>, cells: seq<(nat, nat)>, m: nat)
    requires |states| == |rows| + 1 && |cells| == |rows| && m <= |rows|
    requires forall i :: 0 <= i < |rows| ==> CellStep(states[i], states[i + 1], rows[i], cells[i])
    ensures forall i :: 0 <= i < m ==> CellOf(states[m].store, rows[i]) == Some(cells[i])
  {
    if m > 0 {
      TraceCells(states, rows, cells, m - 1);
      assert CellStep(states[m - 1], states[m], rows[m - 1], cells[m - 1]);
      forall i | 0 <= i < m - 1
        ensures CellOf(states[m].store, rows[i]) == Some(cells[i])
      {
        CellOfStable(states[m - 1].store, states[m].store, rows[i]);
      }
    }
  }

  /** The stored cells after m lines: those stored before, and the cells of
      the m lines. */
  lemma {:induction false} TraceKeys(states: seq<Loaded>, rows: seq<Row>, cells: seq<(nat, nat)>, m: nat)
    requires |states| == |rows| + 1 && |cells| == |rows| && m <= |rows|
    requires forall i :: 0 <= i < |rows| ==> MatrixStep(states[i], states[i + 1], rows[i], cells[i])
    ensures forall p: nat, c: nat :: Has(states[m].matrix, p, c) <==>
      Has(states[0].matrix, p, c) || exists i :: 0 <= i < m && cells[i] == (p, c)
  {
    if m > 0 {
      TraceKeys(states, rows, cells, m - 1);
      assert MatrixStep(states[m - 1], states[m], rows[m - 1], cells[m - 1]);
      KeysStep(states[0].matrix, states[m - 1].matrix, states[m].matrix, cells, m);
    }
  }

  /** One step of TraceKeys, over the matrices alone. */
  lemma KeysStep(first: Matrix, a: Matrix, b: Matrix, cells: seq<(nat, nat)>, m: nat)
    requires 0 < m <= |cells|
    requires forall p: nat, c: nat :: Has(a, p, c) <==>
      Has(first, p, c) || exists i :: 0 <= i < m - 1 && cells[i] == (p, c)
    requires Keys(b) == Keys(a) + {cells[m - 1]}
    ensures forall p: nat, c: nat :: Has(b, p, c) <==>
      Has(first, p, c) || exists i :: 0 <= i < m && cells[i] == (p, c)
  {
    forall p: nat, c: nat
      ensures Has(b, p, c) <==> Has(first, p, c) || exists i :: 0 <= i < m && cells[i] == (p, c)
    {
      if exists i :: 0 <= i < m && cells[i] == (p, c) {
        var i :| 0 <= i < m && cells[i] == (p, c);
        if i < m - 1 {
          assert Has(a, p, c);
        }
      }
    }
  }

  /** A cell none of the first m lines lands in keeps its value. */
  lemma {:induction false} TraceUntouched(states: seq<Loaded>, rows: seq<Row>, cells: seq<(nat, nat)>, m: nat)
    requires |states| == |rows| + 1 && |cells| == |rows| && m <= |rows|
    requires forall i :: 0 <= i < |rows| ==> MatrixStep(states[i], states[i + 1], rows[i], cells[i])
    ensures forall p: nat, c: nat :: (forall i :: 0 <= i < m ==> cells[i] != (p, c)) ==>
      Get(states[m].matrix, p, c) == Get(states[0].matrix, p, c)
  {
    if m > 0 {
      TraceUntouched(states, rows, cells, m - 1);
      assert MatrixStep(states[m - 1], states[m], rows[m - 1], cells[m - 1]);
      UntouchedStep(states[0].matrix, states[m - 1].matrix, states[m].matrix, cells, m);
    }
  }

  /** One step of TraceUntouched, over the matrices alone. */
  lemma UntouchedStep(first: Matrix, a: Matrix, b: Matrix, cells: seq<(nat, nat)>, m: nat)
    requires 0 < m <= |cells|
    requires forall p: nat, c: nat :: (forall i :: 0 <= i < m - 1 ==> cells[i] != (p, c)) ==>
      Get(a, p, c) == Get(first, p, c)
    requires forall p: nat, c: nat :: (p, c) != cells[m - 1] ==> Get(b, p, c) == Get(a, p, c)
    ensures forall p: nat, c: nat :: (forall i :: 0 <= i < m ==> cells[i] != (p, c)) ==>
      Get(b, p, c) == Get(first, p, c)
  {
    forall p: nat, c: nat | forall i :: 0 <= i < m ==> cells[i] != (p, c)
      ensures Get(b, p, c) == Get(first, p, c)
    {
      assert cells[m - 1] != (p, c);
    }
  }

  /** After m lines, the cell of a line holds its rating unless a later
      line among the m landed in the same cell. */
  lemma {:induction false} TraceLast(states: seq<Loaded>, rows: seq<Row>, cells: seq<(nat, nat)>, m: nat)
    requires |states| == |rows| + 1 && |cells| == |rows| && m <= |rows|
    requires forall i :: 0 <= i < |rows| ==> MatrixStep(states[i], states[i + 1], rows[i], cells[i])
    ensures forall i :: 0 <= i < m && (forall i2 :: i < i2 < m ==> cells[i2] != cells[i]) ==>
      Get(states[m].matrix, cells[i].0, cells[i].1) == rows[i].rate
  {
    if m > 0 {
      TraceLast(states, rows, cells, m - 1);
      assert MatrixStep(states[m - 1], states[m], rows[m - 1], cells[m - 1]);
      forall i | 0 <= i < m && (forall i2 :: i < i2 < m ==> cells[i2] != cells[i])
        ensures Get(states[m].matrix, cells[i].0, cells[i].1) == rows[i].rate
      {
        if i < m - 1 {
          assert cells[m - 1] != cells[i];
        }
      }
    }
  }

  /** The key of a line's pair, read through a pair index ("" while its
      user or item is not registered). */
  function PairKeyOf(x: PairIndex, row: Row): string {
    if row.user in x.users.ids && row.item in x.items.ids then PairKey(x.users.ids[row.user], x.items.ids[row.item])
    else ""
  }

  /** The keys of the lines' pairs, read through a pair index. */
  function PairKeysOf(x: PairIndex, rows: seq<Row>): (ks: seq<string>)
    ensures |ks| == |rows|
  {
    if |rows| == 0 then [] else PairKeysOf(x, rows[..|rows| - 1]) + [PairKeyOf(x, rows[|rows| - 1])]
  }

  /** Pair keys read through a grown pair index are unchanged. */
  lemma {:induction false} PairKeysGrow(x: PairIndex, y: PairIndex, rows: seq<Row>)
    requires forall i :: 0 <= i < |rows| ==> rows[i].user in x.users.ids && rows[i].item in x.items.ids
    requires Extends(x.users, y.users) && Extends(x.items, y.items)
    ensures PairKeysOf(y, rows) == PairKeysOf(x, rows)
  {
    if |rows| > 0 {
      var n := |rows| - 1;
      assert forall i :: 0 <= i < n ==> rows[..n][i] == rows[i];
      PairKeysGrow(x, y, rows[..n]);
    }
  }

  /** The keys of the lines' situations. */
  function SituationKeysOf(rows: seq<Row>): (ks: seq<string>)
    ensures |ks| == |rows|
  {
    seq(|rows|, k requires 0 <= k < |rows| => IdsKey(rows[k].conds))
  }

  /** The parts of a trace, one kind of fact at a time. */
  lemma TraceParts(states: seq<Loaded>, rows: seq<Row>, cells: seq<(nat, nat)>)
    requires Trace(states, rows, cells)
    ensures forall i :: 0 <= i < |rows| ==> CellStep(states[i], states[i + 1], rows[i], cells[i])
    ensures forall i :: 0 <= i < |rows| ==> MatrixStep(states[i], states[i + 1], rows[i], cells[i])
    ensures forall i :: 0 <= i < |rows| ==> PairStep(states[i], states[i + 1], rows[i])
    ensures forall i :: 0 <= i < |rows| ==> SituationStep(states[i], states[i + 1], rows[i])
  {
    forall i | 0 <= i < |rows|
      ensures CellStep(states[i], states[i + 1], rows[i], cells[i]) && MatrixStep(states[i], states[i + 1], rows[i], cells[i])
      ensures PairStep(states[i], states[i + 1], rows[i]) && SituationStep(states[i], states[i + 1], rows[i])
    {
      assert Step(states[i], states[i + 1], rows[i], cells[i]);
    }
  }

  /** After m lines, the users and items of the m lines are registered. */
  lemma {:induction false} TraceMembers(states: seq<Loaded>, rows: seq<Row>, m: nat)
    requires |states| == |rows| + 1 && m <= |rows|
    requires forall i :: 0 <= i < |rows| ==> PairStep(states[i], states[i + 1], rows[i])
    ensures forall i :: 0 <= i < m ==> rows[i].user in states[m].store.ui.users.ids && rows[i].item in states[m].store.ui.items.ids
  {
    if m > 0 {
      TraceMembers(states, rows, m - 1);
      assert PairStep(states[m - 1], states[m], rows[m - 1]);
    }
  }

  /** The pair keys of m lines, read through a grown pair index: the keys of
      the first m - 1 lines are unchanged, then the last line's key. */
  lemma PairKeysStep(x: PairIndex, y: PairIndex, rows: seq<Row>, m: nat)
    requires 0 < m <= |rows|
    requires forall i :: 0 <= i < m - 1 ==> rows[i].user in x.users.ids && rows[i].item in x.items.ids
    requires Extends(x.users, y.users) && Extends(x.items, y.items)
    ensures PairKeysOf(y, rows[..m]) == PairKeysOf(x, rows[..m - 1]) + [PairKeyOf(y, rows[m - 1])]
  {
    assert rows[..m][..m - 1] == rows[..m - 1];
    assert forall i :: 0 <= i < m - 1 ==> rows[..m - 1][i] == rows[i];
    PairKeysGrow(x, y, rows[..m - 1]);
  }

  /** After m lines, the pair registry is the first one with the m lines'
      pair keys registered in order. */
  lemma {:induction false} TracePairs(states: seq<Loaded>, rows: seq<Row>, m: nat)
    requires |states| == |rows| + 1 && m <= |rows|
    requires forall i :: 0 <= i < |rows| ==> PairStep(states[i], states[i + 1], rows[i])
    requires Valid(states[0].store.ui.pairs)
    ensures states[m].store.ui.pairs == InternAll(states[0].store.ui.pairs, PairKeysOf(states[m].store.ui, rows[..m]))
  {
    if m > 0 {
      TracePairs(states, rows, m - 1);
      TraceMembers(states, rows, m - 1);
      assert PairStep(states[m - 1], states[m], rows[m - 1]);
      PairsStep(states[0].store.ui.pairs, states[m - 1].store.ui, states[m].store.ui, rows, m);
    }
  }

  /** One step of TracePairs, over the pair indexes alone. */
  lemma PairsStep(r0: Registry<string>, x: PairIndex, y: PairIndex, rows: seq<Row>, m: nat)
    requires Valid(r0) && 0 < m <= |rows| && PairStepUi(x, y, rows[m - 1])
    requires forall i :: 0 <= i < m - 1 ==> rows[i].user in x.users.ids && rows[i].item in x.items.ids
    requires x.pairs == InternAll(r0, PairKeysOf(x, rows[..m - 1]))
    ensures y.pairs == InternAll(r0, PairKeysOf(y, rows[..m]))
  {
    PairKeysStep(x, y, rows, m);
    InternAllStep(r0, PairKeysOf(x, rows[..m - 1]), PairKeysOf(y, rows[..m]), x.pairs, y.pairs);
  }

  /** After m lines, the situation registry is the first one with the m
      lines' situation keys registered in order. */
  lemma {:induction false} TraceSituations(states: seq<Loaded>, rows: seq<Row>, m: nat)
    requires |states| == |rows| + 1 && m <= |rows|
    requires forall i :: 0 <= i < |rows| ==> SituationStep(states[i], states[i + 1], rows[i])
    requires Valid(states[0].store.sit.ctxs)
    ensures states[m].store.sit.ctxs == InternAll(states[0].store.sit.ctxs, SituationKeysOf(rows[..m]))
  {
    if m > 0 {
      TraceSituations(states, rows, m - 1);
      assert SituationStep(states[m - 1], states[m], rows[m - 1]);
      var ks := SituationKeysOf(rows[..m]);
      assert ks[..m - 1] == SituationKeysOf(rows[..m - 1]);
      InternAllLast(states[0].store.sit.ctxs, ks);
    }
  }

  /** LoadRows, line by line: its states form a trace. */
  lemma {:induction false} LoadRowsTrace(ld: Loaded, rows: seq<Row>) returns (states: seq<Loaded>, cells: seq<(nat, nat)>)
    requires LoadedValid(ld) && AllAscending(rows)
    ensures Trace(states, rows, cells) && states[0] == ld && states[|rows|] == LoadRows(ld, rows)
  {
    if |rows| == 0 {
      states, cells := [ld], [];
    } else {
      var n := |rows| - 1;
      var prev, cell := LoadRowsStep(ld, rows);
      var s', c' := LoadRowsTrace(ld, rows[..n]);
      states, cells := TraceSnoc(s', rows, c', LoadRows(ld, rows), cell);
    }
  }

  /** The last step of LoadRows is a step of the trace. */
  lemma LoadRowsStep(ld: Loaded, rows: seq<Row>) returns (prev: Loaded, cell: (nat, nat))
    requires LoadedValid(ld) && AllAscending(rows) && |rows| > 0
    ensures AllAscending(rows[..|rows| - 1])
    ensures prev == LoadRows(ld, rows[..|rows| - 1])
    ensures Step(prev, LoadRows(ld, rows), rows[|rows| - 1], cell)
  {
    var n := |rows| - 1;
    PrefixAscending(rows, n);
    prev := LoadRows(ld, rows[..n]);
    var (_, p, c) := LoadRow(prev, rows[n]);
    LoadRowEffect(prev, rows[n]);
    LoadRowCell(prev, rows[n]);
    cell := (p, c);
  }

  /** Stored cells after the last line, read back through the final
      store's registries. */
  lemma ReadBackStored(first: Loaded, last: Loaded, rows: seq<Row>, cells: seq<(nat, nat)>)
    requires |cells| == |rows|
    requires forall i :: 0 <= i < |rows| ==> CellOf(last.store, rows[i]) == Some(cells[i])
    requires forall p: nat, c: nat :: Has(last.matrix, p, c) <==>
      Has(first.matrix, p, c) || exists i :: 0 <= i < |rows| && cells[i] == (p, c)
    ensures forall p: nat, c: nat :: Has(last.matrix, p, c) <==>
      Has(first.matrix, p, c) || exists k :: 0 <= k < |rows| && CellOf(last.store, rows[k]) == Some((p, c))
  {
    forall p: nat, c: nat
      ensures Has(last.matrix, p, c) <==>
        Has(first.matrix, p, c) || exists k :: 0 <= k < |rows| && CellOf(last.store, rows[k]) == Some((p, c))
    {
      if exists i :: 0 <= i < |rows| && cells[i] == (p, c) {
        var i :| 0 <= i < |rows| && cells[i] == (p, c);
        assert CellOf(last.store, rows[i]) == Some((p, c));
      }
    }
  }

  /** Untouched cells after the last line, read back through the final
      store's registries. */
  lemma ReadBackUntouched(first: Loaded, last: Loaded, rows: seq<Row>, cells: seq<(nat, nat)>)
    requires |cells| == |rows|
    requires forall i :: 0 <= i < |rows| ==> CellOf(last.store, rows[i]) == Some(cells[i])
    requires forall p: nat, c: nat :: (forall i :: 0 <= i < |rows| ==> cells[i] != (p, c)) ==>
      Get(last.matrix, p, c) == Get(first.matrix, p, c)
    ensures forall p: nat, c: nat :: (forall k :: 0 <= k < |rows| ==> CellOf(last.store, rows[k]) != Some((p, c))) ==>
      Get(last.matrix, p, c) == Get(first.matrix, p, c)
  {
  }

  /** The last line wins, read back through the final store's registries:
      a later line in the same cell would be about the same user, item and
      situation. */
  lemma ReadBackLastWins(last: Loaded, rows: seq<Row>, cells: seq<(nat, nat)>)
    requires StoreValid(last.store) && |cells| == |rows|
    requires forall i :: 0 <= i < |rows| ==> CellOf(last.store, rows[i]) == Some(cells[i])
    requires forall i :: 0 <= i < |rows| && (forall i2 :: i < i2 < |rows| ==> cells[i2] != cells[i]) ==>
      Get(last.matrix, cells[i].0, cells[i].1) == rows[i].rate
    ensures forall k :: 0 <= k < |rows| && LastFor(rows, k) ==>
      CellOf(last.store, rows[k]).Some?
      && Get(last.matrix, CellOf(last.store, rows[k]).value.0, CellOf(last.store, rows[k]).value.1) == rows[k].rate
  {
    forall k | 0 <= k < |rows| && LastFor(rows, k)
      ensures Get(last.matrix, cells[k].0, cells[k].1) == rows[k].rate
    {
      LastCellDistinct(last.store, rows, cells, k);
    }
  }

  /** No later line lands in the cell of a line that is last for its cell. */
  lemma LastCellDistinct(st: Store, rows: seq<Row>, cells: seq<(nat, nat)>, k: nat)
    requires StoreValid(st) && |cells| == |rows| && k < |rows| && LastFor(rows, k)
    requires forall i :: 0 <= i < |rows| ==> CellOf(st, rows[i]) == Some(cells[i])
    ensures forall i2 :: k < i2 < |rows| ==> cells[i2] != cells[k]
  {
    forall i2 | k < i2 < |rows|
      ensures cells[i2] != cells[k]
    {
      if cells[i2] == cells[k] {
        CellOfInjective(st, rows[i2], rows[k]);
      }
    }
  }

  /** Loading gives every line a cell. */
  lemma LoadRowsCells(ld: Loaded, rows: seq<Row>)
    requires LoadedValid(ld) && AllAscending(rows)
    ensures forall k :: 0 <= k < |rows| ==> CellOf(LoadRows(ld, rows).store, rows[k]).Some?
  {
    var states, cells := LoadRowsTrace(ld, rows);
    TraceParts(states, rows, cells);
    TraceCells(states, rows, cells, |rows|);
  }

  /** After loading, a cell is stored exactly when it was stored before or
      some line lands in it. */
  lemma LoadRowsStored(ld: Loaded, rows: seq<Row>)
    requires LoadedValid(ld) && AllAscending(rows)
    ensures forall p: nat, c: nat :: Has(LoadRows(ld, rows).matrix, p, c) <==>
      Has(ld.matrix, p, c) || exists k :: 0 <= k < |rows| && CellOf(LoadRows(ld, rows).store, rows[k]) == Some((p, c))
  {
    var states, cells := LoadRowsTrace(ld, rows);
    TraceParts(states, rows, cells);
    TraceCells(states, rows, cells, |rows|);
    TraceKeys(states, rows, cells, |rows|);
    ReadBackStored(ld, states[|rows|], rows, cells);
  }

  /** After loading, a cell that no line lands in keeps its value. */
  lemma LoadRowsUntouched(ld: Loaded, rows: seq<Row>)
    requires LoadedValid(ld) && AllAscending(rows)
    ensures forall p: nat, c: nat :: (forall k :: 0 <= k < |rows| ==> CellOf(LoadRows(ld, rows).store, rows[k]) != Some((p, c))) ==>
      Get(LoadRows(ld, rows).matrix, p, c) == Get(ld.matrix, p, c)
  {
    var states, cells := LoadRowsTrace(ld, rows);
    TraceParts(states, rows, cells);
    TraceCells(states, rows, cells, |rows|);
    TraceUntouched(states, rows, cells, |rows|);
    ReadBackUntouched(ld, states[|rows|], rows, cells);
  }

  /** After loading, the cell of a line holds its rating unless a later line
      is about the same user, item and situation: the last line wins. */
  lemma LoadRowsLastWins(ld: Loaded, rows: seq<Row>)
    requires LoadedValid(ld) && AllAscending(rows)
    ensures forall k :: 0 <= k < |rows| && LastFor(rows, k) ==>
      CellOf(LoadRows(ld, rows).store, rows[k]).Some?
      && Get(LoadRows(ld, rows).matrix, CellOf(LoadRows(ld, rows).store, rows[k]).value.0,
             CellOf(LoadRows(ld, rows).store, rows[k]).value.1) == rows[k].rate
  {
    var states, cells := LoadRowsTrace(ld, rows);
    TraceParts(states, rows, cells);
    TraceCells(states, rows, cells, |rows|);
    TraceLast(states, rows, cells, |rows|);
    ReadBackLastWins(states[|rows|], rows, cells);
  }

  /** uiIds and ctxIds after reading: the given registries with the
      lines' pair keys (situation keys) registered in order of first
      appearance. */
  lemma LoadRowsKeys(ld: Loaded, rows: seq<Row>)
    requires LoadedValid(ld) && AllAscending(rows)
    ensures var r := LoadRows(ld, rows);
      (forall k :: 0 <= k < |rows| ==> rows[k].user in r.store.ui.users.ids && rows[k].item in r.store.ui.items.ids)
      && r.store.ui.pairs == InternAll(ld.store.ui.pairs, PairKeysOf(r.store.ui, rows))
      && r.store.sit.ctxs == InternAll(ld.store.sit.ctxs, SituationKeysOf(rows))
  {
    var states, cells := LoadRowsTrace(ld, rows);
    TraceParts(states, rows, cells);
    TraceMembers(states, rows, |rows|);
    TracePairs(states, rows, |rows|);
    TraceSituations(states, rows, |rows|);
    assert rows[..|rows|] == rows;
  }

  /** readData: the header columns from the fourth on, then the data lines,
      read into a store that may already hold the registries of a training
      set (the test set shares them). A header column without a dimension,
      an offset bound to another name, or a condition field that is not an
      integer fails the read. */
  function ReadData(s: Store, columns: seq<string>, lines: seq<Line>): (r: Result<Loaded>)
    requires StoreValid(s)
    ensures r.Ok? <==> ReadHeader(s.cond, ParseColumns(columns)).Ok? && ParseLines(lines).Ok?
    ensures r.Ok? ==> LoadedValid(r.value)
  {
    match ReadHeader(s.cond, ParseColumns(columns))
    case Err(e) => Err(e)
    case Ok(cond') =>
      match ParseLines(lines)
      case Err(e) => Err(e)
      case Ok(rows) =>
        var ld := Loaded(s.(cond := cond'), [], [], EmptyConditions(ParseColumns(columns)));
        LoadAfterHeader(s, columns, cond', rows);
        Ok(LoadRows(ld, rows))
  }

  /** A successful read counts every line in scaleDist, records the
      header's empty conditions, and registers the lines' users and items
      and the header's dimensions in order after those already known. */
  lemma ReadDataMeaning(s: Store, columns: seq<string>, lines: seq<Line>)
    requires StoreValid(s)
    ensures var r := ReadData(s, columns, lines);
      r.Ok? ==>
        && |r.value.rates| == |lines|
        && r.value.emptyConds == EmptyConditions(ParseColumns(columns))
        && r.value.store.ui.users == InternAll(s.ui.users, UsersOf(ParseLines(lines).value))
        && r.value.store.ui.items == InternAll(s.ui.items, ItemsOf(ParseLines(lines).value))
        && r.value.store.cond.dims == InternAll(s.cond.dims, DimensionsOf(ParseColumns(columns)))
  {
    if ReadData(s, columns, lines).Ok? {
      var cond' := ReadHeader(s.cond, ParseColumns(columns)).value;
      LoadAfterHeader(s, columns, cond', ParseLines(lines).value);
    }
  }

  /** The lines loaded into a store whose header was just read. */
  lemma LoadAfterHeader(s: Store, columns: seq<string>, cond': ConditionIndex, rows: seq<Row>)
    requires StoreValid(s) && ReadHeader(s.cond, ParseColumns(columns)) == Ok(cond') && AllAscending(rows)
    ensures LoadedValid(Loaded(s.(cond := cond'), [], [], EmptyConditions(ParseColumns(columns))))
    ensures var r := LoadRows(Loaded(s.(cond := cond'), [], [], EmptyConditions(ParseColumns(columns))), rows);
      && |r.rates| == |rows|
      && r.emptyConds == EmptyConditions(ParseColumns(columns))
      && r.store.ui.users == InternAll(s.ui.users, UsersOf(rows))
      && r.store.ui.items == InternAll(s.ui.items, ItemsOf(rows))
      && r.store.cond.dims == InternAll(s.cond.dims, DimensionsOf(ParseColumns(columns)))
  {
    var ld := Loaded(s.(cond := cond'), [], [], EmptyConditions(ParseColumns(columns)));
    ReadHeaderIndexes(s.cond, ParseColumns(columns));
    LoadRowsCounts(ld, rows);
    LoadRowsRegistries(ld, rows);
  }

  /** A successful read is LoadRows from an empty matrix over the given
      pair and situation registries. */
  lemma ReadDataLoads(s: Store, columns: seq<string>, lines: seq<Line>) returns (ld: Loaded)
    requires StoreValid(s) && ReadData(s, columns, lines).Ok?
    ensures LoadedValid(ld) && AllAscending(ParseLines(lines).value)
    ensures ld.matrix == [] && ld.store.ui == s.ui && ld.store.sit == s.sit
    ensures ReadData(s, columns, lines).value == LoadRows(ld, ParseLines(lines).value)
  {
    var cond' := ReadHeader(s.cond, ParseColumns(columns)).value;
    var rows := ParseLines(lines).value;
    ld := Loaded(s.(cond := cond'), [], [], EmptyConditions(ParseColumns(columns)));
    ReadHeaderIndexes(s.cond, ParseColumns(columns));
  }

  /** What a successful read holds: every line has a (pair, situation)
      cell, and a cell is stored exactly when some line lands in it. */
  lemma ReadDataContents(s: Store, columns: seq<string>, lines: seq<Line>)
    requires StoreValid(s)
    ensures var r := ReadData(s, columns, lines);
      r.Ok? ==>
        var rows := ParseLines(lines).value;
        && (forall k :: 0 <= k < |rows| ==> CellOf(r.value.store, rows[k]).Some?)
        && (forall p: nat, c: nat :: Has(r.value.matrix, p, c) <==>
              exists k :: 0 <= k < |rows| && CellOf(r.value.store, rows[k]) == Some((p, c)))
  {
    if ReadData(s, columns, lines).Ok? {
      var ld := ReadDataLoads(s, columns, lines);
      var rows := ParseLines(lines).value;
      assert Keys(ld.matrix) == {};
      LoadRowsCells(ld, rows);
      LoadRowsStored(ld, rows);
    }
  }

  /** After a successful read, the cell of a line holds the rating of the
      last line about the same user, item and situation. */
  lemma ReadDataLastWins(s: Store, columns: seq<string>, lines: seq<Line>)
    requires StoreValid(s)
    ensures var r := ReadData(s, columns, lines);
      r.Ok? ==>
        var rows := ParseLines(lines).value;
        forall k :: 0 <= k < |rows| && LastFor(rows, k) ==>
          CellOf(r.value.store, rows[k]).Some?
          && Get(r.value.matrix, CellOf(r.value.store, rows[k]).value.0, CellOf(r.value.store, rows[k]).value.1) == rows[k].rate
  {
    if ReadData(s, columns, lines).Ok? {
      var ld := ReadDataLoads(s, columns, lines);
      LoadRowsLastWins(ld, ParseLines(lines).value);
    }
  }

  /** uiIds and ctxIds after a successful read: the given registries with
      the lines' pair keys (situation keys) registered in order of first
      appearance. */
  lemma ReadDataKeys(s: Store, columns: seq<string>, lines: seq<Line>)
    requires StoreValid(s)
    ensures var r := ReadData(s, columns, lines);
      r.Ok? ==>
        var rows := ParseLines(lines).value;
        && (forall k :: 0 <= k < |rows| ==> rows[k].user in r.value.store.ui.users.ids && rows[k].item in r.value.store.ui.items.ids)
        && r.value.store.ui.pairs == InternAll(s.ui.pairs, PairKeysOf(r.value.store.ui, rows))
        && r.value.store.sit.ctxs == InternAll(s.sit.ctxs, SituationKeysOf(rows))
  {
    if ReadData(s, columns, lines).Ok? {
      var ld := ReadDataLoads(s, columns, lines);
      LoadRowsKeys(ld, ParseLines(lines).value);
    }
  }

  /** numRatings counts every line read, while a cell read twice is stored
      once: two lines with the same user, item and situation leave one cell,
      holding the later rating. */
  lemma DuplicateLineOverwrites(ld: Loaded, a: Row, b: Row)
    requires LoadedValid(ld) && StrictlyAscending(a.conds)
    requires a.user == b.user && a.item == b.item && a.conds == b.conds
    ensures var (ld1, p, c) := LoadRow(ld, a);
            var (ld2, p2, c2) := LoadRow(ld1, b);
            p2 == p && c2 == c && Get(ld2.matrix, p, c) == b.rate
            && |ld2.matrix| == |ld1.matrix| && |ld2.rates| == |ld.rates| + 2
  {
    var (ld1, p, c) := LoadRow(ld, a);
    LoadRowEffect(ld, a);
    LoadRowEffect(ld1, b);
    var e := KeyEntry(ld1.matrix, p, c);
    KeysMember(ld1.matrix, e);
  }
}
