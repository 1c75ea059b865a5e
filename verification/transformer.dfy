/** The format converter that rewrites loose rating files (one line per
    "user,item,rating,dimension,condition") and compact ones (one column per
    dimension) into the binary format the loader reads: a header
    "User, Item, Rating, dim:cond, ..." and one 0/1 indicator per header
    column on every rating line. Input files are given as their lines; the
    file system, the logging and the order in which HashMap entries are
    written are left to the caller. */
module DataTransformer {
  import opened Wrappers
  import opened Text

  // ---------------------------------------------------------------------
  // String order (String.compareTo), which orders a TreeMultimap
  // ---------------------------------------------------------------------

  /** Lexicographic order on character codes; a proper prefix comes first. */
  predicate StrLess(a: string, b: string) {
    if |a| == 0 then |b| > 0
    else if |b| == 0 then false
    else if a[0] != b[0] then a[0] < b[0]
    else StrLess(a[1..], b[1..])
  }

  lemma {:induction false} StrLessIrreflexive(a: string)
    ensures !StrLess(a, a)
  {
    if |a| > 0 {
      StrLessIrreflexive(a[1..]);
    }
  }

  lemma {:induction false} StrLessTransitive(a: string, b: string, c: string)
    requires StrLess(a, b) && StrLess(b, c)
    ensures StrLess(a, c)
  {
    if |a| > 0 && |b| > 0 && |c| > 0 && a[0] == b[0] && b[0] == c[0] {
      StrLessTransitive(a[1..], b[1..], c[1..]);
    }
  }

  lemma {:induction false} StrLessTotal(a: string, b: string)
    requires a != b
    ensures StrLess(a, b) || StrLess(b, a)
  {
    if |a| > 0 && |b| > 0 && a[0] == b[0] {
      assert a == [a[0]] + a[1..] && b == [b[0]] + b[1..];
      StrLessTotal(a[1..], b[1..]);
    }
  }

  /** Strictly increasing in string order. */
  predicate Ascending(s: seq<string>) {
    forall i, j :: 0 <= i < j < |s| ==> StrLess(s[i], s[j])
  }

  predicate Distinct<T(==)>(s: seq<T>) {
    forall i, j :: 0 <= i < j < |s| ==> s[i] != s[j]
  }

  /** Membership in a sequence, split at its last element. */
  lemma InLast<T>(s: seq<T>, x: T)
    requires |s| > 0
    ensures x in s <==> x in s[..|s| - 1] || x == s[|s| - 1]
  {
    assert s == s[..|s| - 1] + [s[|s| - 1]];
  }

  lemma LastSplit<T>(s: seq<T>)
    requires |s| > 0
    ensures s == s[..|s| - 1] + [s[|s| - 1]]
  {
  }

  lemma AscendingDistinct(s: seq<string>)
    requires Ascending(s)
    ensures Distinct(s)
  {
    forall i, j | 0 <= i < j < |s|
      ensures s[i] != s[j]
    {
      StrLessIrreflexive(s[i]);
    }
  }

  // ---------------------------------------------------------------------
  // The dimension -> condition multimap
  // ---------------------------------------------------------------------

  /** A key of the multimap with its values, in iteration order. */
  datatype Entry = Entry(dim: string, conds: seq<string>)

  /** Guava multimap with set semantics, as its entries in iteration order. */
  type Multimap = seq<Entry>

  /** TreeMultimap iterates keys and values in string order;
      LinkedHashMultimap in the order they were first put. */
  datatype Kind = Tree | Linked

  function Dims(mm: Multimap): (ds: seq<string>)
    ensures |ds| == |mm| && forall i :: 0 <= i < |mm| ==> ds[i] == mm[i].dim
  {
    seq(|mm|, i requires 0 <= i < |mm| => mm[i].dim)
  }

  /** No entry twice, and sorted for a TreeMultimap. */
  predicate Ordered(kind: Kind, s: seq<string>) {
    Distinct(s) && (kind == Tree ==> Ascending(s))
  }

  /** No key twice, no value twice under a key, no key without values; a
      TreeMultimap is in addition sorted. */
  predicate Fits(kind: Kind, mm: Multimap) {
    Ordered(kind, Dims(mm))
    && forall i :: 0 <= i < |mm| ==> |mm[i].conds| > 0 && Ordered(kind, mm[i].conds)
  }

  /** Whether x may lead s: x is new and, in a TreeMultimap, below s. */
  predicate Leads(kind: Kind, x: string, s: seq<string>) {
    x !in s && (kind == Tree ==> forall j :: 0 <= j < |s| ==> StrLess(x, s[j]))
  }

  lemma OrderedConsIntro(kind: Kind, x: string, s: seq<string>)
    requires Ordered(kind, s) && Leads(kind, x, s)
    ensures Ordered(kind, [x] + s)
  {
    var t := [x] + s;
    forall i, j | 0 <= i < j < |t|
      ensures t[i] != t[j] && (kind == Tree ==> StrLess(t[i], t[j]))
    {
      assert t[j] == s[j - 1];
      if i > 0 {
        assert t[i] == s[i - 1];
      }
    }
  }

  lemma OrderedConsElim(kind: Kind, x: string, s: seq<string>)
    requires Ordered(kind, [x] + s)
    ensures Ordered(kind, s) && Leads(kind, x, s)
  {
    var t := [x] + s;
    assert x == t[0];
    forall j | 0 <= j < |s|
      ensures x != s[j] && (kind == Tree ==> StrLess(x, s[j]))
    {
      assert s[j] == t[j + 1];
    }
    forall i, j | 0 <= i < j < |s|
      ensures s[i] != s[j] && (kind == Tree ==> StrLess(s[i], s[j]))
    {
      assert s[i] == t[i + 1] && s[j] == t[j + 1];
    }
  }

  lemma OrderedCons(kind: Kind, x: string, s: seq<string>)
    ensures Ordered(kind, [x] + s) <==>
      Ordered(kind, s) && x !in s && (kind == Tree ==> forall j :: 0 <= j < |s| ==> StrLess(x, s[j]))
  {
    if Ordered(kind, s) && Leads(kind, x, s) {
      OrderedConsIntro(kind, x, s);
    }
    if Ordered(kind, [x] + s) {
      OrderedConsElim(kind, x, s);
    }
  }

  lemma DimsCons(e: Entry, mm: Multimap)
    ensures Dims([e] + mm) == [e.dim] + Dims(mm)
  {
  }

  /** Multimap.get: the values of a key, empty when the key is absent. */
  function Get(mm: Multimap, d: string): (vs: seq<string>)
    ensures d !in Dims(mm) ==> vs == []
  {
    if |mm| == 0 then []
    else if mm[0].dim == d then mm[0].conds
    else Get(mm[1..], d)
  }

  lemma {:induction false} GetAt(mm: Multimap, i: int)
    requires Distinct(Dims(mm)) && 0 <= i < |mm|
    ensures Get(mm, mm[i].dim) == mm[i].conds
  {
    if i > 0 {
      assert Dims(mm[1..]) == Dims(mm)[1..];
      GetAt(mm[1..], i - 1);
    }
  }

  /** Adding a value to the values of one key (Multimap.put when the key is
      present): a value already there is not added again. */
  function InsertValue(kind: Kind, vs: seq<string>, v: string): seq<string> {
    if v in vs then vs
    else if kind == Linked then vs + [v]
    else InsertSorted(vs, v)
  }

  function InsertSorted(vs: seq<string>, v: string): (r: seq<string>)
    ensures |r| == |vs| + 1
    ensures forall x :: x in r <==> x in vs || x == v
  {
    if |vs| == 0 then [v]
    else if StrLess(v, vs[0]) then [v] + vs
    else [vs[0]] + InsertSorted(vs[1..], v)
  }

  lemma {:induction false} InsertSortedAscending(vs: seq<string>, v: string)
    requires Ascending(vs) && v !in vs
    ensures Ascending(InsertSorted(vs, v))
  {
    if |vs| > 0 {
      if StrLess(v, vs[0]) {
        forall j | 0 < j < |vs|
          ensures StrLess(v, vs[j])
        {
          StrLessTransitive(v, vs[0], vs[j]);
        }
      } else {
        InsertSortedAscending(vs[1..], v);
        StrLessTotal(v, vs[0]);
        var r := InsertSorted(vs, v);
        forall j | 0 < j < |r|
          ensures StrLess(vs[0], r[j])
        {
          assert r[j] in vs[1..] || r[j] == v;
        }
      }
    }
  }

  /** Adding a value keeps the values a valid list holding exactly the old
      values and the new one; a linked list only grows at its end. */
  lemma InsertValueFits(kind: Kind, vs: seq<string>, v: string)
    requires Distinct(vs) && (kind == Tree ==> Ascending(vs))
    ensures var r := InsertValue(kind, vs, v);
      Distinct(r) && (kind == Tree ==> Ascending(r))
      && (forall x :: x in r <==> x in vs || x == v)
      && (kind == Linked ==> vs <= r)
      && |r| > 0
  {
    var r := InsertValue(kind, vs, v);
    if v !in vs && kind == Tree {
      InsertSortedAscending(vs, v);
      AscendingDistinct(r);
    }
  }

  lemma InsertValueHas(kind: Kind, vs: seq<string>, v: string, x: string)
    ensures x in InsertValue(kind, vs, v) <==> x in vs || x == v
  {
  }

  /** Multimap.put. */
  function Put(kind: Kind, mm: Multimap, d: string, c: string): Multimap {
    if |mm| == 0 then [Entry(d, [c])]
    else if mm[0].dim == d then [Entry(d, InsertValue(kind, mm[0].conds, c))] + mm[1..]
    else if kind == Tree && StrLess(d, mm[0].dim) then [Entry(d, [c])] + mm
    else [mm[0]] + Put(kind, mm[1..], d, c)
  }

  lemma FitsTail(kind: Kind, mm: Multimap)
    requires Fits(kind, mm) && |mm| > 0
    ensures Fits(kind, mm[1..])
    ensures mm[0].dim !in Dims(mm[1..])
    ensures kind == Tree ==> forall j :: 1 <= j < |mm| ==> StrLess(mm[0].dim, mm[j].dim)
  {
    assert mm == [mm[0]] + mm[1..];
    DimsCons(mm[0], mm[1..]);
    OrderedCons(kind, mm[0].dim, Dims(mm[1..]));
  }

  /** A key smaller than the first key of a TreeMultimap is absent from it
      and smaller than all its keys. */
  lemma BelowFirst(mm: Multimap, d: string)
    requires Fits(Tree, mm) && |mm| > 0 && StrLess(d, mm[0].dim)
    ensures d !in Dims(mm)
    ensures forall j :: 0 <= j < |mm| ==> StrLess(d, mm[j].dim)
  {
    FitsTail(Tree, mm);
    forall j | 0 <= j < |mm|
      ensures StrLess(d, mm[j].dim)
    {
      if j > 0 {
        StrLessTransitive(d, mm[0].dim, mm[j].dim);
      }
    }
    StrLessIrreflexive(d);
  }

  /** Put keeps the multimap valid. */
  lemma {:induction false} PutFits(kind: Kind, mm: Multimap, d: string, c: string)
    requires Fits(kind, mm)
    ensures Fits(kind, Put(kind, mm, d, c))
    ensures forall e :: e in Dims(Put(kind, mm, d, c)) <==> e in Dims(mm) || e == d
  {
    var r := Put(kind, mm, d, c);
    if |mm| == 0 {
    } else if mm[0].dim == d {
      InsertValueFits(kind, mm[0].conds, c);
      assert Dims(r) == Dims(mm);
    } else if kind == Tree && StrLess(d, mm[0].dim) {
      BelowFirst(mm, d);
      DimsCons(Entry(d, [c]), mm);
      OrderedCons(kind, d, Dims(mm));
    } else {
      FitsTail(kind, mm);
      var rest := Put(kind, mm[1..], d, c);
      PutFits(kind, mm[1..], d, c);
      PutFitsStep(kind, mm, d, rest);
    }
  }

  /** The last case of PutFits: the first entry stays in front of a valid
      rest that gained the key d. */
  lemma PutFitsStep(kind: Kind, mm: Multimap, d: string, rest: Multimap)
    requires Fits(kind, mm) && |mm| > 0 && mm[0].dim != d && !(kind == Tree && StrLess(d, mm[0].dim))
    requires Fits(kind, rest)
    requires forall e :: e in Dims(rest) <==> e in Dims(mm[1..]) || e == d
    ensures Fits(kind, [mm[0]] + rest)
    ensures forall e :: e in Dims([mm[0]] + rest) <==> e in Dims(mm) || e == d
  {
    FitsTail(kind, mm);
    DimsCons(mm[0], rest);
    DimsCons(mm[0], mm[1..]);
    assert mm == [mm[0]] + mm[1..];
    assert mm[0].dim !in Dims(rest);
    if kind == Tree {
      StrLessTotal(d, mm[0].dim);
      forall j | 0 <= j < |rest|
        ensures StrLess(mm[0].dim, rest[j].dim)
      {
        assert rest[j].dim in Dims(rest);
      }
    }
    OrderedCons(kind, mm[0].dim, Dims(rest));
  }

  /** Put adds the value under its key and leaves every other key alone. */
  lemma {:induction false} PutGet(kind: Kind, mm: Multimap, d: string, c: string, e: string)
    requires Fits(kind, mm)
    ensures Get(Put(kind, mm, d, c), e) == if e == d then InsertValue(kind, Get(mm, d), c) else Get(mm, e)
  {
    if |mm| > 0 && mm[0].dim != d && !(kind == Tree && StrLess(d, mm[0].dim)) {
      FitsTail(kind, mm);
      PutGet(kind, mm[1..], d, c, e);
    } else if |mm| > 0 && mm[0].dim != d && e == d {
      BelowFirst(mm, d);
    }
  }

  /** A LinkedHashMultimap keeps its old keys in front. */
  lemma {:induction false} PutLinkedKeepsOrder(mm: Multimap, d: string, c: string)
    ensures Dims(mm) <= Dims(Put(Linked, mm, d, c))
  {
    if |mm| > 0 && mm[0].dim != d {
      PutLinkedKeepsOrder(mm[1..], d, c);
      assert Dims(Put(Linked, mm, d, c)) == [mm[0].dim] + Dims(Put(Linked, mm[1..], d, c));
      assert Dims(mm) == [mm[0].dim] + Dims(mm[1..]);
    } else if |mm| > 0 {
      assert Dims(Put(Linked, mm, d, c)) == Dims(mm);
    }
  }

  /** Putting a sequence of (dimension, condition) pairs in order. */
  function PutAll(kind: Kind, mm: Multimap, ps: seq<(string, string)>): Multimap {
    if |ps| == 0 then mm
    else Put(kind, PutAll(kind, mm, ps[..|ps| - 1]), ps[|ps| - 1].0, ps[|ps| - 1].1)
  }

  /** After putting the pairs, a key has a value iff it had it before or the
      pair was put. */
  lemma {:induction false} PutAllMembers(kind: Kind, mm: Multimap, ps: seq<(string, string)>, e: string, x: string)
    requires Fits(kind, mm)
    ensures Fits(kind, PutAll(kind, mm, ps))
    ensures x in Get(PutAll(kind, mm, ps), e) <==> x in Get(mm, e) || (e, x) in ps
  {
    if |ps| > 0 {
      var ps' := ps[..|ps| - 1];
      var p := ps[|ps| - 1];
      PutAllMembers(kind, mm, ps', e, x);
      var acc := PutAll(kind, mm, ps');
      PutFits(kind, acc, p.0, p.1);
      PutGet(kind, acc, p.0, p.1, e);
      InsertValueHas(kind, Get(acc, p.0), p.1, x);
      InLast(ps, (e, x));
    }
  }

  /** Whether some pair is put under key e. */
  predicate KeyPut(ps: seq<(string, string)>, e: string) {
    exists i :: 0 <= i < |ps| && ps[i].0 == e
  }

  lemma KeyPutLast(ps: seq<(string, string)>, e: string)
    requires |ps| > 0
    ensures KeyPut(ps, e) <==> KeyPut(ps[..|ps| - 1], e) || ps[|ps| - 1].0 == e
  {
    var ps' := ps[..|ps| - 1];
    if KeyPut(ps, e) && ps[|ps| - 1].0 != e {
      var i :| 0 <= i < |ps| && ps[i].0 == e;
      assert ps'[i].0 == e;
    }
    if KeyPut(ps', e) {
      var i :| 0 <= i < |ps'| && ps'[i].0 == e;
      assert ps[i].0 == e;
    }
  }

  /** After putting the pairs, the keys are the old ones and those put. */
  lemma {:induction false} PutAllDims(kind: Kind, mm: Multimap, ps: seq<(string, string)>, e: string)
    requires Fits(kind, mm)
    ensures e in Dims(PutAll(kind, mm, ps)) <==> e in Dims(mm) || exists i :: 0 <= i < |ps| && ps[i].0 == e
  {
    if |ps| > 0 {
      var ps' := ps[..|ps| - 1];
      PutAllDims(kind, mm, ps', e);
      PutAllMembers(kind, mm, ps', e, e);
      PutFits(kind, PutAll(kind, mm, ps'), ps[|ps| - 1].0, ps[|ps| - 1].1);
      KeyPutLast(ps, e);
      assert KeyPut(ps', e) <==> exists i :: 0 <= i < |ps'| && ps'[i].0 == e;
    }
    assert KeyPut(ps, e) <==> exists i :: 0 <= i < |ps| && ps[i].0 == e;
  }

  lemma {:induction false} PutAllAppend(kind: Kind, mm: Multimap, ps: seq<(string, string)>, qs: seq<(string, string)>)
    ensures PutAll(kind, mm, ps + qs) == PutAll(kind, PutAll(kind, mm, ps), qs)
  {
    if |qs| == 0 {
      assert ps + qs == ps;
    } else {
      PutAllAppend(kind, mm, ps, qs[..|qs| - 1]);
      assert (ps + qs)[..|ps + qs| - 1] == ps + qs[..|qs| - 1];
      assert (ps + qs)[|ps + qs| - 1] == qs[|qs| - 1];
    }
  }

  // ---------------------------------------------------------------------
  // "na" completion
  // ---------------------------------------------------------------------

  /** The loop over the keys that puts "na" under every key lacking it. */
  function AddNA(kind: Kind, mm: Multimap, ds: seq<string>): Multimap {
    if |ds| == 0 then mm
    else
      var acc := AddNA(kind, mm, ds[..|ds| - 1]);
      var d := ds[|ds| - 1];
      if "na" in Get(acc, d) then acc else Put(kind, acc, d, "na")
  }

  function CompleteNA(kind: Kind, mm: Multimap): Multimap {
    AddNA(kind, mm, Dims(mm))
  }

  lemma {:induction false} AddNAMembers(kind: Kind, mm: Multimap, ds: seq<string>, e: string, x: string)
    requires Fits(kind, mm)
    requires forall i :: 0 <= i < |ds| ==> ds[i] in Dims(mm)
    ensures Fits(kind, AddNA(kind, mm, ds))
    ensures e in Dims(AddNA(kind, mm, ds)) <==> e in Dims(mm)
    ensures x in Get(AddNA(kind, mm, ds), e) <==> x in Get(mm, e) || (e in ds && x == "na")
  {
    if |ds| > 0 {
      var ds' := ds[..|ds| - 1];
      var d := ds[|ds| - 1];
      AddNAMembers(kind, mm, ds', e, x);
      var acc := AddNA(kind, mm, ds');
      InLast(ds, e);
      if "na" !in Get(acc, d) {
        PutFits(kind, acc, d, "na");
        PutGet(kind, acc, d, "na", e);
        InsertValueHas(kind, Get(acc, d), "na", x);
      } else {
        AddNAMembers(kind, mm, ds', d, "na");
      }
    }
  }

  /** The completed multimap as a function of one key and one value. */
  lemma CompleteNAAt(kind: Kind, mm: Multimap, e: string, x: string)
    requires Fits(kind, mm)
    ensures e in Dims(CompleteNA(kind, mm)) <==> e in Dims(mm)
    ensures x in Get(CompleteNA(kind, mm), e) <==> x in Get(mm, e) || (e in Dims(mm) && x == "na")
  {
    AddNAMembers(kind, mm, Dims(mm), e, x);
  }

  /** After completion every dimension holds "na"; the keys are the same and
      no other condition is added. */
  lemma CompleteNAMeaning(kind: Kind, mm: Multimap)
    requires Fits(kind, mm)
    ensures Fits(kind, CompleteNA(kind, mm))
    ensures forall e :: e in Dims(CompleteNA(kind, mm)) <==> e in Dims(mm)
    ensures forall e, x :: x in Get(CompleteNA(kind, mm), e) <==> x in Get(mm, e) || (e in Dims(mm) && x == "na")
    ensures forall e :: e in Dims(CompleteNA(kind, mm)) ==> "na" in Get(CompleteNA(kind, mm), e)
  {
    var c := CompleteNA(kind, mm);
    AddNAMembers(kind, mm, Dims(mm), "", "");
    forall e
      ensures e in Dims(c) <==> e in Dims(mm)
    {
      CompleteNAAt(kind, mm, e, "");
    }
    forall e, x
      ensures x in Get(c, e) <==> x in Get(mm, e) || (e in Dims(mm) && x == "na")
    {
      CompleteNAAt(kind, mm, e, x);
    }
    forall e | e in Dims(c)
      ensures "na" in Get(c, e)
    {
      CompleteNAAt(kind, mm, e, "na");
    }
  }

  // ---------------------------------------------------------------------
  // Collecting the conditions of the train and test files (getConditions)
  // ---------------------------------------------------------------------

  /** String.trim followed by toLowerCase: leading blanks are dropped one at
      a time, then trailing blanks, then the rest is lower-cased
      (NormIsLowerTrim). */
  function Norm(s: string): string
    decreases |s|
  {
    if |s| > 0 && IsBlank(s[0]) then Norm(s[1..]) else Lower(TrimEnd(s))
  }

  lemma {:induction false} NormIsLowerTrim(s: string)
    ensures Norm(s) == Lower(Trim(s))
    decreases |s|
  {
    if |s| > 0 && IsBlank(s[0]) {
      NormIsLowerTrim(s[1..]);
    }
  }

  /** A condition cell of a loose or compact line: normalised, and "na"
      when it is empty. */
  function Cell(s: string): (c: string)
    ensures c != ""
    ensures c == "na" <==> Norm(s) == "" || Norm(s) == "na"
    ensures c != "na" ==> c == Norm(s)
  {
    if Norm(s) == "" then "na" else Norm(s)
  }

  /** A rating file: its first line and the lines after it. */
  datatype DataFile = DataFile(header: string, lines: seq<string>)

  type Pair = (string, string)

  /** A binary header column "dim:cond". */
  function ColumnPair(col: string): Result<Pair> {
    var parts := Split(col, ':');
    if |parts| < 2 then Err(IndexOutOfBounds) else Ok((Norm(parts[0]), Norm(parts[1])))
  }

  function ColumnPairs(cols: seq<string>): Result<seq<Pair>> {
    MapAll(cols, ColumnPair)
  }

  /** getConditionsFromBinaryData: the header columns from index 3 on. */
  function BinaryPairs(f: DataFile): Result<seq<Pair>> {
    var cols := Split(f.header, ',');
    if |cols| <= 3 then Ok([]) else ColumnPairs(cols[3..])
  }

  /** A loose line "user,item,rating,dimension,condition", read. */
  datatype LooseRow = LooseRow(key: string, dim: string, cond: string)

  /** The record key of a loose line: its trimmed, lower-cased user, item
      and rating joined by commas. */
  function LooseKey(fs: seq<string>): string
    requires |fs| >= 3
  {
    Norm(fs[0]) + "," + Norm(fs[1]) + "," + Norm(fs[2])
  }

  function ParseLoose(line: string): Result<LooseRow> {
    var fs := Split(line, ',');
    if |fs| < 5 then Err(IndexOutOfBounds) else Ok(LooseRow(LooseKey(fs), Norm(fs[3]), Cell(fs[4])))
  }

  function ParseLooseLines(lines: seq<string>): Result<seq<LooseRow>> {
    MapAll(lines, ParseLoose)
  }

  function RowPairs(rows: seq<LooseRow>): (ps: seq<Pair>)
    ensures |ps| == |rows| && forall t :: 0 <= t < |rows| ==> ps[t] == (rows[t].dim, rows[t].cond)
  {
    seq(|rows|, t requires 0 <= t < |rows| => (rows[t].dim, rows[t].cond))
  }

  /** getConditionsFromLooseData: every line after the header. */
  function LoosePairs(lines: seq<string>): Result<seq<Pair>> {
    var rows :- ParseLooseLines(lines);
    Ok(RowPairs(rows))
  }

  /** The dimension names of a compact header, from index 3 on. */
  function CompactDims(header: string): Result<seq<string>> {
    var cols := Split(header, ',');
    if |cols| < 3 then Err(NegativeArraySize)
    else Ok(seq(|cols| - 3, i requires 0 <= i < |cols| - 3 => Norm(cols[3 + i])))
  }

  /** The (dimension, condition) cells of one compact line. */
  function CompactLinePairs(dims: seq<string>, line: string): (r: Result<seq<Pair>>)
    ensures r.Ok? ==> (|r.value| == |dims|
      && forall i :: 0 <= i < |dims| ==> r.value[i].0 == dims[i] && r.value[i].1 != "")
  {
    var fs := Split(line, ',');
    if |fs| < 3 + |dims| then Err(IndexOutOfBounds)
    else Ok(seq(|dims|, i requires 0 <= i < |dims| => (dims[i], Cell(fs[3 + i]))))
  }

  function CompactPairs(dims: seq<string>, lines: seq<string>): Result<seq<Pair>> {
    if |lines| == 0 then Ok([])
    else
      var init :- CompactPairs(dims, lines[..|lines| - 1]);
      var ps :- CompactLinePairs(dims, lines[|lines| - 1]);
      Ok(init + ps)
  }

  /** The pairs a file contributes, by its format flag (1 binary, 2 loose,
      3 compact; any other flag, such as -1 for "no test file", none). */
  function FilePairs(flag: int, f: DataFile): Result<seq<Pair>> {
    if flag == 1 then BinaryPairs(f)
    else if flag == 2 then LoosePairs(f.lines)
    else if flag == 3 then
      var dims :- CompactDims(f.header);
      CompactPairs(dims, f.lines)
    else Ok([])
  }

  /** getConditions: the pairs of the training file, then those of the test
      file, put into a TreeMultimap, then "na" added to every dimension. */
  function GetConditions(trainFlag: int, train: DataFile, testFlag: int, test: DataFile): Result<Multimap> {
    var p1 :- FilePairs(trainFlag, train);
    var p2 :- FilePairs(testFlag, test);
    Ok(CompleteNA(Tree, PutAll(Tree, PutAll(Tree, [], p1), p2)))
  }

  /** The collected multimap is sorted, every dimension in it holds "na",
      and it holds exactly the pairs read from the two files plus those
      "na" conditions. */
  lemma GetConditionsMeaning(trainFlag: int, train: DataFile, testFlag: int, test: DataFile)
    requires GetConditions(trainFlag, train, testFlag, test).Ok?
    ensures var mm := GetConditions(trainFlag, train, testFlag, test).value;
      var ps := FilePairs(trainFlag, train).value + FilePairs(testFlag, test).value;
      Fits(Tree, mm)
      && (forall e :: e in Dims(mm) ==> "na" in Get(mm, e))
      && (forall e, x :: x in Get(mm, e) <==> (e, x) in ps || (x == "na" && exists i :: 0 <= i < |ps| && ps[i].0 == e))
  {
    var p1 := FilePairs(trainFlag, train).value;
    var p2 := FilePairs(testFlag, test).value;
    var ps := p1 + p2;
    PutAllAppend(Tree, [], p1, p2);
    var raw := PutAll(Tree, [], ps);
    assert Fits(Tree, []);
    PutAllMembers(Tree, [], ps, "", "");
    CompleteNAMeaning(Tree, raw);
    forall e, x
      ensures x in Get(CompleteNA(Tree, raw), e) <==> (e, x) in ps || (x == "na" && exists i :: 0 <= i < |ps| && ps[i].0 == e)
    {
      PutAllMembers(Tree, [], ps, e, x);
      PutAllDims(Tree, [], ps, e);
    }
  }

  // ---------------------------------------------------------------------
  // The header of the output file (getHeader)
  // ---------------------------------------------------------------------

  /** The ", dim:cond" text of one dimension's conditions. */
  function EntryHeader(d: string, cs: seq<string>): string {
    if |cs| == 0 then "" else ", " + d + ":" + cs[0] + EntryHeader(d, cs[1..])
  }

  function HeaderTail(mm: Multimap): string {
    if |mm| == 0 then "" else EntryHeader(mm[0].dim, mm[0].conds) + HeaderTail(mm[1..])
  }

  function Header(mm: Multimap): string {
    "User, Item, Rating" + HeaderTail(mm)
  }

  /** The (dimension, condition) pairs of a multimap in iteration order,
      which is the order of the header columns and of the indicators. */
  function Pairs(mm: Multimap): seq<Pair> {
    if |mm| == 0 then [] else EntryPairs(mm[0]) + Pairs(mm[1..])
  }

  function EntryPairs(e: Entry): (ps: seq<Pair>)
    ensures |ps| == |e.conds| && forall j :: 0 <= j < |ps| ==> ps[j] == (e.dim, e.conds[j])
  {
    seq(|e.conds|, j requires 0 <= j < |e.conds| => (e.dim, e.conds[j]))
  }

  /** The header column of a pair, as split out of the header line. */
  function Column(p: Pair): string {
    " " + p.0 + ":" + p.1
  }

  function Columns(ps: seq<Pair>): (cols: seq<string>)
    ensures |cols| == |ps| && forall k :: 0 <= k < |ps| ==> cols[k] == Column(ps[k])
  {
    seq(|ps|, k requires 0 <= k < |ps| => Column(ps[k]))
  }

  /** Each string preceded by a comma. */
  function Prefixed(cols: seq<string>): string {
    if |cols| == 0 then "" else "," + cols[0] + Prefixed(cols[1..])
  }

  lemma {:induction false} PrefixedAppend(a: seq<string>, b: seq<string>)
    ensures Prefixed(a + b) == Prefixed(a) + Prefixed(b)
  {
    if |a| > 0 {
      PrefixedAppend(a[1..], b);
      assert (a + b)[1..] == a[1..] + b;
    } else {
      assert a + b == b;
    }
  }

  lemma {:induction false} EntryHeaderPrefixed(e: Entry)
    ensures EntryHeader(e.dim, e.conds) == Prefixed(Columns(EntryPairs(e)))
    decreases |e.conds|
  {
    if |e.conds| > 0 {
      var e' := Entry(e.dim, e.conds[1..]);
      EntryHeaderPrefixed(e');
      assert Columns(EntryPairs(e))[1..] == Columns(EntryPairs(e'));
    }
  }

  lemma {:induction false} HeaderTailPrefixed(mm: Multimap)
    ensures HeaderTail(mm) == Prefixed(Columns(Pairs(mm)))
  {
    if |mm| > 0 {
      HeaderTailPrefixed(mm[1..]);
      EntryHeaderPrefixed(mm[0]);
      assert Columns(Pairs(mm)) == Columns(EntryPairs(mm[0])) + Columns(Pairs(mm[1..]));
      PrefixedAppend(Columns(EntryPairs(mm[0])), Columns(Pairs(mm[1..])));
    }
  }

  lemma {:induction false} SplitPrefixed(p: string, cols: seq<string>)
    requires ',' !in p && forall k :: 0 <= k < |cols| ==> ',' !in cols[k]
    ensures Split(p + Prefixed(cols), ',') == [p] + cols
    decreases |cols|
  {
    if |cols| == 0 {
      assert p + Prefixed(cols) == p;
      SplitNoSep(p, ',');
    } else {
      SplitPrefixed(cols[0], cols[1..]);
      assert p + Prefixed(cols) == p + [','] + (cols[0] + Prefixed(cols[1..]));
      SplitAfterField(p, cols[0] + Prefixed(cols[1..]), ',');
      assert [cols[0]] + cols[1..] == cols;
    }
  }

  /** A dimension or condition name as the transformer writes it: free of
      the two separators, with no upper-case letter and no blank at either
      end, so that trimming and lower-casing keep it. */
  predicate Plain(s: string) {
    ',' !in s && ':' !in s
    && (forall i :: 0 <= i < |s| ==> !('A' <= s[i] <= 'Z'))
    && (s == [] || (!IsBlank(s[0]) && !IsBlank(s[|s| - 1])))
  }

  lemma NormPlain(s: string)
    requires Plain(s)
    ensures Norm(s) == s
  {
    NormIsLowerTrim(s);
    TrimNoBlank(s);
  }

  predicate PlainPairs(ps: seq<Pair>) {
    forall k :: 0 <= k < |ps| ==> Plain(ps[k].0) && Plain(ps[k].1)
  }

  predicate CommaFree(ps: seq<Pair>) {
    forall k :: 0 <= k < |ps| ==> ',' !in ps[k].0 && ',' !in ps[k].1
  }

  lemma HeaderPrefixed(mm: Multimap)
    ensures Header(mm) == "User" + Prefixed([" Item", " Rating"] + Columns(Pairs(mm)))
  {
    HeaderTailPrefixed(mm);
    PrefixedAppend([" Item", " Rating"], Columns(Pairs(mm)));
    FixedColumns();
    ConcatAssoc("User", Prefixed([" Item", " Rating"]), Prefixed(Columns(Pairs(mm))));
  }

  /** The three fixed columns of the header, with their separators. */
  lemma FixedColumns()
    ensures "User" + Prefixed([" Item", " Rating"]) == "User, Item, Rating"
  {
    assert [" Item", " Rating"][1..] == [" Rating"];
  }

  lemma ConcatAssoc(a: string, b: string, c: string)
    ensures a + (b + c) == (a + b) + c
  {
  }

  lemma ColumnsCommaFree(ps: seq<Pair>)
    requires CommaFree(ps)
    ensures forall k :: 0 <= k < |ps| + 2 ==> ',' !in ([" Item", " Rating"] + Columns(ps))[k]
  {
    forall k | 0 <= k < |ps| + 2
      ensures ',' !in ([" Item", " Rating"] + Columns(ps))[k]
    {
      if k >= 2 {
        assert ([" Item", " Rating"] + Columns(ps))[k] == " " + ps[k - 2].0 + ":" + ps[k - 2].1;
      }
    }
  }

  /** Splitting the header at commas gives the three fixed columns and then
      one " dim:cond" column per pair, in iteration order. */
  lemma HeaderColumns(mm: Multimap)
    requires CommaFree(Pairs(mm))
    ensures Split(Header(mm), ',') == ["User", " Item", " Rating"] + Columns(Pairs(mm))
  {
    HeaderPrefixed(mm);
    ColumnsCommaFree(Pairs(mm));
    SplitPrefixed("User", [" Item", " Rating"] + Columns(Pairs(mm)));
  }

  lemma TrimLeadingSpace(d: string)
    ensures Trim(" " + d) == Trim(d)
  {
    assert (" " + d)[1..] == d;
  }

  lemma SplitPair(a: string, b: string, sep: char)
    requires sep !in a && sep !in b
    ensures Split(a + [sep] + b, sep) == [a, b]
  {
    SplitAfterField(a, b, sep);
    SplitNoSep(b, sep);
  }

  /** Reading a written column back gives its pair. */
  lemma ColumnRoundTrip(p: Pair)
    requires Plain(p.0) && Plain(p.1)
    ensures ColumnPair(Column(p)) == Ok(p)
  {
    var d := " " + p.0;
    assert Column(p) == d + [':'] + p.1;
    SplitPair(d, p.1, ':');
    TrimLeadingSpace(p.0);
    NormPlain(p.0);
    NormPlain(p.1);
  }

  lemma ColumnPairsRoundTrip(ps: seq<Pair>)
    requires PlainPairs(ps)
    ensures ColumnPairs(Columns(ps)) == Ok(ps)
  {
    var cols := Columns(ps);
    forall k | 0 <= k < |ps|
      ensures ColumnPair(cols[k]) == Ok(ps[k])
    {
      ColumnRoundTrip(ps[k]);
    }
    MapAllAt(cols, ColumnPair);
    var r := ColumnPairs(cols);
    assert r.Ok?;
    assert forall k :: 0 <= k < |ps| ==> r.value[k] == ps[k];
    assert r.value == ps;
  }

  /** Collecting the conditions from the header of a written file gives the
      pairs of the multimap, in order. */
  lemma HeaderRoundTrip(mm: Multimap, lines: seq<string>)
    requires PlainPairs(Pairs(mm))
    ensures BinaryPairs(DataFile(Header(mm), lines)) == Ok(Pairs(mm))
  {
    assert CommaFree(Pairs(mm)) by {
      forall k | 0 <= k < |Pairs(mm)|
        ensures ',' !in Pairs(mm)[k].0 && ',' !in Pairs(mm)[k].1
      {
        assert Plain(Pairs(mm)[k].0) && Plain(Pairs(mm)[k].1);
      }
    }
    HeaderColumns(mm);
    var cols := Split(Header(mm), ',');
    assert cols[3..] == Columns(Pairs(mm));
    ColumnPairsRoundTrip(Pairs(mm));
  }

  // ---------------------------------------------------------------------
  // Reading the conditions back from a written header
  // ---------------------------------------------------------------------

  lemma {:induction false} StrLessAsymmetric(a: string, b: string)
    requires StrLess(a, b)
    ensures !StrLess(b, a)
  {
    if |a| > 0 && |b| > 0 && a[0] == b[0] {
      StrLessAsymmetric(a[1..], b[1..]);
    }
  }

  lemma {:induction false} InsertSortedLast(cs: seq<string>, c: string)
    requires forall j :: 0 <= j < |cs| ==> StrLess(cs[j], c)
    ensures InsertSorted(cs, c) == cs + [c]
  {
    if |cs| > 0 {
      StrLessAsymmetric(cs[0], c);
      InsertSortedLast(cs[1..], c);
      assert [cs[0]] + (cs[1..] + [c]) == cs + [c];
    }
  }

  /** Every key of mm is different from d, and smaller in a TreeMultimap. */
  predicate AllBefore(kind: Kind, mm: Multimap, d: string) {
    d !in Dims(mm) && (kind == Tree ==> forall j :: 0 <= j < |mm| ==> StrLess(mm[j].dim, d))
  }

  /** Putting a key that comes after every present key appends an entry. */
  lemma {:induction false} PutNewLast(kind: Kind, mm: Multimap, d: string, c: string)
    requires AllBefore(kind, mm, d)
    ensures Put(kind, mm, d, c) == mm + [Entry(d, [c])]
  {
    if |mm| > 0 {
      assert mm[0].dim in Dims(mm);
      if kind == Tree {
        StrLessAsymmetric(mm[0].dim, d);
      }
      assert Dims(mm[1..]) == Dims(mm)[1..];
      PutNewLast(kind, mm[1..], d, c);
      assert [mm[0]] + (mm[1..] + [Entry(d, [c])]) == mm + [Entry(d, [c])];
    }
  }

  /** Putting a value that comes after every value of the last key appends
      it to that key's values. */
  lemma {:induction false} PutLastValue(kind: Kind, mm: Multimap, d: string, cs: seq<string>, c: string)
    requires AllBefore(kind, mm, d)
    requires c !in cs && (kind == Tree ==> forall j :: 0 <= j < |cs| ==> StrLess(cs[j], c))
    ensures Put(kind, mm + [Entry(d, cs)], d, c) == mm + [Entry(d, cs + [c])]
  {
    if |mm| == 0 {
      assert mm + [Entry(d, cs)] == [Entry(d, cs)];
      if kind == Tree {
        InsertSortedLast(cs, c);
      }
    } else {
      var all := mm + [Entry(d, cs)];
      assert all[0] == mm[0] && all[1..] == mm[1..] + [Entry(d, cs)];
      assert mm[0].dim in Dims(mm);
      if kind == Tree {
        StrLessAsymmetric(mm[0].dim, d);
      }
      assert Dims(mm[1..]) == Dims(mm)[1..];
      PutLastValue(kind, mm[1..], d, cs, c);
      assert [mm[0]] + (mm[1..] + [Entry(d, cs + [c])]) == mm + [Entry(d, cs + [c])];
    }
  }

  /** The last value of an ordered sequence is new and, in a TreeMultimap,
      above the others, and the rest stays ordered. */
  lemma OrderedInit(kind: Kind, cs: seq<string>)
    requires |cs| > 0 && Ordered(kind, cs)
    ensures Ordered(kind, cs[..|cs| - 1])
    ensures cs[|cs| - 1] !in cs[..|cs| - 1]
    ensures kind == Tree ==> forall j :: 0 <= j < |cs| - 1 ==> StrLess(cs[j], cs[|cs| - 1])
  {
  }

  /** PutAll of a non-empty sequence is a Put of its last pair. */
  lemma PutAllLast(kind: Kind, mm: Multimap, ps: seq<(string, string)>)
    requires |ps| > 0
    ensures PutAll(kind, mm, ps) == Put(kind, PutAll(kind, mm, ps[..|ps| - 1]), ps[|ps| - 1].0, ps[|ps| - 1].1)
  {
  }

  /** Putting one dimension's conditions in order after all present keys
      appends that entry. */
  lemma {:induction false} PutAllEntry(kind: Kind, mm: Multimap, d: string, cs: seq<string>)
    requires AllBefore(kind, mm, d)
    requires |cs| > 0 && Ordered(kind, cs)
    ensures PutAll(kind, mm, EntryPairs(Entry(d, cs))) == mm + [Entry(d, cs)]
  {
    var n := |cs| - 1;
    var ps := EntryPairs(Entry(d, cs));
    assert ps[n] == (d, cs[n]);
    PutAllLast(kind, mm, ps);
    if n == 0 {
      PutNewLast(kind, mm, d, cs[0]);
      assert [cs[0]] == cs;
    } else {
      var cs' := cs[..n];
      assert ps[..n] == EntryPairs(Entry(d, cs'));
      OrderedInit(kind, cs);
      PutAllEntry(kind, mm, d, cs');
      PutLastValue(kind, mm, d, cs', cs[n]);
      assert cs' + [cs[n]] == cs;
    }
  }

  lemma {:induction false} PairsAppend(a: Multimap, b: Multimap)
    ensures Pairs(a + b) == Pairs(a) + Pairs(b)
  {
    if |a| > 0 {
      PairsAppend(a[1..], b);
      assert (a + b)[1..] == a[1..] + b;
    } else {
      assert a + b == b;
    }
  }

  lemma FitsInit(kind: Kind, mm: Multimap)
    requires Fits(kind, mm) && |mm| > 0
    ensures Fits(kind, mm[..|mm| - 1])
    ensures AllBefore(kind, mm[..|mm| - 1], mm[|mm| - 1].dim)
  {
    var n := |mm| - 1;
    assert Dims(mm[..n]) == Dims(mm)[..n];
    assert Dims(mm)[n] == mm[n].dim;
  }

  /** Putting the pairs of a valid multimap, in its iteration order, into an
      empty multimap of the same kind rebuilds it exactly. */
  lemma {:induction false} RebuildFromPairs(kind: Kind, mm: Multimap)
    requires Fits(kind, mm)
    ensures PutAll(kind, [], Pairs(mm)) == mm
  {
    if |mm| > 0 {
      var n := |mm| - 1;
      var init := mm[..n];
      var e := mm[n];
      FitsInit(kind, mm);
      RebuildFromPairs(kind, init);
      assert mm == init + [e];
      PairsAppend(init, [e]);
      assert Pairs([e]) == EntryPairs(e) by {
        assert [e][1..] == [];
      }
      PutAllAppend(kind, [], Pairs(init), EntryPairs(e));
      PutAllEntry(kind, init, e.dim, e.conds);
    }
  }

  lemma {:induction false} AddNAIdle(kind: Kind, mm: Multimap, ds: seq<string>)
    requires forall i :: 0 <= i < |ds| ==> "na" in Get(mm, ds[i])
    ensures AddNA(kind, mm, ds) == mm
  {
    if |ds| > 0 {
      AddNAIdle(kind, mm, ds[..|ds| - 1]);
    }
  }

  /** A binary file written with the header of a sorted multimap whose every
      dimension already holds "na": collecting the conditions of that file
      alone gives the multimap back. */
  lemma ConditionsFromWrittenHeader(mm: Multimap, lines: seq<string>, testFlag: int, test: DataFile)
    requires Fits(Tree, mm) && PlainPairs(Pairs(mm))
    requires forall e :: e in Dims(mm) ==> "na" in Get(mm, e)
    requires FilePairs(testFlag, test) == Ok([])
    ensures GetConditions(1, DataFile(Header(mm), lines), testFlag, test) == Ok(mm)
  {
    HeaderRoundTrip(mm, lines);
    RebuildFromPairs(Tree, mm);
    AddNAIdle(Tree, mm, Dims(mm));
  }

  // ---------------------------------------------------------------------
  // The indicators of one rating record (PublishNewRatingFiles)
  // ---------------------------------------------------------------------

  /** The condition a record holds for a dimension; None (Java null) when
      it has none. */
  function ValueOf(ctx: map<string, string>, d: string): Option<string> {
    if d in ctx then Some(ctx[d]) else None
  }

  /** isNA: the record has no condition for the dimension, or has "na". */
  predicate IsNA(v: Option<string>) {
    v.None? || v.value == "na"
  }

  /** Loose mode, one dimension's columns: on an NA record every "na"
      column is set; otherwise a column equal to the record's condition is
      set unless an earlier one already was. */
  function LooseBits(conds: seq<string>, na: bool, v: string, completed: bool): (bits: seq<bool>)
    ensures |bits| == |conds|
  {
    if |conds| == 0 then []
    else
      var bit := if na then conds[0] == "na" else !completed && conds[0] == v;
      [bit] + LooseBits(conds[1..], na, v, completed || bit)
  }

  /** Non-loose mode, one dimension's columns: String.equals per column. */
  function StrictBits(conds: seq<string>, v: string): (bits: seq<bool>)
    ensures |bits| == |conds|
  {
    if |conds| == 0 then [] else [v == conds[0]] + StrictBits(conds[1..], v)
  }

  /** One dimension's columns. In non-loose mode a record without the
      dimension dereferences null as soon as there is a column. */
  function Block(conds: seq<string>, v: Option<string>, loose: bool): Result<seq<bool>> {
    if loose then Ok(LooseBits(conds, IsNA(v), if v.Some? then v.value else "", false))
    else if v.None? then (if |conds| == 0 then Ok([]) else Err(NullPointer))
    else Ok(StrictBits(conds, v.value))
  }

  /** The indicators of a record, dimension by dimension in iteration order. */
  function EncodeRecord(mm: Multimap, ctx: map<string, string>, loose: bool): Result<seq<bool>> {
    if |mm| == 0 then Ok([])
    else
      var b :- Block(mm[0].conds, ValueOf(ctx, mm[0].dim), loose);
      var rest :- EncodeRecord(mm[1..], ctx, loose);
      Ok(b + rest)
  }

  /** Loose mode sets the "na" columns of an NA dimension, and otherwise
      only the first column equal to the record's condition. */
  lemma {:induction false} LooseBitsMeaning(conds: seq<string>, na: bool, v: string, completed: bool, j: int)
    requires 0 <= j < |conds|
    ensures LooseBits(conds, na, v, completed)[j] <==>
      if na then conds[j] == "na" else !completed && conds[j] == v && v !in conds[..j]
  {
    if j > 0 {
      var bit := if na then conds[0] == "na" else !completed && conds[0] == v;
      LooseBitsMeaning(conds[1..], na, v, completed || bit, j - 1);
      assert conds[..j] == [conds[0]] + conds[1..][..j - 1];
    }
  }

  lemma {:induction false} StrictBitsMeaning(conds: seq<string>, v: string, j: int)
    requires 0 <= j < |conds|
    ensures StrictBits(conds, v)[j] <==> conds[j] == v
  {
    if j > 0 {
      StrictBitsMeaning(conds[1..], v, j - 1);
    }
  }

  /** On a dimension the record has, the two modes give the same columns
      (the values of a multimap key are distinct). */
  lemma LooseAgreesWithStrict(conds: seq<string>, v: string)
    requires Distinct(conds)
    ensures Block(conds, Some(v), true) == Block(conds, Some(v), false)
  {
    var a := LooseBits(conds, v == "na", v, false);
    var b := StrictBits(conds, v);
    forall j | 0 <= j < |conds|
      ensures a[j] == b[j]
    {
      LooseBitsMeaning(conds, v == "na", v, false, j);
      StrictBitsMeaning(conds, v, j);
      if conds[j] == v {
        assert v !in conds[..j];
      }
    }
    assert a == b;
  }

  /** A dimension's column is set iff the record's condition for it is the
      column's condition, or, in loose mode, the record has none for it
      and the column is "na". Loose mode never fails; non-loose mode fails
      exactly on a dimension the record lacks. */
  lemma BlockMeaning(conds: seq<string>, v: Option<string>, loose: bool)
    requires Distinct(conds) && |conds| > 0
    ensures Block(conds, v, loose).Ok? <==> loose || v.Some?
    ensures Block(conds, v, loose).Ok? ==>
      forall j :: 0 <= j < |conds| ==>
        (Block(conds, v, loose).value[j] <==> if v.Some? then conds[j] == v.value else conds[j] == "na")
  {
    if v.Some? {
      LooseAgreesWithStrict(conds, v.value);
      forall j | 0 <= j < |conds|
        ensures StrictBits(conds, v.value)[j] <==> conds[j] == v.value
      {
        StrictBitsMeaning(conds, v.value, j);
      }
    } else if loose {
      forall j | 0 <= j < |conds|
        ensures LooseBits(conds, true, "", false)[j] <==> conds[j] == "na"
      {
        LooseBitsMeaning(conds, true, "", false, j);
      }
    }
  }

  /** A dimension's block holds at most one 1; in loose mode it holds
      exactly one when the dimension has an "na" column and the record's
      condition, if any, is one of the dimension's conditions. */
  lemma BlockOneHot(conds: seq<string>, v: Option<string>, loose: bool)
    requires Distinct(conds) && |conds| > 0
    requires Block(conds, v, loose).Ok?
    ensures var bits := Block(conds, v, loose).value;
      (forall j, k :: 0 <= j < |conds| && 0 <= k < |conds| && bits[j] && bits[k] ==> j == k)
      && ((exists j :: 0 <= j < |conds| && bits[j]) <==> (if v.Some? then v.value in conds else "na" in conds))
  {
    BlockMeaning(conds, v, loose);
    var bits := Block(conds, v, loose).value;
    var w := if v.Some? then v.value else "na";
    if w in conds {
      var j :| 0 <= j < |conds| && conds[j] == w;
      assert bits[j];
    }
  }

  /** The column of the record for a (dimension, condition) pair. */
  predicate ColumnSet(ctx: map<string, string>, p: Pair) {
    if p.0 in ctx then ctx[p.0] == p.1 else p.1 == "na"
  }

  /** The record's indicators line up with the header columns: one per
      pair of the multimap, set iff the record's condition for that
      dimension is that condition (or, in loose mode, the record has none
      and the condition is "na"); non-loose mode fails iff the record
      lacks a dimension of the multimap. */
  lemma {:induction false} EncodeRecordMeaning(kind: Kind, mm: Multimap, ctx: map<string, string>, loose: bool)
    requires Fits(kind, mm)
    ensures EncodeRecord(mm, ctx, loose).Ok? <==> loose || forall i :: 0 <= i < |mm| ==> mm[i].dim in ctx
    ensures EncodeRecord(mm, ctx, loose).Ok? ==>
      |EncodeRecord(mm, ctx, loose).value| == |Pairs(mm)|
      && forall t :: 0 <= t < |Pairs(mm)| ==> (EncodeRecord(mm, ctx, loose).value[t] <==> ColumnSet(ctx, Pairs(mm)[t]))
  {
    if |mm| > 0 {
      FitsTail(kind, mm);
      EncodeRecordMeaning(kind, mm[1..], ctx, loose);
      var v := ValueOf(ctx, mm[0].dim);
      BlockMeaning(mm[0].conds, v, loose);
      if EncodeRecord(mm, ctx, loose).Ok? {
        var b := Block(mm[0].conds, v, loose).value;
        var rest := EncodeRecord(mm[1..], ctx, loose).value;
        var bits := EncodeRecord(mm, ctx, loose).value;
        assert bits == b + rest;
        assert Pairs(mm) == EntryPairs(mm[0]) + Pairs(mm[1..]);
        forall t | 0 <= t < |Pairs(mm)|
          ensures bits[t] <==> ColumnSet(ctx, Pairs(mm)[t])
        {
          if t < |b| {
            assert Pairs(mm)[t] == (mm[0].dim, mm[0].conds[t]);
          } else {
            assert Pairs(mm)[t] == Pairs(mm[1..])[t - |b|];
          }
        }
      }
      if !loose && (forall i :: 0 <= i < |mm| ==> mm[i].dim in ctx) {
        assert forall i :: 0 <= i < |mm[1..]| ==> mm[1..][i].dim in ctx by {
          forall i | 0 <= i < |mm[1..]|
            ensures mm[1..][i].dim in ctx
          {
            assert mm[1..][i] == mm[i + 1];
          }
        }
      }
      if !loose && EncodeRecord(mm, ctx, loose).Ok? {
        forall i | 0 <= i < |mm|
          ensures mm[i].dim in ctx
        {
          if i > 0 {
            assert mm[i] == mm[1..][i - 1];
          }
        }
      }
    }
  }

  // ---------------------------------------------------------------------
  // The written rating line
  // ---------------------------------------------------------------------

  function Indicator(b: bool): string {
    if b then "1" else "0"
  }

  function Indicators(bits: seq<bool>): (ss: seq<string>)
    ensures |ss| == |bits| && forall t :: 0 <= t < |bits| ==> ss[t] == Indicator(bits[t])
  {
    seq(|bits|, t requires 0 <= t < |bits| => Indicator(bits[t]))
  }

  /** The key written in front of the indicators: a key of more than three
      fields (a whole compact or binary line) is cut to its trimmed,
      lower-cased user, item and rating; a loose key is written as is. */
  function OutputKey(key: string): string {
    var sk := Split(key, ',');
    if |sk| > 3 then Norm(sk[0]) + "," + Norm(sk[1]) + "," + Norm(sk[2]) else key
  }

  function OutputLine(key: string, bits: seq<bool>): string {
    OutputKey(key) + "," + Join(Indicators(bits), ',')
  }

  /** Trimming and lower-casing add no comma. */
  lemma NormNoComma(s: string)
    requires ',' !in s
    ensures ',' !in Norm(s)
  {
    NormIsLowerTrim(s);
    TrimChars(s);
  }

  lemma ThreeFields(a: string, b: string, c: string)
    requires ',' !in a && ',' !in b && ',' !in c
    ensures Split(a + "," + b + "," + c, ',') == [a, b, c]
  {
    SplitPair(b, c, ',');
    assert a + "," + b + "," + c == a + [','] + (b + [','] + c);
    SplitAfterField(a, b + [','] + c, ',');
  }

  lemma NormThree(a: string, b: string, c: string)
    requires ',' !in a && ',' !in b && ',' !in c
    ensures Split(Norm(a) + "," + Norm(b) + "," + Norm(c), ',') == [Norm(a), Norm(b), Norm(c)]
  {
    NormNoComma(a);
    NormNoComma(b);
    NormNoComma(c);
    ThreeFields(Norm(a), Norm(b), Norm(c));
  }

  /** The written key is the trimmed, lower-cased user, item and rating of
      a line of more than three fields. */
  lemma OutputKeyOfLine(line: string)
    requires |Split(line, ',')| > 3
    ensures var fs := Split(line, ',');
      Split(OutputKey(line), ',') == [Norm(fs[0]), Norm(fs[1]), Norm(fs[2])]
  {
    var fs := Split(line, ',');
    NormThree(fs[0], fs[1], fs[2]);
  }

  /** A loose key is written unchanged, and is the trimmed, lower-cased
      user, item and rating of the line. */
  lemma OutputKeyOfLoose(line: string)
    requires ParseLoose(line).Ok?
    ensures var fs := Split(line, ',');
      var key := ParseLoose(line).value.key;
      OutputKey(key) == key && Split(key, ',') == [Norm(fs[0]), Norm(fs[1]), Norm(fs[2])]
  {
    var fs := Split(line, ',');
    NormThree(fs[0], fs[1], fs[2]);
  }

  /** Splitting a written line at commas gives the fields of the written key
      and then one "1" or "0" per indicator. */
  lemma OutputLineFields(key: string, bits: seq<bool>)
    requires |bits| > 0
    ensures Split(OutputLine(key, bits), ',') == Split(OutputKey(key), ',') + Indicators(bits)
  {
    SplitAppend(OutputKey(key), Join(Indicators(bits), ','), ',');
    assert OutputLine(key, bits) == OutputKey(key) + [','] + Join(Indicators(bits), ',');
    SplitJoin(Indicators(bits), ',');
  }

  // ---------------------------------------------------------------------
  // The records of an input file
  // ---------------------------------------------------------------------

  /** The HashMap from record key to the record's dimension -> condition
      map. */
  type Records = map<string, map<string, string>>

  /** TransformationFromLooseToBinary: lines sharing a key are merged into
      one record; a later line naming the same dimension overwrites. */
  function Merge(rows: seq<LooseRow>): Records {
    if |rows| == 0 then map[]
    else
      var acc := Merge(rows[..|rows| - 1]);
      var r := rows[|rows| - 1];
      acc[r.key := (if r.key in acc then acc[r.key] else map[])[r.dim := r.cond]]
  }

  predicate HasKey(rows: seq<LooseRow>, k: string) {
    exists t :: 0 <= t < |rows| && rows[t].key == k
  }

  predicate HasKeyDim(rows: seq<LooseRow>, k: string, d: string) {
    exists t :: 0 <= t < |rows| && rows[t].key == k && rows[t].dim == d
  }

  /** No later line has the same key and dimension as line t. */
  predicate LastFor(rows: seq<LooseRow>, t: int)
    requires 0 <= t < |rows|
  {
    forall u :: t < u < |rows| ==> rows[u].key != rows[t].key || rows[u].dim != rows[t].dim
  }

  /** There is one record per key of the lines, and a record has exactly the
      dimensions named by its lines. */
  lemma {:induction false} MergeKeys(rows: seq<LooseRow>, k: string, d: string)
    ensures k in Merge(rows) <==> HasKey(rows, k)
    ensures k in Merge(rows) ==> (d in Merge(rows)[k] <==> HasKeyDim(rows, k, d))
  {
    if |rows| > 0 {
      var n := |rows| - 1;
      var init := rows[..n];
      MergeKeys(init, k, d);
      assert HasKey(rows, k) <==> HasKey(init, k) || rows[n].key == k by {
        if HasKey(rows, k) && rows[n].key != k {
          var t :| 0 <= t < |rows| && rows[t].key == k;
          assert init[t].key == k;
        }
        if HasKey(init, k) {
          var t :| 0 <= t < |init| && init[t].key == k;
          assert rows[t].key == k;
        }
      }
      assert HasKeyDim(rows, k, d) <==> HasKeyDim(init, k, d) || (rows[n].key == k && rows[n].dim == d) by {
        if HasKeyDim(rows, k, d) && !(rows[n].key == k && rows[n].dim == d) {
          var t :| 0 <= t < |rows| && rows[t].key == k && rows[t].dim == d;
          assert init[t].key == k && init[t].dim == d;
        }
        if HasKeyDim(init, k, d) {
          var t :| 0 <= t < |init| && init[t].key == k && init[t].dim == d;
          assert rows[t].key == k && rows[t].dim == d;
        }
      }
      if rows[n].key == k && !HasKey(init, k) {
        assert !HasKeyDim(init, k, d) by {
          forall t | 0 <= t < |init|
            ensures init[t].key != k
          {
          }
        }
      }
    }
  }

  /** A record holds, for each dimension, the condition of the last line
      with that key and dimension. */
  lemma {:induction false} MergeLast(rows: seq<LooseRow>, t: int)
    requires 0 <= t < |rows| && LastFor(rows, t)
    ensures rows[t].key in Merge(rows) && rows[t].dim in Merge(rows)[rows[t].key]
    ensures Merge(rows)[rows[t].key][rows[t].dim] == rows[t].cond
  {
    var n := |rows| - 1;
    if t < n {
      var init := rows[..n];
      assert init[t] == rows[t];
      assert LastFor(init, t);
      MergeLast(init, t);
    }
  }

  /** The map that binds each key to the value at the same position, a
      later binding of a key overwriting an earlier one. */
  function MapOf<K, V>(ks: seq<K>, vs: seq<V>): map<K, V>
    requires |ks| == |vs|
  {
    if |ks| == 0 then map[]
    else MapOf(ks[..|ks| - 1], vs[..|vs| - 1])[ks[|ks| - 1] := vs[|vs| - 1]]
  }

  lemma {:induction false} MapOfMeaning<K, V>(ks: seq<K>, vs: seq<V>, i: int)
    requires |ks| == |vs| && 0 <= i < |ks|
    requires forall j :: i < j < |ks| ==> ks[j] != ks[i]
    ensures ks[i] in MapOf(ks, vs) && MapOf(ks, vs)[ks[i]] == vs[i]
  {
    var n := |ks| - 1;
    if i < n {
      MapOfMeaning(ks[..n], vs[..n], i);
    }
  }

  lemma {:induction false} MapOfKeys<K, V>(ks: seq<K>, vs: seq<V>, k: K)
    requires |ks| == |vs|
    ensures k in MapOf(ks, vs) <==> k in ks
    ensures k in MapOf(ks, vs) ==> MapOf(ks, vs)[k] in vs
  {
    if |ks| > 0 {
      var n := |ks| - 1;
      MapOfKeys(ks[..n], vs[..n], k);
      InLast(ks, k);
      InLast(vs, vs[n]);
      if k in MapOf(ks[..n], vs[..n]) {
        InLast(vs, MapOf(ks[..n], vs[..n])[k]);
      }
    }
  }

  /** The normalised cells of a compact line under its dimensions. */
  function CompactCells(dims: seq<string>, fs: seq<string>): (cells: seq<string>)
    requires |fs| >= 3 + |dims|
    ensures |cells| == |dims| && forall i :: 0 <= i < |dims| ==> cells[i] == Cell(fs[3 + i])
  {
    seq(|dims|, i requires 0 <= i < |dims| => Cell(fs[3 + i]))
  }

  /** A compact line's record: each header dimension gets the (normalised)
      cell below it; of two columns with the same name the later wins. */
  function CompactContext(dims: seq<string>, fs: seq<string>): map<string, string>
    requires |fs| >= 3 + |dims|
  {
    MapOf(dims, CompactCells(dims, fs))
  }

  /** A compact record has exactly the header's dimensions, never an empty
      condition, and for each dimension the cell of its last column. */
  lemma CompactContextMeaning(dims: seq<string>, fs: seq<string>, d: string)
    requires |fs| >= 3 + |dims|
    ensures d in CompactContext(dims, fs) <==> d in dims
    ensures d in CompactContext(dims, fs) ==> CompactContext(dims, fs)[d] != ""
  {
    MapOfKeys(dims, CompactCells(dims, fs), d);
  }

  lemma CompactContextLast(dims: seq<string>, fs: seq<string>, i: int)
    requires |fs| >= 3 + |dims| && 0 <= i < |dims|
    requires forall j :: i < j < |dims| ==> dims[j] != dims[i]
    ensures dims[i] in CompactContext(dims, fs) && CompactContext(dims, fs)[dims[i]] == Cell(fs[3 + i])
  {
    MapOfMeaning(dims, CompactCells(dims, fs), i);
  }

  /** TransformationFromCompactToBinary: one record per distinct line, the
      whole line being its key. */
  function CompactRecords(dims: seq<string>, lines: seq<string>): Result<Records> {
    if |lines| == 0 then Ok(map[])
    else
      var acc :- CompactRecords(dims, lines[..|lines| - 1]);
      var line := lines[|lines| - 1];
      var fs := Split(line, ',');
      if |fs| < 3 + |dims| then Err(IndexOutOfBounds) else Ok(acc[line := CompactContext(dims, fs)])
  }

  /** The records of a compact file are keyed by its lines, each holding the
      context of its line; they fail exactly when collecting the file's
      conditions fails. */
  lemma {:induction false} CompactRecordsMeaning(dims: seq<string>, lines: seq<string>)
    ensures CompactRecords(dims, lines).Ok? <==> CompactPairs(dims, lines).Ok?
    ensures CompactRecords(dims, lines).Ok? ==>
      var recs := CompactRecords(dims, lines).value;
      (forall k :: k in recs <==> k in lines)
      && forall k :: k in recs ==> |Split(k, ',')| >= 3 + |dims| && recs[k] == CompactContext(dims, Split(k, ','))
  {
    if |lines| > 0 {
      var n := |lines| - 1;
      CompactRecordsMeaning(dims, lines[..n]);
      forall k
        ensures k in lines <==> k in lines[..n] || k == lines[n]
      {
        InLast(lines, k);
      }
    }
  }

  /** TransformationFromBinaryToBinary, one line: for each header column
      from index 3 (up to column i) whose cell is a non-zero integer, the
      column's dimension gets the column's condition, a later column
      overwriting; the pairs so set are returned as well. */
  function BinaryContext(cols: seq<string>, fs: seq<string>, i: int): Result<(map<string, string>, seq<Pair>)>
    requires 3 <= i <= |cols|
    decreases i
  {
    if i == 3 then Ok((map[], []))
    else
      var acc :- BinaryContext(cols, fs, i - 1);
      if |fs| < i then Err(IndexOutOfBounds)
      else match ParseInt(Norm(fs[i - 1]))
        case None => Err(NumberFormat)
        case Some(v) =>
          if v == 0 then Ok(acc)
          else
            var p :- ColumnPair(cols[i - 1]);
            Ok((acc.0[p.0 := p.1], acc.1 + [p]))
  }

  function BinaryLineContext(cols: seq<string>, line: string): Result<(map<string, string>, seq<Pair>)> {
    if |cols| <= 3 then Ok((map[], [])) else BinaryContext(cols, Split(line, ','), |cols|)
  }

  function BinaryRecords(cols: seq<string>, lines: seq<string>): Result<(Records, seq<Pair>)> {
    if |lines| == 0 then Ok((map[], []))
    else
      var acc :- BinaryRecords(cols, lines[..|lines| - 1]);
      var line := lines[|lines| - 1];
      var lc :- BinaryLineContext(cols, line);
      Ok((acc.0[line := lc.0], acc.1 + lc.1))
  }

  /** Every pair a binary line sets is a pair of the file's header. */
  lemma {:induction false} BinaryContextPairs(cols: seq<string>, fs: seq<string>, i: int)
    requires 3 <= i <= |cols|
    requires ColumnPairs(cols[3..]).Ok? && BinaryContext(cols, fs, i).Ok?
    ensures forall p :: p in BinaryContext(cols, fs, i).value.1 ==> p in ColumnPairs(cols[3..]).value
    decreases i
  {
    if i > 3 {
      BinaryContextPairs(cols, fs, i - 1);
      MapAllAt(cols[3..], ColumnPair);
      assert cols[3..][i - 4] == cols[i - 1];
    }
  }

  lemma {:induction false} BinaryRecordsPairs(cols: seq<string>, lines: seq<string>)
    requires |cols| > 3 ==> ColumnPairs(cols[3..]).Ok?
    requires BinaryRecords(cols, lines).Ok?
    ensures forall p :: p in BinaryRecords(cols, lines).value.1 ==> |cols| > 3 && p in ColumnPairs(cols[3..]).value
  {
    if |lines| > 0 {
      BinaryRecordsPairs(cols, lines[..|lines| - 1]);
      if |cols| > 3 {
        BinaryContextPairs(cols, Split(lines[|lines| - 1], ','), |cols|);
      }
    }
  }

  // ---------------------------------------------------------------------
  // Transforming the files (run)
  // ---------------------------------------------------------------------

  /** What one input file gives: the multimap after its pairs are put, its
      records, and whether it is written in loose mode. */
  datatype Parsed = Parsed(mm: Multimap, recs: Records, loose: bool)

  /** Reading one input file by its format flag. A given multimap is the
      shared TreeMultimap of getConditions; without one a new
      LinkedHashMultimap is filled. A test file puts no pairs. An unknown
      flag reads nothing. */
  function Transform(flag: int, f: DataFile, isTest: bool, given: Option<Multimap>): Result<Option<Parsed>> {
    var kind := if given.Some? then Tree else Linked;
    var base := if given.Some? then given.value else [];
    if flag == 1 then
      var br :- BinaryRecords(Split(f.header, ','), f.lines);
      Ok(Some(Parsed(if isTest then base else PutAll(kind, base, br.1), br.0, false)))
    else if flag == 2 then
      var rows :- ParseLooseLines(f.lines);
      Ok(Some(Parsed(if isTest then base else PutAll(kind, base, RowPairs(rows)), Merge(rows), true)))
    else if flag == 3 then
      var dims :- CompactDims(f.header);
      var recs :- CompactRecords(dims, f.lines);
      var ps :- CompactPairs(dims, f.lines);
      Ok(Some(Parsed(if isTest then base else PutAll(kind, base, ps), recs, false)))
    else Ok(None)
  }

  /** A written file: its header and, per record key, its rating line (the
      order of the lines, HashMap iteration order, is not modelled). */
  datatype Output = Output(header: string, lines: map<string, string>)

  /** PublishNewRatingFiles. */
  function Publish(mm: Multimap, recs: Records, loose: bool): Result<Output> {
    if forall k :: k in recs ==> EncodeRecord(mm, recs[k], loose).Ok? then
      Ok(Output(Header(mm), map k | k in recs :: OutputLine(k, EncodeRecord(mm, recs[k], loose).value)))
    else Err(NullPointer)
  }

  /** The record has a value for every dimension of the multimap. */
  predicate HasDims(mm: Multimap, ctx: map<string, string>) {
    forall i :: 0 <= i < |mm| ==> mm[i].dim in ctx
  }

  /** The indicators of a record: one per header column, set iff the record
      holds that column's condition. */
  predicate Indicates(mm: Multimap, ctx: map<string, string>, bits: seq<bool>) {
    |bits| == |Pairs(mm)| && forall t :: 0 <= t < |bits| ==> (bits[t] <==> ColumnSet(ctx, Pairs(mm)[t]))
  }

  /** A written line: the record key followed by the record's indicators. */
  ghost predicate WrittenLine(mm: Multimap, ctx: map<string, string>, key: string, line: string) {
    exists bits :: line == OutputLine(key, bits) && Indicates(mm, ctx, bits)
  }

  /** A loose file is always written; a compact or binary one is written
      iff every record has every dimension of the multimap. */
  lemma PublishOk(kind: Kind, mm: Multimap, recs: Records, loose: bool)
    requires Fits(kind, mm)
    ensures Publish(mm, recs, loose).Ok? <==> loose || forall k :: k in recs ==> HasDims(mm, recs[k])
  {
    forall k | k in recs
      ensures EncodeRecord(mm, recs[k], loose).Ok? <==> loose || HasDims(mm, recs[k])
    {
      EncodeRecordMeaning(kind, mm, recs[k], loose);
    }
  }

  lemma PublishLine(kind: Kind, mm: Multimap, recs: Records, loose: bool, k: string)
    requires Fits(kind, mm) && Publish(mm, recs, loose).Ok? && k in recs
    ensures k in Publish(mm, recs, loose).value.lines
    ensures WrittenLine(mm, recs[k], k, Publish(mm, recs, loose).value.lines[k])
  {
    EncodeRecordMeaning(kind, mm, recs[k], loose);
    var bits := EncodeRecord(mm, recs[k], loose).value;
    assert Indicates(mm, recs[k], bits);
    assert Publish(mm, recs, loose).value.lines[k] == OutputLine(k, bits);
  }

  /** A written file has the multimap's header and one line per record,
      holding the record's indicators under the header's columns. */
  lemma PublishMeaning(kind: Kind, mm: Multimap, recs: Records, loose: bool)
    requires Fits(kind, mm) && Publish(mm, recs, loose).Ok?
    ensures Publish(mm, recs, loose).value.header == Header(mm)
    ensures Publish(mm, recs, loose).value.lines.Keys == recs.Keys
    ensures forall k :: k in recs ==> WrittenLine(mm, recs[k], k, Publish(mm, recs, loose).value.lines[k])
  {
    forall k | k in recs
      ensures WrittenLine(mm, recs[k], k, Publish(mm, recs, loose).value.lines[k])
    {
      PublishLine(kind, mm, recs, loose, k);
    }
  }

  /** What run does with one file. */
  datatype Outcome = Copied | Written(out: Output) | NotRecognised

  function Emit(p: Option<Parsed>): Result<Outcome> {
    match p
    case None => Ok(NotRecognised)
    case Some(parsed) =>
      var out :- Publish(parsed.mm, parsed.recs, parsed.loose);
      Ok(Written(out))
  }

  /** run: without a test file (flag -1) a binary training file is copied
      and any other is transformed on its own; with one, the conditions of
      both files are collected first and both files are written against
      them, the training file first. */
  function Run(trainFlag: int, train: DataFile, testFlag: int, test: DataFile): Result<seq<Outcome>> {
    if testFlag == -1 then
      if trainFlag == 1 then Ok([Copied])
      else
        var p :- Transform(trainFlag, train, false, None);
        var o :- Emit(p);
        Ok([o])
    else
      var mm :- GetConditions(trainFlag, train, testFlag, test);
      var p1 :- Transform(trainFlag, train, false, Some(mm));
      var o1 :- Emit(p1);
      var mm1 := if p1.Some? then p1.value.mm else mm;
      var p2 :- Transform(testFlag, test, true, Some(mm1));
      var o2 :- Emit(p2);
      Ok([o1, o2])
  }

  /** Putting a pair a TreeMultimap already holds changes nothing. */
  lemma {:induction false} PutPresent(mm: Multimap, d: string, c: string)
    requires Fits(Tree, mm) && c in Get(mm, d)
    ensures Put(Tree, mm, d, c) == mm
  {
    if mm[0].dim != d {
      FitsTail(Tree, mm);
      if StrLess(d, mm[0].dim) {
        BelowFirst(mm, d);
      } else {
        PutPresent(mm[1..], d, c);
      }
    }
  }

  lemma {:induction false} PutAllPresent(mm: Multimap, ps: seq<Pair>)
    requires Fits(Tree, mm) && forall p :: p in ps ==> p.1 in Get(mm, p.0)
    ensures PutAll(Tree, mm, ps) == mm
  {
    if |ps| > 0 {
      PutAllPresent(mm, ps[..|ps| - 1]);
      PutPresent(mm, ps[|ps| - 1].0, ps[|ps| - 1].1);
    }
  }

  /** Reading a training file against a multimap that already holds every
      pair of the file leaves the multimap as it is. */
  lemma TransformKeepsShared(flag: int, f: DataFile, mm: Multimap)
    requires Fits(Tree, mm) && FilePairs(flag, f).Ok?
    requires forall p :: p in FilePairs(flag, f).value ==> p.1 in Get(mm, p.0)
    requires Transform(flag, f, false, Some(mm)).Ok? && Transform(flag, f, false, Some(mm)).value.Some?
    ensures Transform(flag, f, false, Some(mm)).value.value.mm == mm
  {
    if flag == 1 {
      var cols := Split(f.header, ',');
      var br := BinaryRecords(cols, f.lines).value;
      BinaryRecordsPairs(cols, f.lines);
      PutAllPresent(mm, br.1);
    } else if flag == 2 {
      PutAllPresent(mm, RowPairs(ParseLooseLines(f.lines).value));
    } else {
      var dims := CompactDims(f.header).value;
      PutAllPresent(mm, CompactPairs(dims, f.lines).value);
    }
  }

  /** A written file carries the header of the multimap it was parsed
      against. */
  lemma EmitHeader(p: Option<Parsed>)
    ensures Emit(p).Ok? && Emit(p).value.Written? ==> p.Some? && Emit(p).value.out.header == Header(p.value.mm)
  {
  }

  /** With a test file, both written files carry the header of the
      conditions collected from the two files together. */
  lemma RunSharesHeader(trainFlag: int, train: DataFile, testFlag: int, test: DataFile)
    requires testFlag != -1 && Run(trainFlag, train, testFlag, test).Ok?
    ensures GetConditions(trainFlag, train, testFlag, test).Ok?
    ensures forall o :: o in Run(trainFlag, train, testFlag, test).value && o.Written? ==>
      o.out.header == Header(GetConditions(trainFlag, train, testFlag, test).value)
  {
    var mm := GetConditions(trainFlag, train, testFlag, test).value;
    var p1 := Transform(trainFlag, train, false, Some(mm)).value;
    var mm1 := if p1.Some? then p1.value.mm else mm;
    var p2 := Transform(testFlag, test, true, Some(mm1)).value;
    assert Run(trainFlag, train, testFlag, test).value == [Emit(p1).value, Emit(p2).value];
    if p1.Some? {
      TrainKeepsConditions(trainFlag, train, testFlag, test);
    }
    assert p2.Some? ==> p2.value.mm == mm1;
    EmitHeader(p1);
    EmitHeader(p2);
  }

  /** The training file, transformed against the conditions of both files,
      adds none. */
  lemma TrainKeepsConditions(trainFlag: int, train: DataFile, testFlag: int, test: DataFile)
    requires GetConditions(trainFlag, train, testFlag, test).Ok?
    requires var mm := GetConditions(trainFlag, train, testFlag, test).value;
      Transform(trainFlag, train, false, Some(mm)).Ok? && Transform(trainFlag, train, false, Some(mm)).value.Some?
    ensures var mm := GetConditions(trainFlag, train, testFlag, test).value;
      Transform(trainFlag, train, false, Some(mm)).value.value.mm == mm
  {
    var mm := GetConditions(trainFlag, train, testFlag, test).value;
    GetConditionsMeaning(trainFlag, train, testFlag, test);
    var ps := FilePairs(trainFlag, train).value + FilePairs(testFlag, test).value;
    forall p | p in FilePairs(trainFlag, train).value
      ensures p.1 in Get(mm, p.0)
    {
      assert (p.0, p.1) in ps;
    }
    TransformKeepsShared(trainFlag, train, mm);
  }
}
