/** Pieces shared by the two hybrid-filtering recommenders DCR and DCW:
    reading one condition out of a situation's condition list
    (contextConditionsList), the two ways of comparing two such conditions,
    splitting a 3·num_dim position vector into three dimension masks, and
    loading a solution supplied as a ';'-separated string. */
module HybridFiltering {
  import opened Wrappers
  import opened Text

  /** contextConditionsList.get(c): the condition list loaded for situation
      c, null when no row had that situation. */
  function ListOf(lists: map<nat, seq<nat>>, c: nat): (l: Option<seq<nat>>)
    ensures l.Some? <==> c in lists
  {
    if c in lists then Some(lists[c]) else None
  }

  /** list.get(i): a NullPointerException on a null list and an
      IndexOutOfBoundsException past its end. */
  function CondAt(list: Option<seq<nat>>, i: nat): (r: Result<nat>)
    ensures r.Ok? <==> list.Some? && i < |list.value|
    ensures list.None? ==> r == Err(NullPointer)
  {
    if list.None? then Err(NullPointer)
    else if i < |list.value| then Ok(list.value[i])
    else Err(IndexOutOfBounds)
  }

  /** Comparing the two condition ids by value, as the algorithms intend. */
  predicate ValueEq(x: nat, y: nat) {
    x == y
  }

  /** Comparing two `Integer`s taken from condition lists with `==`, which
      compares references. Every row of the loader builds a fresh list of
      freshly boxed ids, so two entries are the same object only when they
      come from the same list (the same situation) or when the id lies in
      the range that Integer.valueOf caches (-128..127). */
  predicate BoxedSame(x: nat, y: nat, sameList: bool) {
    x == y && (sameList || x <= 127)
  }

  /** The reference comparison between entries of two situations' lists,
      given whether the two situations are the same. */
  function BoxedCompare(sameList: bool): (nat, nat) -> bool {
    (x: nat, y: nat) => BoxedSame(x, y, sameList)
  }

  /** The masks have no effect past the end of the position vector: the
      arrays of predict start out as zeros. */
  function Mask(pos: seq<real>, numDim: nat, off: nat): (m: seq<real>)
    ensures |m| == numDim
  {
    seq(numDim, j requires 0 <= j < numDim => if off + j < |pos| then pos[off + j] else 0.0)
  }

  /** The position split at the top of predict: entries below num_dim go to
      the first mask, the next num_dim to the second, the rest to the third;
      an entry beyond 3·num_dim overruns the third array. */
  function SplitPosition(pos: seq<real>, numDim: nat): (r: Result<(seq<real>, seq<real>, seq<real>)>)
    ensures r.Ok? <==> |pos| <= 3 * numDim
    ensures r.Err? ==> r.msg == IndexOutOfBounds
    ensures r.Ok? ==> |r.value.0| == numDim && |r.value.1| == numDim && |r.value.2| == numDim
  {
    if |pos| > 3 * numDim then Err(IndexOutOfBounds)
    else Ok((Mask(pos, numDim, 0), Mask(pos, numDim, numDim), Mask(pos, numDim, 2 * numDim)))
  }

  /** The three masks, laid end to end, give back the position vector,
      padded with zeros up to 3·num_dim; with a full-length vector (the
      solution always has num_dim·3 entries) they give it back exactly. */
  lemma SplitPositionConcat(pos: seq<real>, numDim: nat)
    requires |pos| <= 3 * numDim
    ensures var (a, b, c) := SplitPosition(pos, numDim).value;
      a + b + c == pos + seq(3 * numDim - |pos|, _ => 0.0)
    ensures |pos| == 3 * numDim ==>
      var (a, b, c) := SplitPosition(pos, numDim).value; a + b + c == pos
  {
    var (a, b, c) := SplitPosition(pos, numDim).value;
    var padded := pos + seq(3 * numDim - |pos|, _ => 0.0);
    assert |a + b + c| == |padded|;
    forall k | 0 <= k < |padded|
      ensures (a + b + c)[k] == padded[k]
    {
      if k < numDim {
        assert (a + b + c)[k] == a[k];
      } else if k < 2 * numDim {
        assert (a + b + c)[k] == b[k - numDim];
      } else {
        assert (a + b + c)[k] == c[k - 2 * numDim];
      }
    }
    if |pos| == 3 * numDim {
      assert padded == pos;
    }
  }

  /** The split as predict performs it: one pass over pos writing into three
      zero-filled arrays. */
  method SplitPositionLoop(pos: seq<real>, numDim: nat) returns (r: Result<(seq<real>, seq<real>, seq<real>)>)
    ensures r == SplitPosition(pos, numDim)
  {
    var p1 := seq(numDim, _ => 0.0);
    var p2 := seq(numDim, _ => 0.0);
    var p3 := seq(numDim, _ => 0.0);
    var i := 0;
    while i < |pos|
      invariant 0 <= i <= |pos| && i <= 3 * numDim
      invariant |p1| == numDim && |p2| == numDim && |p3| == numDim
      invariant forall j :: 0 <= j < numDim ==> p1[j] == if j < i then pos[j] else 0.0
      invariant forall j :: 0 <= j < numDim ==> p2[j] == if numDim + j < i then pos[numDim + j] else 0.0
      invariant forall j :: 0 <= j < numDim ==> p3[j] == if 2 * numDim + j < i then pos[2 * numDim + j] else 0.0
    {
      if i < numDim {
        p1 := p1[i := pos[i]];
      } else if i < 2 * numDim {
        p2 := p2[i - numDim := pos[i]];
      } else if i - 2 * numDim < numDim {
        p3 := p3[i - 2 * numDim := pos[i]];
      } else {
        return Err(IndexOutOfBounds);
      }
      i := i + 1;
    }
    assert p1 == Mask(pos, numDim, 0);
    assert p2 == Mask(pos, numDim, numDim);
    assert p3 == Mask(pos, numDim, 2 * numDim);
    return Ok((p1, p2, p3));
  }

  /** One field of a supplied solution: trimmed, then parsed; a field the
      parser rejects raises NumberFormatException. */
  function ParseField(field: string, parse: string -> Option<real>): (r: Result<real>)
    ensures r.Ok? <==> parse(Trim(field)).Some?
  {
    match parse(Trim(field))
    case None => Err(NumberFormat)
    case Some(v) => Ok(v)
  }

  /** Loading the solution string `sol` into the position vector: it is
      split on ';' keeping empty fields. A field count other than len is
      logged and leaves the current position untouched; otherwise every
      trimmed field is parsed in turn, and a field that does not parse
      aborts model building. */
  function LoadSolution(sol: string, len: nat, current: seq<real>, parse: string -> Option<real>): (r: Result<seq<real>>)
    requires |current| == len
    ensures |Split(sol, ';')| != len ==> r == Ok(current)
    ensures r.Ok? ==> |r.value| == len
  {
    var fields := Split(sol, ';');
    if |fields| != len then Ok(current)
    else
      MapAll(fields, (s: string) => ParseField(s, parse))
  }

  /** With the right field count, loading succeeds iff every trimmed field
      parses, and then the position holds the parsed values in order. */
  lemma LoadSolutionMeaning(sol: string, len: nat, current: seq<real>, parse: string -> Option<real>)
    requires |current| == len
    requires |Split(sol, ';')| == len
    ensures var fields := Split(sol, ';');
      LoadSolution(sol, len, current, parse).Ok? <==> forall k :: 0 <= k < len ==> parse(Trim(fields[k])).Some?
    ensures var fields := Split(sol, ';');
      LoadSolution(sol, len, current, parse).Ok? ==>
        forall k :: 0 <= k < len ==> LoadSolution(sol, len, current, parse).value[k] == parse(Trim(fields[k])).value
  {
    MapAllAt(Split(sol, ';'), (s: string) => ParseField(s, parse));
  }

  /** Writing a position out as its rendered entries joined by ';' and
      loading it back gives the position, for any rendering the parser
      reads back (after trimming) and that never produces a ';'. */
  lemma LoadSolutionRoundTrip(xs: seq<real>, current: seq<real>, render: real -> string, parse: string -> Option<real>)
    requires |xs| >= 1 && |current| == |xs|
    requires forall k :: 0 <= k < |xs| ==> ';' !in render(xs[k]) && parse(Trim(render(xs[k]))) == Some(xs[k])
    ensures LoadSolution(Join(Rendered(xs, render), ';'), |xs|, current, parse) == Ok(xs)
  {
    var parts := Rendered(xs, render);
    var sol := Join(parts, ';');
    SplitJoin(parts, ';');
    assert Split(sol, ';') == parts;
    LoadSolutionMeaning(sol, |xs|, current, parse);
    var r := LoadSolution(sol, |xs|, current, parse);
    assert r.Ok?;
    assert forall k :: 0 <= k < |xs| ==> r.value[k] == xs[k];
    assert r.value == xs;
  }

  function Rendered(xs: seq<real>, render: real -> string): (parts: seq<string>)
    ensures |parts| == |xs|
    ensures forall k :: 0 <= k < |xs| ==> parts[k] == render(xs[k])
  {
    seq(|xs|, k requires 0 <= k < |xs| => render(xs[k]))
  }
}
