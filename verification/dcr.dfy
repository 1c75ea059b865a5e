/** DCR (differential context relaxation): two situations match under a
    dimension mask when their conditions agree on every dimension the mask
    selects. The comparison is parametrised by how two condition ids are
    compared: by value (ContextRelaxation, used everywhere else in the
    model) or by boxed reference as the code is written
    (ContextRelaxationAsWritten). */
module DCR {
  import opened Wrappers
  import opened Text
  import opened HybridFiltering

  /** The loop of ContextRelaxation(c, ctx, pos) from dimension i on: only
      dimensions whose mask entry is exactly 1 are read; the first
      disagreement stops the loop with false. */
  function RelaxFrom(a: Option<seq<nat>>, b: Option<seq<nat>>, pos: seq<real>, i: nat, same: (nat, nat) -> bool): (r: Result<bool>)
    decreases |pos| - i
  {
    if i >= |pos| then Ok(true)
    else if pos[i] != 1.0 then RelaxFrom(a, b, pos, i + 1, same)
    else
      var x :- CondAt(a, i);
      var y :- CondAt(b, i);
      if !same(x, y) then Ok(false) else RelaxFrom(a, b, pos, i + 1, same)
  }

  /** ContextRelaxation(c, ctx, pos), comparing condition ids by value. */
  function ContextRelaxation(lists: map<nat, seq<nat>>, c: nat, ctx: nat, pos: seq<real>): (r: Result<bool>)
  {
    RelaxFrom(ListOf(lists, c), ListOf(lists, ctx), pos, 0, ValueEq)
  }

  /** ContextRelaxation(c, ctx, pos) as written: `conds1.get(i) !=
      conds2.get(i)` on two boxed Integers. */
  function ContextRelaxationAsWritten(lists: map<nat, seq<nat>>, c: nat, ctx: nat, pos: seq<real>): (r: Result<bool>)
  {
    RelaxFrom(ListOf(lists, c), ListOf(lists, ctx), pos, 0, BoxedCompare(c == ctx))
  }

  /** A condition list reaches every dimension the mask selects. */
  predicate Covers(l: Option<seq<nat>>, pos: seq<real>) {
    l.Some? && forall i :: 0 <= i < |pos| && pos[i] == 1.0 ==> i < |l.value|
  }

  /** Two condition lists agree on every dimension the mask selects. */
  predicate Agree(a: seq<nat>, b: seq<nat>, pos: seq<real>) {
    forall i :: 0 <= i < |pos| && pos[i] == 1.0 ==> i < |a| && i < |b| && a[i] == b[i]
  }

  predicate AgreeFrom(a: seq<nat>, b: seq<nat>, pos: seq<real>, i: nat, same: (nat, nat) -> bool) {
    forall k :: i <= k < |pos| && pos[k] == 1.0 ==> k < |a| && k < |b| && same(a[k], b[k])
  }

  /** When both lists reach the masked dimensions, the loop never throws and
      answers whether they agree there. */
  lemma {:induction false} RelaxFromMeaning(a: Option<seq<nat>>, b: Option<seq<nat>>, pos: seq<real>, i: nat, same: (nat, nat) -> bool)
    requires Covers(a, pos) && Covers(b, pos)
    ensures RelaxFrom(a, b, pos, i, same) == Ok(AgreeFrom(a.value, b.value, pos, i, same))
    decreases |pos| - i
  {
    if i < |pos| {
      RelaxFromMeaning(a, b, pos, i + 1, same);
    }
  }

  /** The masked equality: situations c and ctx match iff their conditions
      are equal on every dimension whose mask entry is 1. */
  lemma ContextRelaxationMeaning(lists: map<nat, seq<nat>>, c: nat, ctx: nat, pos: seq<real>)
    requires Covers(ListOf(lists, c), pos) && Covers(ListOf(lists, ctx), pos)
    ensures ContextRelaxation(lists, c, ctx, pos) == Ok(Agree(lists[c], lists[ctx], pos))
  {
    RelaxFromMeaning(ListOf(lists, c), ListOf(lists, ctx), pos, 0, ValueEq);
  }

  /** A mask that selects no dimension matches every pair of situations,
      loaded or not. */
  lemma {:induction false} NoMaskMatches(a: Option<seq<nat>>, b: Option<seq<nat>>, pos: seq<real>, i: nat, same: (nat, nat) -> bool)
    requires forall k :: 0 <= k < |pos| ==> pos[k] != 1.0
    ensures RelaxFrom(a, b, pos, i, same) == Ok(true)
    decreases |pos| - i
  {
    if i < |pos| {
      NoMaskMatches(a, b, pos, i + 1, same);
    }
  }

  lemma AllZeroMaskMatches(lists: map<nat, seq<nat>>, c: nat, ctx: nat, pos: seq<real>)
    requires forall k :: 0 <= k < |pos| ==> pos[k] != 1.0
    ensures ContextRelaxation(lists, c, ctx, pos) == Ok(true)
  {
    NoMaskMatches(ListOf(lists, c), ListOf(lists, ctx), pos, 0, ValueEq);
  }

  /** A situation that was never loaded has a null condition list: the
      first masked dimension throws. */
  lemma {:induction false} UnknownSituationFrom(a: Option<seq<nat>>, b: Option<seq<nat>>, pos: seq<real>, i: nat, j: nat, same: (nat, nat) -> bool)
    requires a.None? && i <= j < |pos| && pos[j] == 1.0
    ensures RelaxFrom(a, b, pos, i, same) == Err(NullPointer)
    decreases j - i
  {
    if pos[i] != 1.0 {
      UnknownSituationFrom(a, b, pos, i + 1, j, same);
    }
  }

  lemma UnknownSituationThrows(lists: map<nat, seq<nat>>, c: nat, ctx: nat, pos: seq<real>, j: nat)
    requires c !in lists && j < |pos| && pos[j] == 1.0
    ensures ContextRelaxation(lists, c, ctx, pos) == Err(NullPointer)
  {
    UnknownSituationFrom(ListOf(lists, c), ListOf(lists, ctx), pos, 0, j, ValueEq);
  }

  /** Every loaded situation that reaches the masked dimensions matches
      itself. */
  lemma ContextRelaxationReflexive(lists: map<nat, seq<nat>>, c: nat, pos: seq<real>)
    requires Covers(ListOf(lists, c), pos)
    ensures ContextRelaxation(lists, c, c, pos) == Ok(true)
  {
    ContextRelaxationMeaning(lists, c, c, pos);
  }

  /** Swapping the two situations changes at most which exception is
      thrown: whether the loop completes, and its answer, stay the same. */
  lemma {:induction false} RelaxFromSymmetric(a: Option<seq<nat>>, b: Option<seq<nat>>, pos: seq<real>, i: nat)
    ensures RelaxFrom(a, b, pos, i, ValueEq).Ok? == RelaxFrom(b, a, pos, i, ValueEq).Ok?
    ensures RelaxFrom(a, b, pos, i, ValueEq).Ok? ==> RelaxFrom(a, b, pos, i, ValueEq) == RelaxFrom(b, a, pos, i, ValueEq)
    decreases |pos| - i
  {
    if i < |pos| {
      RelaxFromSymmetric(a, b, pos, i + 1);
    }
  }

  lemma ContextRelaxationSymmetric(lists: map<nat, seq<nat>>, c: nat, ctx: nat, pos: seq<real>)
    ensures ContextRelaxation(lists, c, ctx, pos).Ok? == ContextRelaxation(lists, ctx, c, pos).Ok?
    ensures ContextRelaxation(lists, c, ctx, pos).Ok? ==>
      ContextRelaxation(lists, c, ctx, pos) == ContextRelaxation(lists, ctx, c, pos)
  {
    RelaxFromSymmetric(ListOf(lists, c), ListOf(lists, ctx), pos, 0);
  }

  /** Relaxing the mask keeps a match: if c and ctx match under mask big,
      they match under any mask small that selects only dimensions big
      selects. */
  lemma ContextRelaxationAntitone(lists: map<nat, seq<nat>>, c: nat, ctx: nat, small: seq<real>, big: seq<real>)
    requires |small| == |big|
    requires forall i :: 0 <= i < |small| && small[i] == 1.0 ==> big[i] == 1.0
    requires Covers(ListOf(lists, c), big) && Covers(ListOf(lists, ctx), big)
    requires ContextRelaxation(lists, c, ctx, big) == Ok(true)
    ensures ContextRelaxation(lists, c, ctx, small) == Ok(true)
  {
    ContextRelaxationMeaning(lists, c, ctx, big);
    ContextRelaxationMeaning(lists, c, ctx, small);
  }

  /** ContextRelaxation(c, cs, pos, sv): the rating sv holds at the first
      situation of the row that matches c, or -1 when none does. `cells`
      is the row: its situation ids in index order with their ratings. */
  function FirstMatch(lists: map<nat, seq<nat>>, c: nat, cells: seq<(nat, real)>, pos: seq<real>): (r: Result<real>)
    ensures r.Ok? ==> r.value == -1.0 || exists k :: 0 <= k < |cells| && r.value == cells[k].1
  {
    if |cells| == 0 then Ok(-1.0)
    else
      var m :- ContextRelaxation(lists, c, cells[0].0, pos);
      if m then Ok(cells[0].1)
      else
        var r := FirstMatch(lists, c, cells[1..], pos);
        assert r.Ok? && r.value != -1.0 ==> exists k :: 0 <= k < |cells| && r.value == cells[k].1 by {
          if r.Ok? && r.value != -1.0 {
            var k :| 0 <= k < |cells| - 1 && r.value == cells[1..][k].1;
            assert r.value == cells[k + 1].1;
          }
        }
        r
  }

  /** Situation c matches cell k of the row. */
  predicate MatchesAt(lists: map<nat, seq<nat>>, c: nat, cells: seq<(nat, real)>, pos: seq<real>, k: nat)
    requires k < |cells|
  {
    ContextRelaxation(lists, c, cells[k].0, pos) == Ok(true)
  }

  /** When every comparison of the row completes: no match gives -1, and
      otherwise the rating of the first matching cell. */
  lemma {:induction false} FirstMatchMeaning(lists: map<nat, seq<nat>>, c: nat, cells: seq<(nat, real)>, pos: seq<real>)
    requires forall k :: 0 <= k < |cells| ==> ContextRelaxation(lists, c, cells[k].0, pos).Ok?
    ensures (forall k :: 0 <= k < |cells| ==> !MatchesAt(lists, c, cells, pos, k)) ==>
      FirstMatch(lists, c, cells, pos) == Ok(-1.0)
    ensures forall k :: (0 <= k < |cells| && MatchesAt(lists, c, cells, pos, k)
      && (forall j :: 0 <= j < k ==> !MatchesAt(lists, c, cells, pos, j))) ==>
      FirstMatch(lists, c, cells, pos) == Ok(cells[k].1)
  {
    if |cells| > 0 {
      var rest := cells[1..];
      FirstMatchMeaning(lists, c, rest, pos);
      assert forall k :: 0 <= k < |rest| ==> (MatchesAt(lists, c, rest, pos, k) <==> MatchesAt(lists, c, cells, pos, k + 1));
      if !MatchesAt(lists, c, cells, pos, 0) {
        var first := ContextRelaxation(lists, c, cells[0].0, pos);
        assert first.Ok? && first != Ok(true);
        assert !first.value;
        assert first == Ok(false);
        forall k | 0 <= k < |cells| && MatchesAt(lists, c, cells, pos, k)
            && (forall j :: 0 <= j < k ==> !MatchesAt(lists, c, cells, pos, j))
          ensures FirstMatch(lists, c, cells, pos) == Ok(cells[k].1)
        {
          assert k > 0;
          assert MatchesAt(lists, c, rest, pos, k - 1);
          assert forall j :: 0 <= j < k - 1 ==> !MatchesAt(lists, c, rest, pos, j) by {
            forall j | 0 <= j < k - 1 ensures !MatchesAt(lists, c, rest, pos, j) {
              assert !MatchesAt(lists, c, cells, pos, j + 1);
            }
          }
        }
      }
    }
  }

  /** Two comparisons that agree on every id the first list can hold give
      the same loop result. */
  lemma {:induction false} RelaxFromCongruent(a: Option<seq<nat>>, b: Option<seq<nat>>, pos: seq<real>, i: nat, s1: (nat, nat) -> bool, s2: (nat, nat) -> bool)
    requires a.Some? ==> forall k, y :: 0 <= k < |a.value| ==> s1(a.value[k], y) == s2(a.value[k], y)
    ensures RelaxFrom(a, b, pos, i, s1) == RelaxFrom(a, b, pos, i, s2)
    decreases |pos| - i
  {
    if i < |pos| {
      RelaxFromCongruent(a, b, pos, i + 1, s1, s2);
    }
  }

  /** The reference comparison gives the intended answer when c and ctx are
      the same situation, or when no condition id of c exceeds the cache
      range. */
  lemma AsWrittenAgreesWithinCache(lists: map<nat, seq<nat>>, c: nat, ctx: nat, pos: seq<real>)
    requires c == ctx || (c in lists ==> forall k :: 0 <= k < |lists[c]| ==> lists[c][k] <= 127)
    ensures ContextRelaxationAsWritten(lists, c, ctx, pos) == ContextRelaxation(lists, c, ctx, pos)
  {
    RelaxFromCongruent(ListOf(lists, c), ListOf(lists, ctx), pos, 0,
      BoxedCompare(c == ctx), ValueEq);
  }

  /** Two different situations that share condition 200 on the only masked
      dimension: by value they match, by reference they do not. */
  lemma AsWrittenMissesSharedCondition()
    ensures ContextRelaxationAsWritten(map[0 := [200], 1 := [200]], 0, 1, [1.0]) == Ok(false)
    ensures ContextRelaxation(map[0 := [200], 1 := [200]], 0, 1, [1.0]) == Ok(true)
  {
    var lists := map[0 := [200], 1 := [200]];
    assert ListOf(lists, 0) == Some([200]);
    assert ListOf(lists, 1) == Some([200]);
    assert RelaxFrom(Some([200]), Some([200]), [1.0], 1, ValueEq) == Ok(true);
    assert !BoxedCompare(false)(200, 200);
    assert RelaxFrom(Some([200]), Some([200]), [1.0], 0, BoxedCompare(false)) == Ok(false);
    assert RelaxFrom(Some([200]), Some([200]), [1.0], 0, ValueEq) == Ok(true);
  }
}
