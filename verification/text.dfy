/** The small part of java.lang.String that the toolkit relies on: trimming,
    ASCII lower-casing, splitting on one separator character, joining, and
    the decimal rendering and parsing of integers (Integer.toString and
    Integer.valueOf). Identifier keys such as "3,17" (a user-item pair) or
    "0,4,9" (a context situation) are built and read back with these. */
module Text {
  import opened Wrappers

  const MaxInt: int := 0x7fff_ffff
  const MinInt: int := -0x8000_0000

  /** Character.toLowerCase on the ASCII range; other characters are kept. */
  function LowerChar(c: char): char {
    if 'A' <= c <= 'Z' then (c as int + 32) as char else c
  }

  function Lower(s: string): (r: string)
    ensures |r| == |s|
    ensures forall i :: 0 <= i < |s| ==> r[i] == LowerChar(s[i])
  {
    seq(|s|, i requires 0 <= i < |s| => LowerChar(s[i]))
  }

  lemma LowerIdempotent(s: string)
    ensures Lower(Lower(s)) == Lower(s)
  {
  }

  /** String.trim removes every leading and trailing character whose code is
      at most that of the space character. */
  predicate IsBlank(c: char) {
    c <= ' '
  }

  function TrimStart(s: string): (r: string)
    ensures |r| <= |s| && r == s[|s| - |r|..]
    ensures r == [] || !IsBlank(r[0])
    ensures forall i :: 0 <= i < |s| - |r| ==> IsBlank(s[i])
  {
    if |s| > 0 && IsBlank(s[0]) then TrimStart(s[1..]) else s
  }

  function TrimEnd(s: string): (r: string)
    ensures |r| <= |s| && r == s[..|r|]
    ensures r == [] || !IsBlank(r[|r| - 1])
    ensures forall i :: |r| <= i < |s| ==> IsBlank(s[i])
  {
    if |s| > 0 && IsBlank(s[|s| - 1]) then TrimEnd(s[..|s| - 1]) else s
  }

  function Trim(s: string): (r: string)
    ensures r == [] || (!IsBlank(r[0]) && !IsBlank(r[|r| - 1]))
  {
    TrimEnd(TrimStart(s))
  }

  /** Trimming adds no character. */
  lemma TrimChars(s: string)
    ensures forall c :: c in Trim(s) ==> c in s
  {
    var a := TrimStart(s);
    assert forall c :: c in a ==> c in s;
  }

  /** A string with no blank at either end is its own trim. */
  lemma TrimNoBlank(s: string)
    requires s == [] || (!IsBlank(s[0]) && !IsBlank(s[|s| - 1]))
    ensures Trim(s) == s
  {
  }

  /** String.split(sep, -1): every field is kept, including empty ones. */
  function Split(s: string, sep: char): (parts: seq<string>)
    ensures |parts| >= 1
    ensures forall i :: 0 <= i < |parts| ==> sep !in parts[i]
  {
    if |s| == 0 then [""]
    else
      var rest := Split(s[1..], sep);
      if s[0] == sep then [""] + rest
      else [[s[0]] + rest[0]] + rest[1..]
  }

  /** String.join(sep, parts). */
  function Join(parts: seq<string>, sep: char): string {
    if |parts| == 0 then ""
    else if |parts| == 1 then parts[0]
    else parts[0] + [sep] + Join(parts[1..], sep)
  }

  /** Splitting and re-joining gives the original string back. */
  lemma {:induction false} JoinSplit(s: string, sep: char)
    ensures Join(Split(s, sep), sep) == s
  {
    if |s| > 0 {
      var rest := Split(s[1..], sep);
      JoinSplit(s[1..], sep);
      if s[0] == sep {
        assert Split(s, sep) == [""] + rest;
        assert Join([""] + rest, sep) == "" + [sep] + Join(rest, sep);
      } else if |rest| == 1 {
        assert Split(s, sep) == [[s[0]] + rest[0]];
      } else {
        var parts := Split(s, sep);
        assert parts == [[s[0]] + rest[0]] + rest[1..];
        assert parts[1..] == rest[1..];
        assert Join(rest, sep) == rest[0] + [sep] + Join(rest[1..], sep);
      }
    }
  }

  lemma {:induction false} SplitNoSep(p: string, sep: char)
    requires sep !in p
    ensures Split(p, sep) == [p]
  {
    if |p| > 0 {
      SplitNoSep(p[1..], sep);
      assert [p[0]] + p[1..] == p;
    }
  }

  lemma {:induction false} SplitAfterField(p: string, t: string, sep: char)
    requires sep !in p
    ensures Split(p + [sep] + t, sep) == [p] + Split(t, sep)
  {
    var s := p + [sep] + t;
    if |p| == 0 {
      assert s[1..] == t;
    } else {
      assert s[1..] == p[1..] + [sep] + t;
      SplitAfterField(p[1..], t, sep);
      assert [p[0]] + p[1..] == p;
    }
  }

  /** Splitting a concatenation at a separator splits both halves. */
  lemma {:induction false} SplitAppend(x: string, y: string, sep: char)
    ensures Split(x + [sep] + y, sep) == Split(x, sep) + Split(y, sep)
  {
    var s := x + [sep] + y;
    if |x| == 0 {
      assert s[1..] == y;
    } else {
      assert s[1..] == x[1..] + [sep] + y;
      SplitAppend(x[1..], y, sep);
    }
  }

  /** Joining separator-free fields and splitting again gives the fields back. */
  lemma {:induction false} SplitJoin(parts: seq<string>, sep: char)
    requires |parts| >= 1
    requires forall i :: 0 <= i < |parts| ==> sep !in parts[i]
    ensures Split(Join(parts, sep), sep) == parts
  {
    if |parts| == 1 {
      SplitNoSep(parts[0], sep);
    } else {
      SplitJoin(parts[1..], sep);
      SplitAfterField(parts[0], Join(parts[1..], sep), sep);
      assert [parts[0]] + parts[1..] == parts;
    }
  }

  /** String.split(sep) with Java's default limit: trailing empty fields are
      dropped, except that the empty string splits into one empty field. */
  function SplitTrimmed(s: string, sep: char): (parts: seq<string>)
    ensures |parts| <= |Split(s, sep)|
    ensures parts == Split(s, sep)[..|parts|]
    ensures s == "" ==> parts == [""]
    ensures s != "" && |parts| > 0 ==> parts[|parts| - 1] != ""
  {
    if s == "" then [""] else DropTrailingEmpty(Split(s, sep))
  }

  function DropTrailingEmpty(parts: seq<string>): (r: seq<string>)
    ensures |r| <= |parts| && r == parts[..|r|]
    ensures |r| > 0 ==> r[|r| - 1] != ""
    ensures forall i :: |r| <= i < |parts| ==> parts[i] == ""
  {
    if |parts| > 0 && parts[|parts| - 1] == "" then DropTrailingEmpty(parts[..|parts| - 1]) else parts
  }

  /** When the last field is not empty, the default-limit split keeps every field. */
  lemma SplitTrimmedKeepsAll(s: string, sep: char)
    requires Split(s, sep)[|Split(s, sep)| - 1] != ""
    ensures SplitTrimmed(s, sep) == Split(s, sep)
  {
  }

  /** A string without the separator is its own only field. */
  lemma SplitTrimmedNoSep(s: string, sep: char)
    requires sep !in s
    ensures SplitTrimmed(s, sep) == [s]
  {
    if s != "" {
      SplitNoSep(s, sep);
      SplitTrimmedKeepsAll(s, sep);
    }
  }

  predicate IsDigit(c: char) {
    '0' <= c <= '9'
  }

  predicate AllDigits(s: string) {
    forall i :: 0 <= i < |s| ==> IsDigit(s[i])
  }

  function DigitChar(d: nat): (c: char)
    requires d < 10
    ensures IsDigit(c)
  {
    ('0' as int + d) as char
  }

  /** The value of a string of decimal digits, most significant first. */
  function DigitsValue(s: string): nat
    requires AllDigits(s)
  {
    if |s| == 0 then 0
    else DigitsValue(s[..|s| - 1]) * 10 + (s[|s| - 1] as int - '0' as int)
  }

  /** Integer.toString for a non-negative value. */
  function NatToString(n: nat): (s: string)
    ensures |s| >= 1 && AllDigits(s)
    ensures ',' !in s
  {
    if n < 10 then [DigitChar(n)] else NatToString(n / 10) + [DigitChar(n % 10)]
  }

  /** Reading back a rendered number gives the number. */
  lemma {:induction false} DigitsValueOfNatToString(n: nat)
    ensures DigitsValue(NatToString(n)) == n
  {
    if n >= 10 {
      var s := NatToString(n);
      DigitsValueOfNatToString(n / 10);
      assert s[..|s| - 1] == NatToString(n / 10);
    }
  }

  /** Integer.valueOf / Integer.parseInt on ASCII input: an optional sign,
      at least one digit, and a value inside the 32-bit range; anything else
      raises NumberFormatException, modelled as None. */
  function ParseInt(s: string): (r: Option<int>)
    ensures r.Some? ==> MinInt <= r.value <= MaxInt
    ensures r.Some? ==> |s| >= 1
    ensures AllDigits(s) && |s| >= 1 && DigitsValue(s) <= MaxInt ==> r == Some(DigitsValue(s))
  {
    if |s| == 0 then None
    else if s[0] == '-' || s[0] == '+' then
      if |s| == 1 || !AllDigits(s[1..]) then None
      else
        var d: int := DigitsValue(s[1..]);
        var v := if s[0] == '-' then -d else d;
        if MinInt <= v <= MaxInt then Some(v) else None
    else if !AllDigits(s) then None
    else if DigitsValue(s) <= MaxInt then Some(DigitsValue(s))
    else None
  }

  lemma ParseNatToString(n: nat)
    requires n <= MaxInt
    ensures ParseInt(NatToString(n)) == Some(n)
  {
    DigitsValueOfNatToString(n);
  }

  /** The comma-joined decimal rendering of a list of ids, as the loader
      writes a user-item pair key or a context situation key. */
  function IdsKey(ids: seq<nat>): (key: string)
    ensures |ids| >= 1 ==> |key| >= 1
  {
    Join(Renders(ids), ',')
  }

  function Renders(ids: seq<nat>): (parts: seq<string>)
    ensures |parts| == |ids|
    ensures forall i :: 0 <= i < |ids| ==> parts[i] == NatToString(ids[i])
  {
    seq(|ids|, i requires 0 <= i < |ids| => NatToString(ids[i]))
  }

  /** Integer.valueOf applied to every comma-separated field of a key
      (String.split(",") with the default limit); None when any field is not
      a number, including the single empty field of the empty key. */
  function ParseIds(key: string): (r: Option<seq<int>>)
    ensures key == "" ==> r == None
  {
    ParseAll(SplitTrimmed(key, ','))
  }

  function ParseAll(fields: seq<string>): (r: Option<seq<int>>)
    ensures r.Some? ==> |r.value| == |fields|
    ensures r.Some? <==> forall i :: 0 <= i < |fields| ==> ParseInt(fields[i]).Some?
    ensures r.Some? ==> forall i :: 0 <= i < |fields| ==> r.value[i] == ParseInt(fields[i]).value
  {
    if |fields| == 0 then Some([])
    else
      match ParseInt(fields[0])
      case None => None
      case Some(v) =>
        match ParseAll(fields[1..])
        case None => None
        case Some(vs) => Some([v] + vs)
  }

  /** Round trip of identifier keys: a non-empty list of 32-bit ids, once
      joined, parses back to the same list. The empty list gives the empty
      key, which does not parse. */
  lemma ParseIdsKey(ids: seq<nat>)
    requires forall i :: 0 <= i < |ids| ==> ids[i] <= MaxInt
    ensures |ids| >= 1 ==> ParseIds(IdsKey(ids)) == Some(ids)
    ensures |ids| == 0 ==> ParseIds(IdsKey(ids)) == None
  {
    if |ids| >= 1 {
      var parts := Renders(ids);
      SplitJoin(parts, ',');
      SplitTrimmedKeepsAll(IdsKey(ids), ',');
      assert SplitTrimmed(IdsKey(ids), ',') == parts;
      ParseRenders(ids);
    }
  }

  lemma ParseRenders(ids: seq<nat>)
    requires forall i :: 0 <= i < |ids| ==> ids[i] <= MaxInt
    ensures ParseAll(Renders(ids)) == Some(ids)
  {
    var rs := Renders(ids);
    forall i | 0 <= i < |ids|
      ensures ParseInt(rs[i]) == Some(ids[i])
    {
      ParseNatToString(ids[i]);
    }
    var r := ParseAll(rs);
    assert r.Some?;
    assert forall i :: 0 <= i < |ids| ==> r.value[i] == ids[i];
    assert r.value == ids;
  }

  /** Distinct id lists give distinct keys (no bound on the ids needed). */
  lemma IdsKeyInjective(a: seq<nat>, b: seq<nat>)
    requires IdsKey(a) == IdsKey(b)
    ensures a == b
  {
    if |a| == 0 || |b| == 0 {
      assert |a| == 0 && |b| == 0;
    } else {
      SplitJoin(Renders(a), ',');
      SplitJoin(Renders(b), ',');
      assert Renders(a) == Renders(b);
      forall i | 0 <= i < |a|
        ensures a[i] == b[i]
      {
        DigitsValueOfNatToString(a[i]);
        DigitsValueOfNatToString(b[i]);
      }
    }
  }

  /** A key holds only digits and commas. */
  lemma {:induction false} IdsKeyChars(ids: seq<nat>)
    ensures forall i :: 0 <= i < |IdsKey(ids)| ==> IsDigit(IdsKey(ids)[i]) || IdsKey(ids)[i] == ','
  {
    JoinChars(Renders(ids));
  }

  lemma {:induction false} JoinChars(parts: seq<string>)
    requires forall k :: 0 <= k < |parts| ==> AllDigits(parts[k])
    ensures forall i :: 0 <= i < |Join(parts, ',')| ==> IsDigit(Join(parts, ',')[i]) || Join(parts, ',')[i] == ','
  {
    if |parts| > 1 {
      JoinChars(parts[1..]);
    }
  }

  /** The key of a user-item pair: inner user id, a comma, inner item id. */
  function PairKey(u: nat, i: nat): string {
    NatToString(u) + "," + NatToString(i)
  }

  lemma JoinTwo(a: string, b: string)
    ensures Join([a, b], ',') == a + "," + b
  {
    assert [a, b][1..] == [b];
  }

  /** Distinct pairs of ids give distinct pair keys. */
  lemma PairKeyInjective(u: nat, i: nat, u2: nat, i2: nat)
    requires PairKey(u, i) == PairKey(u2, i2)
    ensures u == u2 && i == i2
  {
    assert Renders([u, i]) == [NatToString(u), NatToString(i)];
    assert Renders([u2, i2]) == [NatToString(u2), NatToString(i2)];
    JoinTwo(NatToString(u), NatToString(i));
    JoinTwo(NatToString(u2), NatToString(i2));
    IdsKeyInjective([u, i], [u2, i2]);
  }

  /** String.endsWith. */
  predicate EndsWith(s: string, suffix: string) {
    |suffix| <= |s| && s[|s| - |suffix|..] == suffix
  }
}
