/** The normal form of an IPv6 address, computed on an array of fields. */
module Ipv6 {
  import opened Prelude
  import opened UrlText
  import opened Segments
  import opened Ipv6Text
  import opened Ipv6Meaning
  import opened Ipv6Valid

  // ---------------------------------------------------------------- groups

  predicate IsIpv6(s: Bytes)
  {
    2 <= |s| <= 254 && forall i: nat :: i < |s| ==> s[i] == COLON || s[i] == DOT || IsHexDigit(s[i])
  }

  method IsIpv6Text(s: Bytes) returns (ok: bool)
    ensures ok <==> IsIpv6(s)
  {
    hide IsHexDigit;
    if |s| < 2 || |s| > 254 {
      return false;
    }
    for k := 0 to |s|
      invariant forall i: nat :: i < k ==> s[i] == COLON || s[i] == DOT || IsHexDigit(s[i])
    {
      if s[k] != COLON && s[k] != DOT && !IsHexDigit(s[k]) {
        return false;
      }
    }
    return true;
  }

  /** The groups that are kept of a text: all but the last if there are more than eight. */
  function Kept(ps: seq<Bytes>): (ts: seq<Bytes>)
    requires ps != []
    ensures ts != [] && |ts| <= |ps|
  {
    if |ps| <= 8 then ps else ps[..|ps| - 1]
  }

  /** The groups between colons, at most ten of them, and where the last one kept begins. */
  method SplitGroups(t: Bytes) returns (r: Option<seq<Bytes>>, last: nat)
    ensures last <= |t|
    ensures var ps := Pieces(t, COLON);
            && r == (if |ps| > 10 then None else Some(Kept(ps)))
            && (r.Some? ==> t[last..] == Join(ps[|Kept(ps)| - 1..], COLON))
  {
    hide Pieces, Join;
    var tokens: seq<Bytes>, b, p := [], 0, 0;
    last := 0;
    assert t[0..] == t;
    ghost var ps := Pieces(t, COLON);
    while p < |t|
      invariant 0 <= b <= p <= |t| && last <= b && |tokens| <= 9
      invariant ps == tokens + Pieces(t[b..], COLON)
      invariant tokens != [] ==> Pieces(t[last..], COLON) == [tokens[|tokens| - 1]] + Pieces(t[b..], COLON)
      invariant forall i: nat :: b <= i < p ==> t[i] != COLON
    {
      if t[p] == COLON {
        FirstOfIs(t[b..], [COLON], p - b);
        PiecesFrom(t, b, p - b, COLON);
        if |tokens| + 1 >= 10 {
          return None, last;
        }
        Assoc(tokens, [t[b..p]], Pieces(t[p + 1..], COLON));
        tokens, last := tokens + [t[b..p]], b;
        b := p + 1;
      }
      p := p + 1;
    }
    LastGroup(t, tokens, last, b);
    if |tokens| < 8 {
      tokens, last := tokens + [t[b..]], b;
    }
    return Some(tokens), last;
  }

  /** What is left after the last colon is one more group, kept if it is one of the first eight. */
  lemma LastGroup(t: Bytes, tokens: seq<Bytes>, last: nat, b: nat)
    requires last <= b <= |t| && Lacks(t[b..], COLON)
    requires Pieces(t, COLON) == tokens + Pieces(t[b..], COLON)
    requires tokens != [] ==> Pieces(t[last..], COLON) == [tokens[|tokens| - 1]] + Pieces(t[b..], COLON)
    ensures var ps := Pieces(t, COLON);
            && |ps| == |tokens| + 1
            && Kept(ps) == (if |tokens| < 8 then tokens + [t[b..]] else tokens)
            && t[if |tokens| < 8 then b else last..] == Join(ps[|Kept(ps)| - 1..], COLON)
  {
    hide Pieces, Join;
    var ps := Pieces(t, COLON);
    OnlyPiece(t[b..], COLON);
    JoinPieces(t[b..], COLON);
    JoinPieces(t[last..], COLON);
    if |tokens| < 8 {
      assert ps[|tokens|..] == [t[b..]];
    } else {
      assert ps[..|tokens|] == tokens;
      assert ps[|tokens| - 1..] == Pieces(t[last..], COLON);
    }
  }

  function NonEmpty(ts: seq<Bytes>): seq<Bytes>
  {
    if ts == [] then []
    else if ts[|ts| - 1] == [] then NonEmpty(ts[..|ts| - 1])
    else NonEmpty(ts[..|ts| - 1]) + [ts[|ts| - 1]]
  }

  function LastNull(ts: seq<Bytes>): nat
  {
    if ts == [] then 8 else if ts[|ts| - 1] == [] then |ts| - 1 else LastNull(ts[..|ts| - 1])
  }

  method HexField(t: Bytes) returns (field: word)
    requires t != []
    ensures field == HexOf(t)
  {
    hide HexShift;
    field := HexShift(0, t[0]);
    assert t[..1][..0] == [];
    var k := 1;
    while k < |t|
      invariant 1 <= k <= |t| && field == HexOf(t[..k])
    {
      assert t[..k + 1][..k] == t[..k];
      field := HexShift(field, t[k]);
      k := k + 1;
    }
    assert t[..k] == t;
  }

  lemma ValuesOneMore(ts: seq<Bytes>, t: Bytes)
    ensures Values(ts + [t]) == Values(ts) + [HexOf(t)]
  {
    hide HexOf;
  }

  /** The groups as fields, and the place of the empty one; too many are refused. */
  method DecodeFields(tokens: seq<Bytes>, fields: array<word>) returns (ok: bool, n: nat, nullPos: nat)
    requires fields.Length == 8
    modifies fields
    ensures ok <==> |NonEmpty(tokens)| <= 8
    ensures ok ==> n == |NonEmpty(tokens)| && fields[..n] == Values(NonEmpty(tokens)) && nullPos == LastNull(tokens)
  {
    hide HexOf, Values;
    nullPos, n := 8, 0;
    NoValues();
    var i := 0;
    while i < |tokens|
      invariant i <= |tokens| && n == |NonEmpty(tokens[..i])| <= 8
      invariant nullPos == LastNull(tokens[..i]) && fields[..n] == Values(NonEmpty(tokens[..i]))
    {
      var done := tokens[..i];
      assert tokens[..i + 1][..i] == done;
      if tokens[i] == [] {
        nullPos := i;
      } else {
        if n >= 8 {
          NonEmptyGrows(tokens, i + 1);
          return false, n, nullPos;
        }
        var field := HexField(tokens[i]);
        ValuesOneMore(NonEmpty(done), tokens[i]);
        ghost var before := fields[..n];
        fields[n] := field;
        assert fields[..n + 1] == before + [field];
        n := n + 1;
      }
      i := i + 1;
    }
    assert tokens[..i] == tokens;
    return true, n, nullPos;
  }

  lemma NoValues()
    ensures Values([]) == []
  {
  }

  lemma {:induction false} NonEmptyGrows(ts: seq<Bytes>, k: nat)
    requires k <= |ts|
    ensures |NonEmpty(ts[..k])| <= |NonEmpty(ts)|
    decreases |ts|
  {
    if k == |ts| {
      assert ts[..k] == ts;
    } else {
      var init := ts[..|ts| - 1];
      assert init[..k] == ts[..k];
      NonEmptyGrows(init, k);
    }
  }

  // ---------------------------------------------------------------- zeros in place

  /** The last fields move to the end, from the last one on. */
  method MoveBack(fields: array<word>, n: nat, nullPos: nat, room: nat)
    requires nullPos <= n < room <= fields.Length
    modifies fields
    ensures fields[..nullPos] == old(fields[..nullPos])
    ensures fields[room - (n - nullPos)..room] == old(fields[nullPos..n])
  {
    var i, last := n, room;
    ghost var shift := room - n;
    while i != nullPos
      invariant nullPos <= i <= n && last == i + shift
      invariant forall j: nat :: j < i ==> fields[j] == old(fields[j])
      invariant forall j: nat :: last <= j < room ==> fields[j] == old(fields[j - shift])
      decreases i
    {
      last, i := last - 1, i - 1;
      fields[last] := fields[i];
    }
    assert last == room - (n - nullPos);
    forall j: nat | j < n - nullPos ensures fields[last..room][j] == old(fields[nullPos..n])[j] {
      assert fields[last + j] == old(fields[nullPos + j]);
    }
  }

  method PutZeros(fields: array<word>, nullPos: nat, end: nat)
    requires nullPos < end <= fields.Length
    modifies fields
    ensures fields[nullPos..end] == Zeros(end - nullPos)
    ensures fields[..nullPos] == old(fields[..nullPos]) && fields[end..] == old(fields[end..])
  {
    var last := end;
    while last != nullPos
      invariant nullPos <= last <= end
      invariant forall j: nat :: last <= j < end ==> fields[j] == 0
      invariant forall j: nat :: j < nullPos || end <= j < fields.Length ==> fields[j] == old(fields[j])
      decreases last
    {
      last := last - 1;
      fields[last] := 0;
    }
  }

  /** The fields behind the gap move to the end, and zeros take their place. */
  method Expand(fields: array<word>, n: nat, nullPos: nat, room: nat)
    requires nullPos <= n < room <= fields.Length
    modifies fields
    ensures fields[..room] == old(fields[..nullPos]) + Zeros(room - n) + old(fields[nullPos..n])
  {
    var end := room - (n - nullPos);
    MoveBack(fields, n, nullPos, room);
    ghost var moved := fields[end..];
    assert moved[..room - end] == fields[end..room];
    PutZeros(fields, nullPos, end);
    assert fields[end..room] == fields[end..][..room - end];
    assert fields[..room] == fields[..nullPos] + fields[nullPos..end] + fields[end..room];
  }

  // ---------------------------------------------------------------- the longest run

  /** The best run that starts before i. */
  ghost predicate Best(fs: seq<word>, i: nat, pos: nat, len: nat)
  {
    i <= |fs| &&
    if len == 0 then pos == |fs| && forall j: nat :: j < i ==> fs[j] != 0
    else pos < i && len == Run(fs, pos) &&
         forall q: nat :: q < i ==> Run(fs, q) <= len && (Run(fs, q) == len ==> pos <= q)
  }

  lemma {:induction false} RunInside(fs: seq<word>, q: nat, i: nat)
    requires q <= i <= |fs| && (forall j: nat :: q <= j < i ==> fs[j] == 0) && (i < |fs| ==> fs[i] != 0)
    ensures Run(fs, q) == i - q
    decreases i - q
  {
    if q < i {
      RunInside(fs, q + 1, i);
    }
  }

  lemma BestNonZero(fs: seq<word>, i: nat, pos: nat, len: nat)
    requires Best(fs, i, pos, len) && i < |fs| && fs[i] != 0
    ensures Best(fs, i + 1, pos, len)
  {
    assert Run(fs, i) == 0;
  }

  lemma BestAfterRun(fs: seq<word>, first: nat, i: nat, pos: nat, len: nat)
    requires Best(fs, first, pos, len) && first < i <= |fs|
    requires (forall j: nat :: first <= j < i ==> fs[j] == 0) && (i < |fs| ==> fs[i] != 0)
    ensures if i - first > len then Best(fs, i, first, i - first) else Best(fs, i, pos, len)
  {
    hide Run;
    forall q: nat | first <= q < i ensures Run(fs, q) == i - q {
      RunInside(fs, q, i);
    }
    if len == 0 {
      forall q: nat | q < first ensures Run(fs, q) == 0 {
        RunInside(fs, q, q);
      }
    }
  }

  lemma BestIsLongest(fs: seq<word>, pos: nat, len: nat)
    requires Best(fs, |fs|, pos, len)
    ensures var p := Longest(fs, 0);
            len == Run(fs, p) && (len > 0 ==> pos == p) && (len == 0 ==> pos == |fs|)
  {
    hide Longest;
    var p := Longest(fs, 0);
    assert Run(fs, |fs|) == 0;
  }

  method FindRun(fields: array<word>, room: nat) returns (nullPos: nat, nullLen: nat)
    requires room <= fields.Length
    ensures var fs := fields[..room];
            var p := Longest(fs, 0);
            nullLen == Run(fs, p) && nullPos == if nullLen == 0 then room else p
  {
    hide Run, Longest, Best;
    var i, first := 0, 0;
    nullLen, nullPos := 0, room;
    ghost var fs := fields[..room];
    assert Best(fs, 0, nullPos, nullLen) by { BestOfNone(fs); }
    while i < room
      invariant i <= room && Best(fs, i, nullPos, nullLen)
    {
      while i < room && fields[i] != 0
        invariant i <= room && Best(fs, i, nullPos, nullLen)
      {
        BestNonZero(fs, i, nullPos, nullLen);
        i := i + 1;
      }
      if i == room {
        break;
      }
      first := i;
      while i < room && fields[i] == 0
        invariant first <= i <= room && forall j: nat :: first <= j < i ==> fs[j] == 0
        invariant i == first ==> fields[i] == 0
      {
        i := i + 1;
      }
      BestAfterRun(fs, first, i, nullPos, nullLen);
      if i - first > nullLen {
        nullPos, nullLen := first, i - first;
      }
    }
    BestIsLongest(fs, nullPos, nullLen);
  }

  lemma BestOfNone(fs: seq<word>)
    ensures Best(fs, 0, |fs|, 0)
  {
  }

  // ---------------------------------------------------------------- writing

  /** A colon before each group. */
  function Colons(ts: seq<Bytes>): Bytes
  {
    if ts == [] then [] else Colons(ts[..|ts| - 1]) + [COLON] + ts[|ts| - 1]
  }

  function Rest(fs: seq<word>, k: nat): seq<word> { if k <= |fs| then fs[k..] else [] }

  /** What is written for a gap of this length at this place. */
  function Written(fs: seq<word>, pos: nat, len: nat, tail: Bytes): Bytes
    requires pos <= |fs|
  {
    (if pos == 0 then [COLON]
     else Join(Hexes(fs[..pos]), COLON) + (if pos < |fs| then [COLON] else []) +
          (if pos + len == 8 && len != 0 then [COLON] else [])) +
    Colons(Hexes(Rest(fs, pos + len)) + TailGroup(tail))
  }

  lemma HexesOneMore(fs: seq<word>, f: word)
    ensures Hexes(fs + [f]) == Hexes(fs) + [Hex(f)]
  {
    hide Hex;
  }

  /** The first fields with colons between them. */
  method WriteFields(fields: array<word>, n: nat) returns (str: Bytes)
    requires 1 <= n <= fields.Length
    ensures str == Join(Hexes(fields[..n]), COLON)
  {
    hide Hex, Join;
    str := Hex(fields[0]);
    assert Join([Hex(fields[0])], COLON) == Hex(fields[0]) by { JoinOne(Hex(fields[0])); }
    assert Hexes(fields[..1]) == [Hex(fields[0])];
    var i := 1;
    while i < n
      invariant 1 <= i <= n && str == Join(Hexes(fields[..i]), COLON)
    {
      assert fields[..i + 1] == fields[..i] + [fields[i]];
      HexesOneMore(fields[..i], fields[i]);
      JoinOneMore(Hexes(fields[..i]), Hex(fields[i]), COLON);
      str := str + [COLON] + Hex(fields[i]);
      i := i + 1;
    }
  }

  lemma JoinOne(t: Bytes)
    ensures Join([t], COLON) == t
  {
  }

  lemma ColonsOneMore(ts: seq<Bytes>, t: Bytes)
    ensures Colons(ts + [t]) == Colons(ts) + [COLON] + t
  {
    assert (ts + [t])[..|ts|] == ts;
  }

  /** The fields from k on, each with a colon before it. */
  method WriteRest(fields: array<word>, k: nat, room: nat) returns (str: Bytes)
    requires room <= fields.Length
    ensures str == Colons(Hexes(Rest(fields[..room], k)))
  {
    hide Hex, Colons;
    str := [];
    assert Colons([]) == [] by { NoColons(); }
    var i := k;
    while i < room
      invariant k <= i && (i <= room || i == k)
      invariant str == Colons(Hexes(if k <= room then fields[k..i] else []))
    {
      assert fields[k..i + 1] == fields[k..i] + [fields[i]];
      HexesOneMore(fields[k..i], fields[i]);
      ColonsOneMore(Hexes(fields[k..i]), Hex(fields[i]));
      str := str + [COLON] + Hex(fields[i]);
      i := i + 1;
    }
    assert k <= room ==> fields[..room][k..] == fields[k..room];
  }

  lemma NoColons()
    ensures Colons([]) == [] && Hexes([]) == []
  {
  }

  method Write(fields: array<word>, room: nat, nullPos: nat, nullLen: nat, tail: Bytes) returns (str: Bytes)
    requires 1 <= room <= fields.Length && nullPos <= room
    ensures str == Written(fields[..room], nullPos, nullLen, tail)
  {
    hide Hexes, Colons, Join;
    if nullPos == 0 {
      str := [COLON];
    } else {
      str := WriteFields(fields, nullPos);
      assert fields[..room][..nullPos] == fields[..nullPos];
      str := str + (if nullPos < room then [COLON] else []);
      str := str + (if nullPos + nullLen == 8 && nullLen != 0 then [COLON] else []);
    }
    var rest := WriteRest(fields, nullPos + nullLen, room);
    ghost var groups := Hexes(Rest(fields[..room], nullPos + nullLen));
    if tail != [] {
      ColonsOneMore(groups, tail);
      rest := rest + [COLON] + tail;
    } else {
      assert groups + [] == groups;
    }
    str := str + rest;
  }

  // ---------------------------------------------------------------- what is written

  lemma {:induction false} ColonsJoin(ts: seq<Bytes>)
    requires ts != []
    ensures Colons(ts) == [COLON] + Join(ts, COLON)
    decreases |ts|
  {
    var init, t := ts[..|ts| - 1], ts[|ts| - 1];
    assert ts == init + [t];
    if init == [] {
      JoinOne(t);
      NoColons();
    } else {
      ColonsJoin(init);
      JoinOneMore(init, t, COLON);
      var x := Join(init, COLON);
      Assoc([COLON], x + [COLON], t);
      Assoc([COLON], x, [COLON]);
    }
  }

  /** The place and the length of the gap as the code has them: a single zero is not left out. */
  function GapPos(fs: seq<word>): nat
  {
    var p := Longest(fs, 0);
    if Run(fs, p) < 2 then |fs| else p
  }

  function GapLen(fs: seq<word>): nat { Run(fs, Longest(fs, 0)) }

  /** All zeros in full: the code writes one colon only. */
  ghost function Encoded(a: Address): Bytes
  {
    if AllZero(a) then [COLON] else Format(a)
  }

  lemma NoGapWritten(a: Address)
    requires IsAddress(a) && GapLen(a.fields) < 2
    ensures Written(a.fields, GapPos(a.fields), GapLen(a.fields), a.tail) == Format(a)
  {
    hide Hex, Longest, Run, Colons, Join;
    var fs := a.fields;
    var hs, ts := Hexes(fs), TailGroup(a.tail);
    TailIsFull(a);
    assert fs[..|fs|] == fs;
    NoColons();
    assert Hexes(Rest(fs, |fs| + GapLen(fs))) == [] && [] + ts == ts;
    if a.tail == [] {
      assert hs + ts == hs;
    } else {
      ColonsJoin(ts);
      JoinAppend(hs, ts);
      Assoc(Join(hs, COLON), [COLON], Join(ts, COLON));
    }
  }

  lemma GapAtStart(fs: seq<word>, n: nat, tail: Bytes)
    requires n <= |fs|
    ensures var r := Hexes(fs[n..]) + TailGroup(tail);
            Written(fs, 0, n, tail) == if r == [] then [COLON] else DOUBLE_COLON + Join(r, COLON)
  {
    hide Hexes, Colons, Join, TailGroup;
    var r := Hexes(fs[n..]) + TailGroup(tail);
    NoColons();
    if r != [] {
      ColonsJoin(r);
      TwoColons([], Join(r, COLON));
      assert [] + DOUBLE_COLON == DOUBLE_COLON;
    }
  }

  lemma GapInside(fs: seq<word>, p: nat, n: nat, tail: Bytes)
    requires 0 < p && 2 <= n && p + n <= |fs| == Room(tail)
    ensures var r := Hexes(fs[p + n..]) + TailGroup(tail);
            Written(fs, p, n, tail) == Join(Hexes(fs[..p]), COLON) + DOUBLE_COLON + Join(r, COLON)
  {
    hide Hex, Colons, Join;
    var x, r := Join(Hexes(fs[..p]), COLON), Hexes(fs[p + n..]) + TailGroup(tail);
    NoColons();
    JoinNothing();
    TwoColons(x, Join(r, COLON));
    if r != [] {
      ColonsJoin(r);
    }
  }

  lemma GapFormat(a: Address)
    requires GapLen(a.fields) >= 2
    ensures var p, n := GapPos(a.fields), GapLen(a.fields);
            p + n <= |a.fields| &&
            Format(a) == Join(Hexes(a.fields[..p]), COLON) + DOUBLE_COLON +
                         Join(Hexes(a.fields[p + n..]) + TailGroup(a.tail), COLON)
  {
    hide Hexes, Longest, Join;
  }

  lemma GapWritten(a: Address)
    requires IsAddress(a) && GapLen(a.fields) >= 2
    ensures Written(a.fields, GapPos(a.fields), GapLen(a.fields), a.tail) == Encoded(a)
  {
    hide Hexes, Written, Join, AllZero, IsAddress, Format, GapPos, GapLen;
    var fs := a.fields;
    var p, n := GapPos(fs), GapLen(fs);
    TailIsFull(a);
    ZerosOnly(a);
    GapFormat(a);
    if p == 0 {
      GapAtStart(fs, n, a.tail);
      NoHexes(fs);
    } else {
      GapInside(fs, p, n, a.tail);
    }
  }

  lemma NoHexes(fs: seq<word>)
    ensures Join(Hexes(fs[..0]), COLON) + DOUBLE_COLON == DOUBLE_COLON
  {
    JoinNothing();
  }

  lemma TwoColons(x: Bytes, y: Bytes)
    ensures x + DOUBLE_COLON + y == x + [COLON] + [] + ([COLON] + y)
    ensures [] + DOUBLE_COLON + y == [COLON] + ([COLON] + y)
    ensures x + DOUBLE_COLON + [] == x + [COLON] + [COLON] + []
  {
  }

  lemma ZerosOnly(a: Address)
    requires IsAddress(a)
    ensures AllZero(a) <==> a.tail == [] && GapLen(a.fields) == |a.fields|
    ensures AllZero(a) ==> GapPos(a.fields) == 0
  {
    hide Longest;
    var fs := a.fields;
    if AllZero(a) {
      AllZeroRun(fs, 0);
    }
  }

  lemma WrittenIsEncoded(a: Address)
    requires IsAddress(a)
    ensures Written(a.fields, GapPos(a.fields), GapLen(a.fields), a.tail) == Encoded(a)
  {
    hide Written, Format, Longest, Run;
    if GapLen(a.fields) < 2 {
      NoGapWritten(a);
      TailIsFull(a);
      ZerosOnly(a);
    } else {
      GapWritten(a);
    }
  }

  // ---------------------------------------------------------------- the normal form

  ghost function NormalForm(s: Bytes): Bytes
    requires |s| >= 2
  {
    if s == DOUBLE_COLON then s else Encoded(Denote(s))
  }

  /** A text that normalizing is meant for. */
  ghost predicate Sound(s: Bytes)
  {
    IsIpv6(s) && (s == DOUBLE_COLON || Legal(Tokens(s)))
  }

  lemma {:induction false} NonEmptyOfFull(ts: seq<Bytes>)
    requires Nulls(ts) == 0
    ensures NonEmpty(ts) == ts && LastNull(ts) == 8
    decreases |ts|
  {
    if ts != [] {
      var init, t := ts[..|ts| - 1], ts[|ts| - 1];
      assert ts == init + [t];
      NullsAdd(init, [t]);
      NullsOfOne(t);
      NonEmptyOfFull(init);
    }
  }

  lemma {:induction false} NullsAdd(a: seq<Bytes>, b: seq<Bytes>)
    ensures Nulls(a + b) == Nulls(a) + Nulls(b)
  {
    if a == [] {
      assert a + b == b;
    } else {
      assert (a + b)[1..] == a[1..] + b;
      NullsAdd(a[1..], b);
    }
  }

  lemma {:induction false} NonEmptyOfGap(l: seq<Bytes>, r: seq<Bytes>)
    requires Nulls(l) == 0 && Nulls(r) == 0
    ensures NonEmpty(l + [[]] + r) == l + r && LastNull(l + [[]] + r) == |l|
    decreases |r|
  {
    var ts := l + [[]] + r;
    var init := ts[..|ts| - 1];
    if r == [] {
      assert init == l && ts[|ts| - 1] == [];
      NonEmptyOfFull(l);
      assert l + r == l;
    } else {
      var r', t := r[..|r| - 1], r[|r| - 1];
      assert r == r' + [t] && init == l + [[]] + r' && ts[|ts| - 1] == t;
      NullsAdd(r', [t]);
      NullsOfOne(t);
      NonEmptyOfGap(l, r');
      assert l + r' + [t] == l + r;
    }
  }

  lemma SplitFirst(ts: seq<Bytes>)
    requires ts != []
    ensures ts[0] != [] ==> Left(ts) == [ts[0]] + Left(ts[1..]) && Right(ts) == Right(ts[1..])
    ensures ts[0] == [] ==> Left(ts) == [] && Right(ts) == ts[1..]
  {
    var k := NullAt(ts[1..]);
    if ts[0] != [] {
      assert ts[..k + 1] == [ts[0]] + ts[1..][..k];
      assert k < |ts[1..]| ==> ts[k + 2..] == ts[1..][k + 1..];
    }
  }

  lemma {:induction false} NullAtSplits(ts: seq<Bytes>)
    ensures Nulls(Left(ts)) == 0
    ensures Nulls(ts) == 0 ==> Left(ts) == ts && Right(ts) == []
    ensures Nulls(ts) > 0 ==> ts == Left(ts) + [[]] + Right(ts) && Nulls(Right(ts)) == Nulls(ts) - 1
  {
    if ts != [] {
      hide Left, Right;
      var t, rest := ts[0], ts[1..];
      assert ts == [t] + rest;
      SplitFirst(ts);
      if t != [] {
        NullAtSplits(rest);
        NullsAdd([t], Left(rest));
        NullsOfOne(t);
      }
    }
  }

  lemma ValuesAppend(a: seq<Bytes>, b: seq<Bytes>)
    ensures Values(a + b) == Values(a) + Values(b)
  {
    hide HexOf;
  }

  /** What decoding and expanding amount to on the groups of an address. */
  lemma LegalFields(body: seq<Bytes>)
    requires Nulls(body) <= 1
    ensures var l, r := Left(body), Right(body);
            && NonEmpty(body) == l + r && Values(NonEmpty(body)) == Values(l) + Values(r)
            && (Nulls(body) == 1 ==> LastNull(body) == |l|) && |l| + |r| + Nulls(body) == |body|
  {
    hide HexOf, Values, Left, Right;
    NullAtSplits(body);
    var l, r := Left(body), Right(body);
    if Nulls(body) == 0 {
      NonEmptyOfFull(body);
      assert l + r == body;
    } else {
      NonEmptyOfGap(l, r);
    }
    ValuesAppend(l, r);
  }

  lemma LegalSizes(ts: seq<Bytes>)
    requires Legal(ts)
    ensures |ts| <= 8 && (|ts[|ts| - 1]| > 5 <==> HasDot(ts[|ts| - 1]))
    ensures var body, room := Body(ts), Room(TailOf(ts));
            Nulls(body) <= 1 && |NonEmpty(body)| <= room && (|NonEmpty(body)| < room ==> Nulls(body) == 1)
  {
    hide IsTail, HasDot, NonEmpty, Left, Right, Nulls;
    var t := ts[|ts| - 1];
    LegalFields(Body(ts));
    EmptyHasNoDot();
    if HasDot(t) {
      TailShape(t);
    } else {
      assert t == [] || IsGroup(t) by { assert Body(ts)[|ts| - 1] == t; }
    }
  }

  lemma MeaningIsAddress(ts: seq<Bytes>)
    requires Legal(ts)
    ensures IsAddress(Meaning(ts)) && Meaning(ts).tail == TailOf(ts)
  {
    hide IsTail, HasDot, Left, Right, Nulls, Values;
    LegalFields(Body(ts));
  }

  lemma NotTailless(ts: seq<Bytes>)
    requires Legal(ts)
    ensures TailOf(ts) == [] <==> !HasDot(ts[|ts| - 1])
  {
    EmptyHasNoDot();
  }

  /** The fields that groups give: zeros at the last empty group, if there are too few. */
  function FieldsOf(body: seq<Bytes>, room: nat): (r: Option<seq<word>>)
    ensures r.Some? ==> |r.value| == room
  {
    var vs, k := Values(NonEmpty(body)), LastNull(body);
    if |vs| > 8 || (|vs| < room && |vs| < k) then None
    else if |vs| < room then Some(vs[..k] + Zeros(room - |vs|) + vs[k..])
    else Some(vs[..room])
  }

  lemma LegalFieldsOf(body: seq<Bytes>, room: nat)
    requires room <= 8
    requires Nulls(body) <= 1 && |NonEmpty(body)| <= room && (|NonEmpty(body)| < room ==> Nulls(body) == 1)
    ensures FieldsOf(body, room) == Some(Fill(Values(Left(body)), Values(Right(body)), room))
  {
    hide NonEmpty, LastNull, Values, Left, Right, Nulls;
    LegalFields(body);
    var l, r := Values(Left(body)), Values(Right(body));
    var vs := Values(NonEmpty(body));
    if |vs| < room {
      assert vs[..|l|] == l && vs[|l|..] == r;
    } else {
      assert vs[..room] == vs && l + Zeros(0) + r == l + r;
    }
  }

  /** The groups become the fields, in an array of eight. */
  method ReadFields(body: seq<Bytes>, room: nat, fields: array<word>) returns (ok: bool)
    requires fields.Length == 8 && room <= 8
    modifies fields
    ensures ok <==> FieldsOf(body, room).Some?
    ensures ok ==> fields[..room] == FieldsOf(body, room).value
  {
    hide NonEmpty, LastNull, Values;
    var n: nat, nullPos: nat;
    ok, n, nullPos := DecodeFields(body, fields);
    if !ok {
      return false;
    }
    ghost var vs := fields[..n];
    if n < room {
      if n < nullPos {
        return false;
      }
      assert fields[..nullPos] == vs[..nullPos] && fields[nullPos..n] == vs[nullPos..];
      Expand(fields, n, nullPos, room);
    } else {
      assert fields[..room] == vs[..room];
    }
    return true;
  }

  /** What normalizing gives for any text: a last group longer than five characters is taken for an IPv4 address. */
  function NormalText(s: Bytes): Option<Bytes>
  {
    if !IsIpv6(s) then None
    else if s == DOUBLE_COLON then Some(s)
    else
      var ps := Tokens(s);
      if |ps| > 10 then None
      else
        var ts := Kept(ps);
        var end := Join(ps[|ts| - 1..], COLON);
        var tail := if |end| > 5 then end else [];
        match FieldsOf(if tail == [] then ts else ts[..|ts| - 1], Room(tail))
        case None => None
        case Some(fs) => Some(Written(fs, GapPos(fs), GapLen(fs), tail))
  }

  /** On the texts it is meant for, that is the normal form. */
  lemma NormalTextMeans(s: Bytes)
    requires Sound(s)
    ensures NormalText(s) == Some(NormalForm(s))
  {
    hide Legal, Tokens, NonEmpty, HasDot, IsTail, Left, Right, Values, Fill, GapPos, GapLen, Written, IsHexDigit, Join, FieldsOf,
         Encoded;
    if s != DOUBLE_COLON {
      var ts := Tokens(s);
      LegalSizes(ts);
      NotTailless(ts);
      MeaningIsAddress(ts);
      WrittenIsEncoded(Meaning(ts));
      LegalFieldsOf(Body(ts), Room(TailOf(ts)));
      assert ts[|ts| - 1..] == [ts[|ts| - 1]];
      JoinOne(ts[|ts| - 1]);
    }
  }

  method Normalize(s: Bytes) returns (r: Option<Bytes>)
    ensures r == NormalText(s)
    ensures Sound(s) ==> r == Some(NormalForm(s))
  {
    hide Legal, Pieces, FieldsOf, Longest, Run, Written, IsHexDigit, Join, NormalForm, Sound;
    if Sound(s) {
      NormalTextMeans(s);
    }
    var ok := IsIpv6Text(s);
    if !ok {
      return None;
    }
    if s == DOUBLE_COLON {
      return Some(s);
    }
    var p := if s[0] == COLON then 1 else 0;
    var e := if s[|s| - 1] == COLON then |s| - 1 else |s|;
    var inner := s[p..e];
    assert inner == Inner(s);
    var tokens, last := SplitGroups(inner);
    if tokens.None? {
      return None;
    }
    var body: seq<Bytes>, tail: Bytes := tokens.value, [];
    if |inner| - last > 5 {
      tail := inner[last..];
      body := body[..|body| - 1];
    }
    var fields := new word[8];
    var room := if tail == [] then 8 else 6;
    ok := ReadFields(body, room, fields);
    if !ok {
      return None;
    }
    var nullPos, nullLen := FindRun(fields, room);
    if nullLen == 1 {
      nullPos := room;
    }
    var text := Write(fields, room, nullPos, nullLen, tail);
    return Some(text);
  }

  // ---------------------------------------------------------------- what normalizing does

  lemma {:induction false} JoinChars(ts: seq<Bytes>)
    requires forall i: nat :: i < |ts| ==> GoodChars(ts[i])
    ensures GoodChars(Join(ts, COLON))
  {
    hide IsHexDigit;
    if ts != [] {
      JoinChars(ts[1..]);
    }
  }

  ghost predicate GoodChars(s: Bytes)
  {
    forall i: nat :: i < |s| ==> s[i] == COLON || s[i] == DOT || IsHexDigit(s[i])
  }

  lemma LegalChars(ts: seq<Bytes>)
    requires Legal(ts)
    ensures GoodChars(Join(ts, COLON))
  {
    hide IsHexDigit, IsTail, Nulls, Join;
    forall i: nat | i < |ts| ensures GoodChars(ts[i]) {
      if i < |Body(ts)| {
        assert Body(ts)[i] == ts[i];
      } else {
        NotTailless(ts);
        TailShape(ts[i]);
        NumsAreHex(ts[i]);
      }
    }
    JoinChars(ts);
  }

  lemma NumsAreHex(t: Bytes)
    requires DigitsAndDots(t)
    ensures GoodChars(t)
  {
  }

  lemma LegalIsSound(s: Bytes)
    requires 2 <= |s| <= 254 && s != DOUBLE_COLON && Legal(Tokens(s))
    ensures Sound(s)
  {
    hide IsHexDigit, Legal, Pieces, Join;
    LegalChars(Tokens(s));
    JoinPieces(Inner(s), COLON);
    forall i: nat | i < |s| ensures s[i] == COLON || s[i] == DOT || IsHexDigit(s[i]) {
      var b := if s[0] == COLON then 1 else 0;
      if b <= i < b + |Inner(s)| {
        assert s[i] == Inner(s)[i - b];
      }
    }
  }

  /** Every accepted text is one that normalizing is meant for. */
  lemma ValidIsSound(s: Bytes)
    requires IsValid(s)
    ensures Sound(s)
  {
    hide Legal, Accept, Tokens, IsHexDigit;
    if s != DOUBLE_COLON {
      ValidIsLegal(s);
      LegalIsSound(s);
    }
  }

  lemma {:induction false} JoinIsShort(ts: seq<Bytes>)
    requires forall i: nat :: i < |ts| ==> |ts[i]| <= 4
    ensures |Join(ts, COLON)| <= if ts == [] then 0 else 5 * |ts| - 1
  {
    if ts != [] {
      JoinIsShort(ts[1..]);
    }
  }

  lemma {:induction false} PieceIsShort(ts: seq<Bytes>, i: nat)
    requires i < |ts|
    ensures |ts[i]| <= |Join(ts, COLON)|
  {
    if i > 0 {
      PieceIsShort(ts[1..], i - 1);
    }
  }

  lemma GroupsAreShort(fs: seq<word>, tail: Bytes)
    ensures |Join(Hexes(fs) + TailGroup(tail), COLON)| <= 5 * |fs| + 1 + |tail|
    ensures |Join(Hexes(fs), COLON)| <= 5 * |fs|
  {
    hide Join, Hex;
    var hs := Hexes(fs);
    forall i: nat | i < |hs| ensures |hs[i]| <= 4 {
      HexLength(fs[i]);
    }
    JoinIsShort(hs);
    if tail == [] {
      assert hs + TailGroup(tail) == hs;
    } else if hs == [] {
      JoinOne(tail);
      assert hs + TailGroup(tail) == [tail];
    } else {
      JoinOneMore(hs, tail, COLON);
    }
  }

  lemma FormatIsShort(a: Address)
    requires |a.fields| <= 8
    ensures |Format(a)| <= 43 + |a.tail|
  {
    hide Join, Hexes, Longest;
    var fs := a.fields;
    var p := Longest(fs, 0);
    GroupsAreShort(fs, a.tail);
    GroupsAreShort(fs[..p], []);
    GroupsAreShort(fs[p + Run(fs, p)..], a.tail);
  }

  lemma TailIsShort(s: Bytes)
    requires |s| >= 2 && s != DOUBLE_COLON
    ensures |TailOf(Tokens(s))| <= |s|
  {
    hide Join, Pieces;
    var ts := Tokens(s);
    JoinPieces(Inner(s), COLON);
    PieceIsShort(ts, |ts| - 1);
  }

  /**
   On every accepted text, normalizing keeps the address exactly when it is not the zero address written
   in another way than by two colons; that one becomes a single colon, which is no address at all.
   */
  lemma NormalFormMeans(s: Bytes)
    requires IsValid(s)
    ensures var t := NormalForm(s);
            (|t| >= 2 && Denote(t) == Denote(s)) <==> (s == DOUBLE_COLON || !AllZero(Denote(s)))
    ensures s != DOUBLE_COLON && AllZero(Denote(s)) ==> NormalForm(s) == [COLON] && !IsValid([COLON])
  {
    hide Legal, Format, Accept, Tokens;
    if s != DOUBLE_COLON {
      ValidIsLegal(s);
      MeaningIsAddress(Tokens(s));
      if !AllZero(Denote(s)) {
        FormatMeans(Denote(s));
      }
    }
  }

  /** What normalizing gives is a text it is meant for, and it leaves that alone. */
  lemma NormalFormIsFixed(s: Bytes)
    requires IsValid(s) && (s == DOUBLE_COLON || !AllZero(Denote(s)))
    ensures Sound(NormalForm(s)) && NormalForm(NormalForm(s)) == NormalForm(s)
  {
    hide Legal, Format, Accept, Tokens, IsHexDigit;
    if s != DOUBLE_COLON {
      ValidIsLegal(s);
      MeaningIsAddress(Tokens(s));
      FormatMeans(Denote(s));
      TailIsShort(s);
      FormatIsShort(Denote(s));
      LegalIsSound(Format(Denote(s)));
    }
  }

  lemma DoubleColonIsZero()
    ensures AllZero(Denote(DOUBLE_COLON))
  {
  }

  lemma {:induction false} AcceptGroups(ts: seq<Bytes>, n: nat)
    requires ts != [] && n + |ts| == 8 && forall i: nat :: i < |ts| ==> IsGroup(ts[i])
    ensures Accept(ts, false, n, false)
    decreases |ts|
  {
    hide IsGroup, IsTail;
    GroupChars(ts[0]);
    assert ts[0] != [] by { GroupIsSome(ts[0]); }
    if |ts| > 1 {
      AcceptGroups(ts[1..], n + 1);
    }
  }

  lemma GroupIsSome(t: Bytes)
    requires IsGroup(t)
    ensures t != []
  {
  }

  /** For one: eight zeros with colons between them are accepted, and are lost. */
  lemma LongZeroIsLost()
    ensures var s := Join(Hexes(Zeros(8)), COLON);
            IsValid(s) && AllZero(Denote(s)) && NormalForm(s) == [COLON] && !IsValid([COLON])
  {
    hide Hex, Join, Accept, IsGroup, Legal, Meaning;
    var a := Address(Zeros(8), []);
    var ts := Hexes(a.fields);
    var s := Join(ts, COLON);
    PlainMeans(a);
    assert ts + TailGroup([]) == ts;
    PlainTokens(ts);
    JoinEnds(ts);
    forall i: nat | i < |ts| ensures |ts[i]| <= 4 && IsGroup(ts[i]) {
      HexLength(a.fields[i]);
      HexIsGroup(a.fields[i]);
    }
    JoinIsShort(ts);
    AcceptGroups(ts, 0);
    PiecesJoin(ts, COLON);
  }
}
