/** The preferred text of an address is a text of that address. */
module Ipv6Meaning {
  import opened Prelude
  import opened UrlText
  import opened Segments
  import opened Ipv6Text

  /** Groups as they are written: something in each, and no colon. */
  ghost predicate Full(ts: seq<Bytes>)
  {
    forall i: nat :: i < |ts| ==> ts[i] != [] && Lacks(ts[i], COLON)
  }

  lemma {:induction false} JoinAppend(a: seq<Bytes>, b: seq<Bytes>)
    requires a != [] && b != []
    ensures Join(a + b, COLON) == Join(a, COLON) + [COLON] + Join(b, COLON)
  {
    if |a| == 1 {
      assert (a + b)[1..] == b;
    } else {
      JoinAppend(a[1..], b);
      assert (a + b)[1..] == a[1..] + b;
      var x, y := a[0] + [COLON], Join(a[1..], COLON);
      Assoc(x, y + [COLON], Join(b, COLON));
      Assoc(x, y, [COLON]);
    }
  }

  /** A text of groups neither begins nor ends with a colon. */
  lemma {:induction false} JoinEnds(ts: seq<Bytes>)
    requires ts != [] && Full(ts)
    ensures var s := Join(ts, COLON); s != [] && s[0] != COLON && s[|s| - 1] != COLON
  {
    assert ts[0] != [] && Lacks(ts[0], COLON);
    if |ts| > 1 {
      JoinEnds(ts[1..]);
    }
  }

  lemma {:induction false} JoinLength(ts: seq<Bytes>)
    requires Full(ts)
    ensures |Join(ts, COLON)| >= |ts|
  {
    if ts != [] {
      assert ts[0] != [];
      JoinLength(ts[1..]);
    }
  }

  lemma PlainTokens(ts: seq<Bytes>)
    requires |ts| >= 2 && Full(ts)
    ensures var s := Join(ts, COLON); |s| >= 2 && s != DOUBLE_COLON && Tokens(s) == ts
  {
    hide Pieces, Join;
    var s := Join(ts, COLON);
    JoinEnds(ts);
    JoinLength(ts);
    assert Inner(s) == s;
    PiecesJoin(ts, COLON);
  }

  /** Two colons between two texts of groups are an empty group. */
  lemma GapTokens(l: seq<Bytes>, r: seq<Bytes>)
    requires Full(l) && Full(r) && (l != [] || r != [])
    ensures var s := Join(l, COLON) + DOUBLE_COLON + Join(r, COLON);
            |s| >= 2 && s != DOUBLE_COLON && Tokens(s) == l + [[]] + r
  {
    hide Pieces, Join;
    var s := Join(l, COLON) + DOUBLE_COLON + Join(r, COLON);
    var ts := l + [[]] + r;
    assert AllLack(ts, COLON);
    PiecesJoin(ts, COLON);
    assert Join([], COLON) == [] by { JoinNothing(); }
    assert Inner(s) == Join(ts, COLON) by { GapInner(l, r); }
    if l != [] {
      JoinEnds(l);
    } else {
      JoinEnds(r);
    }
  }

  lemma JoinNothing()
    ensures Join([], COLON) == [] && Join([[]], COLON) == []
  {
  }

  lemma GapInner(l: seq<Bytes>, r: seq<Bytes>)
    requires Full(l) && Full(r) && (l != [] || r != [])
    ensures var s := Join(l, COLON) + DOUBLE_COLON + Join(r, COLON);
            |s| >= 2 && s != DOUBLE_COLON && Inner(s) == Join(l + [[]] + r, COLON)
  {
    hide Join;
    var x, y := Join(l, COLON), Join(r, COLON);
    JoinNothing();
    if l == [] {
      JoinEnds(r);
      assert l + [[]] + r == [[]] + r;
      JoinAppend([[]], r);
      assert (DOUBLE_COLON + y)[1..] == [] + [COLON] + y;
    } else if r == [] {
      JoinEnds(l);
      assert l + [[]] + r == l + [[]];
      JoinAppend(l, [[]]);
      assert Inner(x + DOUBLE_COLON + y) == x + [COLON];
    } else {
      JoinEnds(l);
      JoinEnds(r);
      JoinAppend(l + [[]], r);
      JoinAppend(l, [[]]);
      assert x + DOUBLE_COLON + y == x + [COLON] + [] + [COLON] + y;
    }
  }

  // ---------------------------------------------------------------- what the tokens of the preferred text mean

  lemma HexesAreFull(fs: seq<word>)
    ensures Full(Hexes(fs)) && AllGroups(Hexes(fs)) && Values(Hexes(fs)) == fs
    ensures forall i: nat :: i < |fs| ==> !HasDot(Hexes(fs)[i])
  {
    hide Hex, HexOf, AllHex;
    forall i: nat | i < |fs| ensures HexOf(Hexes(fs)[i]) == fs[i] && IsGroup(Hexes(fs)[i]) {
      HexIsGroup(fs[i]);
    }
    forall i: nat | i < |fs| ensures Lacks(Hexes(fs)[i], COLON) && !HasDot(Hexes(fs)[i]) {
      GroupChars(Hexes(fs)[i]);
    }
  }

  lemma GroupChars(t: Bytes)
    requires IsGroup(t)
    ensures Lacks(t, COLON) && !HasDot(t)
  {
  }

  lemma {:induction false} FullHasNoNull(ts: seq<Bytes>)
    requires Full(ts)
    ensures Nulls(ts) == 0 && NullAt(ts) == |ts|
  {
    if ts != [] {
      assert ts[0] != [];
      FullHasNoNull(ts[1..]);
    }
  }

  lemma {:induction false} GapHasOneNull(l: seq<Bytes>, r: seq<Bytes>)
    requires Full(l) && Full(r)
    ensures Nulls(l + [[]] + r) == 1 && NullAt(l + [[]] + r) == |l|
    decreases |l|
  {
    var ts := l + [[]] + r;
    if l == [] {
      assert ts[1..] == r;
      FullHasNoNull(r);
    } else {
      assert l[0] != [];
      assert ts[1..] == l[1..] + [[]] + r;
      GapHasOneNull(l[1..], r);
    }
  }

  lemma BodyOf(ts: seq<Bytes>, tail: Bytes)
    requires tail == [] ==> ts != [] && !HasDot(ts[|ts| - 1])
    requires tail != [] ==> HasDot(tail)
    ensures var all := ts + TailGroup(tail); Body(all) == ts && TailOf(all) == tail
  {
    var all := ts + TailGroup(tail);
    if tail != [] {
      assert all[..|all| - 1] == ts;
    }
  }

  ghost predicate AllZero(a: Address)
  {
    a.tail == [] && forall i: nat :: i < |a.fields| ==> a.fields[i] == 0
  }

  lemma TailIsFull(a: Address)
    requires IsAddress(a)
    ensures Full(TailGroup(a.tail)) && (a.tail != [] ==> HasDot(a.tail) && IsTail(a.tail))
    ensures |a.fields| == Room(a.tail)
  {
    hide Numbers;
    if IsTail(a.tail) {
      TailShape(a.tail);
    }
  }

  lemma PlainMeans(a: Address)
    requires IsAddress(a)
    ensures var ts := Hexes(a.fields) + TailGroup(a.tail); Legal(ts) && Meaning(ts) == a && Full(ts)
  {
    hide IsTail, Hex, HexOf, IsGroup, HasDot, Lacks;
    var hs := Hexes(a.fields);
    HexesAreFull(a.fields);
    TailIsFull(a);
    BodyOf(hs, a.tail);
    FullHasNoNull(hs);
    assert hs[..|hs|] == hs && Values([]) == [];
    assert a.fields + Zeros(0) + [] == a.fields;
  }

  lemma GapLegal(l: seq<Bytes>, r: seq<Bytes>, tail: Bytes)
    requires Full(l) && Full(r) && AllGroups(l) && AllGroups(r) && |l| + |r| < Room(tail)
    requires (tail != [] ==> HasDot(tail) && IsTail(tail)) && (r != [] ==> !HasDot(r[|r| - 1]))
    ensures var ts := l + [[]] + (r + TailGroup(tail));
            Legal(ts) && Meaning(ts) == Address(Fill(Values(l), Values(r), Room(tail)), tail)
  {
    hide IsTail, IsGroup, HasDot, Lacks, Fill, Values;
    var body := l + [[]] + r;
    EmptyHasNoDot();
    BodyOf(body, tail);
    Assoc(l + [[]], r, TailGroup(tail));
    GapHasOneNull(l, r);
    assert AllGroups(body);
    assert Left(body) == l && Right(body) == r;
  }

  lemma FullAppend(a: seq<Bytes>, b: seq<Bytes>)
    requires Full(a) && Full(b)
    ensures Full(a + b)
  {
  }

  lemma GapMeans(a: Address, p: nat, n: nat)
    requires IsAddress(a) && n >= 1 && p + n <= |a.fields|
    requires forall i: nat :: p <= i < p + n ==> a.fields[i] == 0
    ensures var l, r := Hexes(a.fields[..p]), Hexes(a.fields[p + n..]) + TailGroup(a.tail);
            Legal(l + [[]] + r) && Meaning(l + [[]] + r) == a && Full(l) && Full(r)
  {
    hide IsTail, HexOf, IsGroup, HasDot, Lacks, Legal, Meaning, IsAddress, Hexes, Full, AllGroups, TailGroup;
    var fl, fr := a.fields[..p], a.fields[p + n..];
    HexesAreFull(fl);
    HexesAreFull(fr);
    TailIsFull(a);
    GapLegal(Hexes(fl), Hexes(fr), a.tail);
    FullAppend(Hexes(fr), TailGroup(a.tail));
    assert a.fields == fl + Zeros(n) + fr;
  }

  lemma EmptyHasNoDot()
    ensures !HasDot([])
  {
  }

  /** The preferred text of an address is a text of it, unless all its fields are zero. */
  lemma FormatMeans(a: Address)
    requires IsAddress(a) && !AllZero(a)
    ensures var s := Format(a); |s| >= 2 && s != DOUBLE_COLON && Legal(Tokens(s)) && Denote(s) == a
  {
    hide Legal, Meaning, Tokens, Join, Hex, Longest;
    var fs := a.fields;
    var p := Longest(fs, 0);
    var n := Run(fs, p);
    if n < 2 {
      PlainMeans(a);
      PlainTokens(Hexes(fs) + TailGroup(a.tail));
    } else {
      GapMeans(a, p, n);
      GapTokens(Hexes(fs[..p]), Hexes(fs[p + n..]) + TailGroup(a.tail));
    }
  }

  /** Of all zero fields it is the two colons. */
  lemma FormatOfZeros(a: Address)
    requires IsAddress(a) && AllZero(a)
    ensures Format(a) == DOUBLE_COLON && Denote(DOUBLE_COLON) == a
  {
    hide Hex;
    var fs := a.fields;
    AllZeroRun(fs, 0);
    var p := Longest(fs, 0);
    assert Run(fs, 0) == |fs|;
    assert a.fields == Zeros(8);
    JoinNothing();
  }

  lemma {:induction false} AllZeroRun(fs: seq<word>, i: nat)
    requires i <= |fs| && forall j: nat :: i <= j < |fs| ==> fs[j] == 0
    ensures Run(fs, i) == |fs| - i
    decreases |fs| - i
  {
    if i < |fs| {
      AllZeroRun(fs, i + 1);
    }
  }

  /**
   Section 4.2.3 of RFC 5952: the run that is left out is a whole run of zeros, no other stretch of
   zeros is longer, and none of the same length comes before it.
   */
  lemma FirstLongestRun(fs: seq<word>, q: nat, m: nat)
    requires q + m <= |fs| && (forall j: nat :: q <= j < q + m ==> fs[j] == 0) && m >= 1
    ensures var p := Longest(fs, 0);
            var n := Run(fs, p);
            && m <= n && (m == n ==> p <= q)
            && (forall j: nat :: p <= j < p + n ==> fs[j] == 0)
            && (p > 0 ==> fs[p - 1] != 0) && (p + n < |fs| ==> fs[p + n] != 0)
  {
    hide Longest;
    var p := Longest(fs, 0);
    var n := Run(fs, p);
    RunAtLeast(fs, q, m);
    if p > 0 {
      RunBefore(fs, p);
    }
  }

  lemma RunBefore(fs: seq<word>, p: nat)
    requires 0 < p <= |fs|
    ensures Run(fs, p - 1) == if fs[p - 1] == 0 then Run(fs, p) + 1 else 0
  {
  }

  lemma {:induction false} RunAtLeast(fs: seq<word>, q: nat, m: nat)
    requires q + m <= |fs| && forall j: nat :: q <= j < q + m ==> fs[j] == 0
    ensures Run(fs, q) >= m
    decreases m
  {
    if m > 0 {
      RunAtLeast(fs, q + 1, m - 1);
    }
  }
}
