/** IPv6 texts as 128-bit addresses: what normalizing keeps, and which texts it makes the same. */
module Ipv6Value {
  import opened Prelude
  import opened UrlText
  import opened Segments
  import opened Ipv6Text
  import opened Ipv6Meaning
  import opened Ipv6Valid
  import opened Ipv6
  import opened Decimals

  // ---------------------------------------------------------------- eight words

  /** One of the numbers of an IPv4 address, as it is read: in 32 bits. */
  ghost function Octet(p: Bytes): byte
  {
    if IsNumeral(p) && Decimal(p) % TWO_32 <= 255 then Decimal(p) % TWO_32 else 0
  }

  /** The two words an IPv4 address stands for. */
  ghost function TailWords(tail: Bytes): (ws: seq<word>)
    ensures |ws| == if tail == [] then 0 else 2
  {
    if tail == [] then []
    else
      var ps := Pieces(tail, DOT);
      if |ps| != 4 then Zeros(2)
      else [Octet(ps[0]) * 256 + Octet(ps[1]), Octet(ps[2]) * 256 + Octet(ps[3])]
  }

  /** The 128 bits of an address: eight words, of which an IPv4 address makes up two. */
  ghost function Value(a: Address): seq<word>
  {
    a.fields + TailWords(a.tail)
  }

  lemma ValueHasEightWords(s: Bytes)
    requires IsValid(s)
    ensures |Value(Denote(s))| == 8 && IsAddress(Denote(s))
  {
    hide Legal, Meaning, Tokens, IsTail, Accept, Octet, Pieces;
    if s != DOUBLE_COLON {
      ValidIsLegal(s);
      MeaningIsAddress(Tokens(s));
      TailIsFull(Denote(s));
    }
  }

  // ---------------------------------------------------------------- dots

  /** Groups of digits with colons between them have no dot. */
  lemma {:induction false} JoinHasNoDot(ts: seq<Bytes>)
    requires forall i: nat :: i < |ts| ==> !HasDot(ts[i])
    ensures !HasDot(Join(ts, COLON))
  {
    if |ts| > 1 {
      JoinHasNoDot(ts[1..]);
    }
  }

  lemma {:induction false} PieceHasDot(ts: seq<Bytes>, i: nat)
    requires i < |ts| && HasDot(ts[i])
    ensures HasDot(Join(ts, COLON))
  {
    if i > 0 {
      PieceHasDot(ts[1..], i - 1);
    }
  }

  lemma DotIsInside(s: Bytes)
    requires |s| >= 2 && s != DOUBLE_COLON
    ensures HasDot(s) <==> HasDot(Inner(s))
  {
    var b := if s[0] == COLON then 1 else 0;
    var x := Inner(s);
    if HasDot(s) {
      var i: nat :| i < |s| && s[i] == DOT;
      assert x[i - b] == DOT;
    }
  }

  /** A text ends in an IPv4 address exactly when there is a dot in it. */
  lemma DotMeansTail(s: Bytes)
    requires IsValid(s)
    ensures HasDot(s) <==> Denote(s).tail != []
  {
    hide Legal, Pieces, Accept, HasDot, IsTail, IsGroup, Fill, Values;
    if s == DOUBLE_COLON {
      DoubleColonHasNoDot();
    } else {
      var ts := Tokens(s);
      ValidIsLegal(s);
      JoinPieces(Inner(s), COLON);
      DotIsInside(s);
      if HasDot(ts[|ts| - 1]) {
        PieceHasDot(ts, |ts| - 1);
        EmptyHasNoDot();
      } else {
        GroupsHaveNoDot(ts);
        JoinHasNoDot(ts);
      }
    }
  }

  lemma DoubleColonHasNoDot()
    ensures !HasDot(DOUBLE_COLON)
  {
  }

  lemma GroupsHaveNoDot(ts: seq<Bytes>)
    requires ts != [] && Legal(ts) && !HasDot(ts[|ts| - 1])
    ensures forall i: nat :: i < |ts| ==> !HasDot(ts[i])
  {
    hide IsTail, IsGroup;
    EmptyHasNoDot();
    forall i: nat | i < |ts| ensures !HasDot(ts[i]) {
      if ts[i] != [] {
        assert IsGroup(ts[i]);
        GroupChars(ts[i]);
      }
    }
  }

  // ---------------------------------------------------------------- what normalizing keeps

  /** The zero address in groups, other than two colons: what normalizing does not keep. */
  ghost predicate LongZero(s: Bytes)
    requires |s| >= 2
  {
    s != DOUBLE_COLON && !HasDot(s) && Value(Denote(s)) == Zeros(8)
  }

  lemma ZeroInWords(s: Bytes)
    requires IsValid(s)
    ensures AllZero(Denote(s)) <==> !HasDot(s) && Value(Denote(s)) == Zeros(8)
  {
    hide Denote, HasDot, Octet, Pieces, IsTail;
    DotMeansTail(s);
    ValueHasEightWords(s);
    var a := Denote(s);
    if a.tail == [] {
      assert Value(a) == a.fields;
    }
  }

  /**
   On every accepted text, normalizing keeps the 128-bit address exactly when the text is not the zero
   address in groups, other than two colons; that becomes a single colon, which is no address at all.
   */
  lemma NormalizingKeepsTheValue(s: Bytes)
    requires IsValid(s)
    ensures var t := NormalForm(s); (|t| >= 2 && Value(Denote(t)) == Value(Denote(s))) <==> !LongZero(s)
    ensures LongZero(s) ==> NormalForm(s) == [COLON] && !IsValid([COLON])
  {
    hide Denote, HasDot, Value, NormalForm, Zeros;
    ZeroInWords(s);
    NormalFormMeans(s);
  }

  /** Of the same fields and the same spelling of the IPv4 address. */
  lemma SameValueSameTail(a: Address, b: Address)
    requires IsAddress(a) && IsAddress(b)
    ensures a == b <==> Value(a) == Value(b) && a.tail == b.tail
  {
    hide TailWords, IsTail;
    if Value(a) == Value(b) && a.tail == b.tail {
      var n := |a.fields|;
      assert a.fields == Value(a)[..n] && b.fields == Value(b)[..n];
    }
  }

  /**
   Two accepted texts have one normal form exactly when they are texts of one 128-bit address, their
   IPv4 addresses, if any, are spelled alike, and not just one of them is the zero address in groups.
   */
  lemma NormalFormIsUnique(s: Bytes, t: Bytes)
    requires IsValid(s) && IsValid(t)
    ensures NormalForm(s) == NormalForm(t) <==>
            && Value(Denote(s)) == Value(Denote(t)) && Denote(s).tail == Denote(t).tail
            && (LongZero(s) <==> LongZero(t))
  {
    hide Denote, HasDot, Value, NormalForm, Zeros, LongZero, AllZero;
    ValueHasEightWords(s);
    ValueHasEightWords(t);
    SameValueSameTail(Denote(s), Denote(t));
    NormalizingKeepsTheValue(s);
    NormalizingKeepsTheValue(t);
    SameDenoted(s, t);
  }

  lemma OneZero(a: Address, b: Address)
    requires IsAddress(a) && IsAddress(b) && AllZero(a) && AllZero(b)
    ensures a == b
  {
    hide IsTail;
    EmptyIsNoTail();
    assert a.fields == b.fields;
  }

  lemma EmptyIsNoTail()
    ensures !IsTail([])
  {
  }

  lemma SameDenoted(s: Bytes, t: Bytes)
    requires IsValid(s) && IsValid(t)
    ensures NormalForm(s) == NormalForm(t) <==> Denote(s) == Denote(t) && (LongZero(s) <==> LongZero(t))
  {
    hide Denote, HasDot, Value, Zeros, AllZero, Encoded, IsAddress;
    DoubleColonIsZero();
    ValueHasEightWords(s);
    ValueHasEightWords(t);
    if AllZero(Denote(s)) && AllZero(Denote(t)) {
      OneZero(Denote(s), Denote(t));
    }
    ZeroInWords(s);
    ZeroInWords(t);
    NormalFormMeans(s);
    NormalFormMeans(t);
  }

  // ---------------------------------------------------------------- one address, two normal forms

  const GROUP_102: Bytes := ['1' as int, '0' as int, '2' as int]
  const GROUP_304: Bytes := ['3' as int, '0' as int, '4' as int]
  const NUMBERS: seq<Bytes> := [['1' as int], ['2' as int], ['3' as int], ['4' as int]]

  /** ::102:304 */
  function InGroups(): Bytes { DOUBLE_COLON + Join([GROUP_102, GROUP_304], COLON) }

  function Quad(): Bytes { Join(NUMBERS, DOT) }

  /** ::1.2.3.4 */
  function WithDots(): Bytes { DOUBLE_COLON + Join([Quad()], COLON) }

  /** A text that begins with two colons. */
  lemma AfterTwoColons(r: seq<Bytes>)
    requires r != [] && Full(r)
    ensures var s := DOUBLE_COLON + Join(r, COLON);
            s != DOUBLE_COLON && Tokens(s) == [[]] + r && s[0] == s[1] == COLON && Pieces(s[2..], COLON) == r
  {
    hide Pieces, Join, Tokens;
    var s := DOUBLE_COLON + Join(r, COLON);
    JoinNothing();
    GapTokens([], r);
    assert Join([], COLON) + DOUBLE_COLON + Join(r, COLON) == s;
    assert [] + [[]] + r == [[]] + r;
    assert s[2..] == Join(r, COLON);
    PiecesJoin(r, COLON);
  }

  lemma HexOfThree(a: byte, b: byte, c: byte)
    ensures HexOf([a, b, c]) == HexShift(HexShift(HexShift(0, a), b), c)
  {
    hide HexShift;
    assert [a, b, c][..2] == [a, b] && [a, b][..1] == [a] && [a][..0] == [];
    assert HexOf([a]) == HexShift(0, a);
    assert HexOf([a, b]) == HexShift(HexOf([a]), b);
  }

  lemma InGroupsMeans()
    ensures IsValid(InGroups()) && Value(Denote(InGroups())) == Zeros(6) + [0x102, 0x304] && Denote(InGroups()).tail == []
  {
    hide Pieces, Join, Tokens, Legal, Meaning, HexOf, HexShift;
    var r := [GROUP_102, GROUP_304];
    assert IsGroup(GROUP_102) && IsGroup(GROUP_304);
    GroupChars(GROUP_102);
    GroupChars(GROUP_304);
    AfterTwoColons(r);
    assert r[1..] == [GROUP_304];
    assert Accept([GROUP_304], true, 1, false);
    JoinOneMore([GROUP_102], GROUP_304, COLON);
    JoinOne(GROUP_102);
    assert [GROUP_102] + [GROUP_304] == r;
    GapLegal([], r, []);
    assert [] + [[]] + (r + TailGroup([])) == [[]] + r;
    assert Values(r) == [0x102, 0x304] by {
      HexOfThree('1' as int, '0' as int, '2' as int);
      HexOfThree('3' as int, '0' as int, '4' as int);
      HexShifts();
    }
  }

  lemma HexShifts()
    ensures HexShift(HexShift(HexShift(0, '1' as int), '0' as int), '2' as int) == 0x102
    ensures HexShift(HexShift(HexShift(0, '3' as int), '0' as int), '4' as int) == 0x304
  {
  }

  lemma OneDigit(c: byte)
    requires IsNum(c)
    ensures IsNumeral([c]) && Decimal([c]) == c - ZERO && Octet([c]) == c - ZERO
  {
    assert [c][..0] == [];
  }

  lemma QuadIsTail()
    ensures IsTail(Quad()) && TailWords(Quad()) == [0x102, 0x304] && |Quad()| == 7
  {
    hide Pieces, Numbers, Octet, Decimal, IsNumeral;
    PiecesJoin(NUMBERS, DOT);
    NumbersMean(Quad(), 4);
    OneDigit('1' as int);
    OneDigit('2' as int);
    OneDigit('3' as int);
    OneDigit('4' as int);
    QuadSpelled();
  }

  lemma QuadSpelled()
    ensures |Quad()| == 7 && FirstOf(Quad(), [DOT]) == 1
  {
    var ns := NUMBERS;
    assert ns[1..][1..] == [ns[2], ns[3]] && ns[1..][1..][1..] == [ns[3]];
    assert Join([ns[2], ns[3]], DOT) == ns[2] + [DOT] + ns[3];
    assert Join(ns[1..], DOT) == ns[1] + [DOT] + Join([ns[2], ns[3]], DOT);
    assert Quad()[1] == DOT && Quad()[0] == '1' as int;
    FirstOfIs(Quad(), [DOT], 1);
  }

  lemma WithDotsMeans()
    ensures IsValid(WithDots()) && Value(Denote(WithDots())) == Zeros(6) + [0x102, 0x304] && Denote(WithDots()).tail == Quad()
  {
    hide Pieces, Join, Tokens, Legal, Meaning, IsTail, Quad, TailWords, HasDot;
    var t := Quad();
    QuadIsTail();
    TailShape(t);
    AfterTwoColons([t]);
    JoinOne(t);
    assert Accept([t], true, 0, false);
    GapLegal([], [], t);
    assert [] + [[]] + ([] + TailGroup(t)) == [[]] + [t];
  }

  /** ::102:304 and ::1.2.3.4 are one address, and normalizing leaves them different. */
  lemma OneAddressTwoForms()
    ensures IsValid(InGroups()) && IsValid(WithDots()) && Value(Denote(InGroups())) == Value(Denote(WithDots()))
    ensures NormalForm(InGroups()) != NormalForm(WithDots())
  {
    hide InGroups, WithDots, Value, Denote, LongZero, NormalForm;
    InGroupsMeans();
    WithDotsMeans();
    QuadIsTail();
    NormalFormIsUnique(InGroups(), WithDots());
  }

  // ---------------------------------------------------------------- the text to prefer

  /** The normal form is the text section 4 of RFC 5952 prefers, except for the zero address in groups. */
  lemma NormalFormIsPreferred(s: Bytes)
    requires IsValid(s)
    ensures NormalForm(s) == Format(Denote(s)) <==> !LongZero(s)
  {
    hide Denote, Format, Value, HasDot, AllZero, Zeros, IsAddress;
    ZeroInWords(s);
    ValueHasEightWords(s);
    DoubleColonIsZero();
    if AllZero(Denote(s)) {
      FormatOfZeros(Denote(s));
    }
  }

  // ---------------------------------------------------------------- a gap that stands for nothing

  ghost predicate HasGap(s: Bytes)
    requires |s| >= 2
  {
    s != DOUBLE_COLON && Nulls(Body(Tokens(s))) > 0
  }

  /** Groups apart from the gap and the IPv4 address. */
  function Groups(s: Bytes): nat
    requires |s| >= 2 && s != DOUBLE_COLON
  {
    var body := Body(Tokens(s));
    |Left(body)| + |Right(body)|
  }

  /** How many zeros are put in the place of the gap. */
  function GapWidth(s: Bytes): int
    requires |s| >= 2 && s != DOUBLE_COLON
  {
    |Denote(s).fields| - Groups(s)
  }

  lemma {:induction false} GapIsFound(ts: seq<Bytes>)
    ensures Nulls(ts) > 0 <==> NullAt(ts) < |ts|
  {
    if ts != [] {
      GapIsFound(ts[1..]);
    }
  }

  /**
   Section 2.2 of RFC 4291 has the two colons stand for at least one group. Here they may stand for
   none: in exactly the accepted texts with an IPv4 address and six groups beside the gap.
   */
  lemma EmptyGap(s: Bytes)
    requires IsValid(s) && HasGap(s)
    ensures GapWidth(s) >= 0 && (GapWidth(s) == 0 <==> HasDot(s) && Groups(s) == 6)
  {
    hide Tokens, Accept, HasDot, IsTail, IsGroup, Pieces;
    ValidIsLegal(s);
    DotMeansTail(s);
    GapIsFound(Body(Tokens(s)));
  }

  /** 1::2:3:4:5:6:1.2.3.4 */
  function SixAndGap(): Bytes
  {
    Join([ONE], COLON) + DOUBLE_COLON + Join(FIVE + [Quad()], COLON)
  }

  const ONE: Bytes := ['1' as int]
  const FIVE: seq<Bytes> := [['2' as int], ['3' as int], ['4' as int], ['5' as int], ['6' as int]]

  lemma {:induction false} JoinOfDigits(ts: seq<Bytes>, t: Bytes)
    requires forall i: nat :: i < |ts| ==> |ts[i]| == 1
    ensures |Join(ts + [t], COLON)| == 2 * |ts| + |t|
  {
    if ts == [] {
      assert ts + [t] == [t];
    } else {
      JoinOfDigits(ts[1..], t);
      assert (ts + [t])[1..] == ts[1..] + [t];
    }
  }

  lemma {:induction false} AcceptDigits(ts: seq<Bytes>, t: Bytes, n: nat, prev: bool)
    requires n + |ts| == 6 && forall i: nat :: i < |ts| ==> IsGroup(ts[i])
    requires HasDot(t) && IsTail(t)
    ensures Accept(ts + [t], true, n, prev)
    decreases |ts|
  {
    hide IsGroup, IsTail, HasDot;
    EmptyHasNoDot();
    if ts == [] {
      assert ts + [t] == [t];
    } else {
      GroupIsSome(ts[0]);
      AcceptDigits(ts[1..], t, n + 1, false);
      assert (ts + [t])[1..] == ts[1..] + [t];
    }
  }

  lemma DigitIsGroup(c: byte)
    requires IsNum(c)
    ensures IsGroup([c]) && Lacks([c], COLON) && !HasDot([c])
  {
  }

  /** Accepted, with a gap that stands for nothing. */
  lemma SixAndGapIsAccepted()
    ensures IsValid(SixAndGap()) && HasGap(SixAndGap()) && GapWidth(SixAndGap()) == 0
  {
    hide Join, Pieces, IsGroup, IsTail, Quad, HasDot, Accept;
    var t := Quad();
    QuadIsTail();
    TailShape(t);
    DigitIsGroup('1' as int);
    forall i: nat | i < |FIVE| ensures IsGroup(FIVE[i]) && Lacks(FIVE[i], COLON) {
      DigitIsGroup(FIVE[i][0]);
      assert FIVE[i] == [FIVE[i][0]];
    }
    var r := FIVE + [t];
    GapTokens([ONE], r);
    JoinOfDigits(FIVE, t);
    JoinOne(ONE);
    JoinEnds(r);
    var s := SixAndGap();
    assert Inner(s) == s;
    AcceptDigits(FIVE, t, 1, true);
    AcceptStep([[]] + r, [], r, false, 1, false);
    AcceptStep([ONE] + ([[]] + r), ONE, [[]] + r, false, 0, false);
    assert [ONE] + [[]] + r == [ONE] + ([[]] + r);
    SixGroups(s, t);
    EmptyGap(s);
  }

  lemma SixGroups(s: Bytes, t: Bytes)
    requires |s| >= 2 && s != DOUBLE_COLON && Tokens(s) == [ONE] + [[]] + (FIVE + [t]) && HasDot(t)
    ensures HasGap(s) && Groups(s) == 6 && HasDot(s)
  {
    hide Tokens, HasDot, Nulls, NullAt;
    var body := [ONE] + [[]] + FIVE;
    EmptyHasNoDot();
    BodyOf(body, t);
    assert body + TailGroup(t) == Tokens(s);
    forall i: nat | i < |FIVE| ensures Lacks(FIVE[i], COLON) { }
    GapHasOneNull([ONE], FIVE);
    assert Left(body) == [ONE] && Right(body) == FIVE;
    DotIsInTokens(s);
  }

  lemma DotIsInTokens(s: Bytes)
    requires |s| >= 2 && s != DOUBLE_COLON && HasDot(Tokens(s)[|Tokens(s)| - 1])
    ensures HasDot(s)
  {
    hide Pieces;
    JoinPieces(Inner(s), COLON);
    PieceHasDot(Tokens(s), |Tokens(s)| - 1);
    DotIsInside(s);
  }
}
