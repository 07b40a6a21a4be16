/** What the 32-bit numbers of ports and IPv4 addresses mean as decimal numbers. */
module Decimals {
  import opened Prelude
  import opened UrlText
  import opened Segments
  import opened Ipv6Text
  import Url
  import UrlObject

  ghost predicate AllDigits(s: Bytes)
  {
    forall i: nat :: i < |s| ==> IsNum(s[i])
  }

  /** The number that the digits write. */
  ghost function Decimal(s: Bytes): nat
    requires AllDigits(s)
  {
    if s == [] then 0 else Decimal(s[..|s| - 1]) * 10 + (s[|s| - 1] - ZERO)
  }

  /** Digits of which the first is not a zero, unless it is the only one. */
  ghost predicate IsNumeral(s: Bytes)
  {
    s != [] && AllDigits(s) && (s[0] == ZERO ==> |s| == 1)
  }

  // ---------------------------------------------------------------- 32 bits

  lemma WrapOnce(x: nat, d: nat)
    ensures (x % TWO_32 * 10 + d) % TWO_32 == (x * 10 + d) % TWO_32
  {
    var q, r := x / TWO_32, x % TWO_32;
    var y := r * 10 + d;
    Halves(x * 10 + d, TWO_32, q * 10 + y / TWO_32, y % TWO_32);
  }

  /** The loop of is_uint computes the decimal number modulo 2^32. */
  lemma {:induction false} DigitsValueIsDecimal(s: Bytes)
    requires s != [] && AllDigits(s)
    ensures Url.DigitsValue(s[0] - ZERO, s[1..]) == Decimal(s) % TWO_32
    decreases |s|
  {
    var k := |s| - 1;
    var init, c := s[..k], s[k];
    if k == 0 {
      assert s[1..] == [] && init == [];
    } else {
      hide Url.DigitsValue;
      DigitsValueIsDecimal(init);
      assert s[1..] == init[1..] + [c];
      UrlObject.DigitsValueOneMore(s[0] - ZERO, init[1..], c);
      WrapOnce(Decimal(init), c - ZERO);
    }
  }

  lemma {:induction false} DecimalIsShort(s: Bytes)
    requires AllDigits(s) && |s| <= 9
    ensures Decimal(s) < TWO_32
  {
    DecimalBound(s, 9);
  }

  function Ten(k: nat): nat { if k == 0 then 1 else 10 * Ten(k - 1) }

  lemma {:induction false} DecimalBound(s: Bytes, k: nat)
    requires AllDigits(s) && |s| <= k
    ensures Decimal(s) < Ten(k)
    decreases k
  {
    if s != [] {
      DecimalBound(s[..|s| - 1], k - 1);
    } else if k > 0 {
      DecimalBound(s, k - 1);
    }
  }

  lemma {:induction false} DigitsOfAll(s: Bytes)
    requires AllDigits(s)
    ensures Url.Digits(s) == |s|
  {
    if s != [] {
      DigitsOfAll(s[1..]);
    }
  }

  /** A whole text is taken for a number exactly when it is a numeral whose value modulo 2^32 is within the limit. */
  lemma UintMeans(s: Bytes, max: nat)
    ensures Url.Uint(s, max) == Some(|s|) <==> IsNumeral(s) && Decimal(s) % TWO_32 <= max
  {
    hide Url.DigitsValue, Decimal;
    Url.DigitsAreNum(s);
    if s != [] && AllDigits(s) {
      DigitsOfAll(s);
      DigitsValueIsDecimal(s);
      assert s[1..|s|] == s[1..];
      if s == [ZERO] {
        DecimalOfZero();
      }
    }
  }

  lemma DecimalOfZero()
    ensures Decimal([ZERO]) == 0
  {
    assert [ZERO][..0] == [];
  }

  /** For a numeral, being taken means being within the limit exactly when it is not 2^32 or more and wraps. */
  lemma WithinLimit(s: Bytes, max: nat)
    requires IsNumeral(s) && max < TWO_32
    ensures (Url.Uint(s, max) == Some(|s|) <==> Decimal(s) <= max) <==>
            (Decimal(s) < TWO_32 || Decimal(s) % TWO_32 > max)
    ensures |s| <= 9 ==> (Url.Uint(s, max) == Some(|s|) <==> Decimal(s) <= max)
  {
    hide Url.Uint, Decimal;
    UintMeans(s, max);
    var n := Decimal(s);
    assert n < TWO_32 ==> n % TWO_32 == n;
    if |s| <= 9 {
      DecimalIsShort(s);
    }
  }

  lemma PortMeans(s: Bytes)
    ensures Url.IsPort(s) <==> IsNumeral(s) && Decimal(s) % TWO_32 <= 65535
  {
    UintMeans(s, 65535);
  }

  lemma DecimalGrows(s: Bytes, k: nat)
    requires AllDigits(s) && k < |s|
    ensures Decimal(s[..k + 1]) == Decimal(s[..k]) * 10 + (s[k] - ZERO)
  {
    assert s[..k + 1][..k] == s[..k];
  }

  lemma DecimalOfNone()
    ensures Decimal([]) == 0
  {
  }

  const LARGE_PORT: Bytes :=
    ['4' as int, '2' as int, '9' as int, '4' as int, '9' as int, '6' as int, '7' as int, '3' as int, '7' as int, '6' as int]

  /** 4294967376, which is 2^32 + 80, is taken for a port. */
  lemma LargePortIsTaken()
    ensures AllDigits(LARGE_PORT) && Decimal(LARGE_PORT) == TWO_32 + 80 && Url.IsPort(LARGE_PORT)
  {
    hide Decimal, Url.IsPort;
    var s := LARGE_PORT;
    assert s[..0] == [];
    DecimalOfNone();
    DecimalGrows(s, 0);
    DecimalGrows(s, 1);
    DecimalGrows(s, 2);
    DecimalGrows(s, 3);
    DecimalGrows(s, 4);
    DecimalGrows(s, 5);
    DecimalGrows(s, 6);
    DecimalGrows(s, 7);
    DecimalGrows(s, 8);
    DecimalGrows(s, 9);
    assert s[..10] == s;
    PortMeans(s);
  }

  // ---------------------------------------------------------------- numbers with dots between them

  /** A number ends where its digits do. */
  lemma UintOfPiece(t: Bytes, f: nat, max: nat)
    requires f <= |t| && (f == |t| || t[f] == DOT)
    ensures Url.Uint(t, max) == Some(f) <==> Url.Uint(t[..f], max) == Some(f)
  {
    Url.DigitsAreNum(t);
    Url.DigitsAreNum(t[..f]);
    if AllDigits(t[..f]) {
      DigitsEndAt(t, f);
      DigitsOfAll(t[..f]);
      if f > 0 {
        assert t[..f][1..f] == t[1..f];
      }
    }
  }

  lemma {:induction false} DigitsEndAt(t: Bytes, f: nat)
    requires f <= |t| && AllDigits(t[..f]) && (f == |t| || t[f] == DOT)
    ensures Url.Digits(t) == f
  {
    if f > 0 {
      assert t[0] == t[..f][0];
      assert t[1..][..f - 1] == t[..f][1..];
      DigitsEndAt(t[1..], f - 1);
    }
  }

  ghost predicate AllTaken(ps: seq<Bytes>)
  {
    forall i: nat :: i < |ps| ==> IsNumeral(ps[i]) && Decimal(ps[i]) % TWO_32 <= 255
  }

  /** So many numerals with dots between them, each up to 255 modulo 2^32. */
  lemma {:induction false} NumbersMean(t: Bytes, k: nat)
    requires k >= 1
    ensures Numbers(t, k) <==> |Pieces(t, DOT)| == k && AllTaken(Pieces(t, DOT))
    decreases k
  {
    hide Url.Uint, IsNumeral, Decimal;
    var f := FirstOf(t, [DOT]);
    var ps := Pieces(t, DOT);
    UintOfPiece(t, f, 255);
    UintMeans(t[..f], 255);
    if Url.Uint(t, 255).Some? {
      UintIsDigits(t, 255);
      var n := Url.Uint(t, 255).value;
      if n <= |t| && (n == |t| || t[n] == DOT) {
        FirstOfIs(t, [DOT], n);
      }
    }
    if f == |t| {
      assert t[..f] == t;
    } else {
      assert ps == [t[..f]] + Pieces(t[f + 1..], DOT);
      assert ps[1..] == Pieces(t[f + 1..], DOT);
      if k > 1 {
        NumbersMean(t[f + 1..], k - 1);
      }
      TakenCons(ps);
    }
  }

  lemma TakenCons(ps: seq<Bytes>)
    requires ps != []
    ensures AllTaken(ps) <==> IsNumeral(ps[0]) && Decimal(ps[0]) % TWO_32 <= 255 && AllTaken(ps[1..])
  {
    assert forall i: nat :: 0 < i < |ps| ==> ps[i] == ps[1..][i - 1];
  }

  /** Accepted numbers are all up to 255 exactly when none is 2^32 or more; numbers of nine digits never are. */
  lemma NumbersWithinLimit(t: Bytes, k: nat)
    requires k >= 1 && Numbers(t, k)
    ensures var ps := Pieces(t, DOT);
            && AllTaken(ps)
            && ((forall i: nat :: i < |ps| ==> Decimal(ps[i]) <= 255) <==> forall i: nat :: i < |ps| ==> Decimal(ps[i]) < TWO_32)
            && ((forall i: nat :: i < |ps| ==> |ps[i]| <= 9) ==> forall i: nat :: i < |ps| ==> Decimal(ps[i]) <= 255)
  {
    hide Pieces, Decimal, Numbers;
    NumbersMean(t, k);
    var ps := Pieces(t, DOT);
    forall i: nat | i < |ps|
      ensures Decimal(ps[i]) <= 255 <==> Decimal(ps[i]) < TWO_32
      ensures |ps[i]| <= 9 ==> Decimal(ps[i]) < TWO_32
    {
      var n := Decimal(ps[i]);
      assert n < TWO_32 ==> n % TWO_32 == n;
      if |ps[i]| <= 9 {
        DecimalIsShort(ps[i]);
      }
    }
  }
}
