/** IPv6 addresses as text: which texts are addresses, what they mean, and the one to prefer. */
module Ipv6Text {
  import opened Prelude
  import opened UrlText
  import opened Segments
  import Url

  // ---------------------------------------------------------------- hexadecimal groups

  type word = x: int | 0 <= x < 65536

  function HexLower(d: int): (c: byte)
    requires 0 <= d < 16
    ensures HexValue(c) == d && !IsUpper(c) && IsHexDigit(c) && (c == ZERO <==> d == 0)
  {
    if d < 10 then '0' as int + d else 'a' as int + d - 10
  }

  /** Lower case, without leading zeros. */
  function Hex(n: nat): (s: Bytes)
    ensures |s| >= 1
  {
    if n < 16 then [HexLower(n)] else Hex(n / 16) + [HexLower(n % 16)]
  }

  /** One more digit in 16 bits. */
  function HexShift(v: word, c: byte): word
  {
    if IsHexDigit(c) then (v * 16 + HexValue(c)) % 65536 else 65535
  }

  function HexOf(s: Bytes): word
  {
    if s == [] then 0 else HexShift(HexOf(s[..|s| - 1]), s[|s| - 1])
  }

  predicate AllHex(s: Bytes)
  {
    forall i: nat :: i < |s| ==> IsHexDigit(s[i])
  }

  predicate IsGroup(s: Bytes) { 1 <= |s| <= 4 && AllHex(s) }

  lemma {:induction false} HexRoundTrip(n: nat)
    requires n < 65536
    ensures HexOf(Hex(n)) == n && AllHex(Hex(n))
    ensures |Hex(n)| == 1 || Hex(n)[0] != ZERO
  {
    hide IsHexDigit;
    var s := Hex(n);
    if n < 16 {
      assert s[..0] == [];
    } else {
      HexRoundTrip(n / 16);
      assert s[..|s| - 1] == Hex(n / 16);
    }
  }

  lemma HexLength(n: nat)
    requires n < 65536
    ensures |Hex(n)| <= 4
  {
    var a := n / 16;
    var b := a / 16;
    assert b / 16 < 16;
    assert |Hex(b)| <= 2;
    assert |Hex(a)| <= 3;
  }

  lemma HexIsGroup(n: word)
    ensures IsGroup(Hex(n)) && HexOf(Hex(n)) == n
  {
    hide IsHexDigit;
    HexRoundTrip(n);
    HexLength(n);
  }

  // ---------------------------------------------------------------- the IPv4 address at the end

  /** So many numbers up to 255, with dots between them. */
  predicate Numbers(t: Bytes, k: nat)
    requires k >= 1
    decreases k
  {
    match Url.Uint(t, 255)
    case None => false
    case Some(n) =>
      if n > |t| then false
      else if k == 1 then n == |t|
      else n < |t| && t[n] == DOT && Numbers(t[n + 1..], k - 1)
  }

  predicate HasDot(t: Bytes) { DOT in t }

  /** A scan for hexadecimal digits comes to the first dot after four digits at most. */
  predicate IsTail(t: Bytes) { FirstOf(t, [DOT]) <= 4 && Numbers(t, 4) }

  predicate DigitsAndDots(t: Bytes)
  {
    forall i: nat :: i < |t| ==> IsNum(t[i]) || t[i] == DOT
  }

  lemma UintIsDigits(t: Bytes, max: nat)
    requires Url.Uint(t, max).Some?
    ensures var n := Url.Uint(t, max).value; 1 <= n <= |t| && forall i: nat :: i < n ==> IsNum(t[i])
  {
    Url.DigitsAreNum(t);
  }

  lemma {:induction false} NumbersAreDigitsAndDots(t: Bytes, k: nat)
    requires k >= 1 && Numbers(t, k)
    ensures DigitsAndDots(t) && |t| >= 2 * k - 1 && (k > 1 ==> HasDot(t))
    decreases k
  {
    UintIsDigits(t, 255);
    var n := Url.Uint(t, 255).value;
    if k > 1 {
      NumbersAreDigitsAndDots(t[n + 1..], k - 1);
      forall i: nat | i < |t| ensures IsNum(t[i]) || t[i] == DOT {
        if i > n {
          assert t[i] == t[n + 1..][i - n - 1];
        }
      }
      assert t[n] == DOT;
    }
  }

  lemma TailShape(t: Bytes)
    requires IsTail(t)
    ensures DigitsAndDots(t) && |t| >= 7 && HasDot(t) && Lacks(t, COLON)
  {
    NumbersAreDigitsAndDots(t, 4);
  }

  // ---------------------------------------------------------------- texts and what they mean

  /** The groups of a text; an empty one stands for a run of zeros. */
  function Nulls(ts: seq<Bytes>): nat
  {
    if ts == [] then 0 else (if ts[0] == [] then 1 else 0) + Nulls(ts[1..])
  }

  ghost predicate AllGroups(ts: seq<Bytes>)
  {
    forall i: nat :: i < |ts| ==> ts[i] == [] || IsGroup(ts[i])
  }

  const DOUBLE_COLON: Bytes := [COLON, COLON]

  /** Without the outer one of two colons at either end. */
  function Inner(s: Bytes): Bytes
    requires |s| >= 2 && s != DOUBLE_COLON
  {
    var b := if s[0] == COLON then 1 else 0;
    var e := if s[|s| - 1] == COLON then |s| - 1 else |s|;
    s[b..e]
  }

  function Tokens(s: Bytes): (ts: seq<Bytes>)
    requires |s| >= 2 && s != DOUBLE_COLON
    ensures |ts| >= 1
  {
    Pieces(Inner(s), COLON)
  }

  /** The fields of an address, and the IPv4 address that may stand for the last two. */
  datatype Address = Address(fields: seq<word>, tail: Bytes)

  function Body(ts: seq<Bytes>): seq<Bytes>
    requires ts != []
  {
    if HasDot(ts[|ts| - 1]) then ts[..|ts| - 1] else ts
  }

  function TailOf(ts: seq<Bytes>): Bytes
    requires ts != []
  {
    if HasDot(ts[|ts| - 1]) then ts[|ts| - 1] else []
  }

  function Room(tail: Bytes): nat { if tail == [] then 8 else 6 }

  /** Groups enough, or fewer with one place for the zeros. */
  ghost predicate Legal(ts: seq<Bytes>)
  {
    ts != [] &&
    var body, tail := Body(ts), TailOf(ts);
    && AllGroups(body) && (tail == [] || IsTail(tail))
    && (Nulls(body) == 0 ==> |body| == Room(tail))
    && (Nulls(body) == 1 ==> |body| <= Room(tail) || (tail != [] && |body| == 7))
    && Nulls(body) <= 1
  }

  /** Where the empty group is, or the end. */
  function NullAt(ts: seq<Bytes>): (k: nat)
    ensures k <= |ts| && (k < |ts| ==> ts[k] == [])
  {
    if ts == [] || ts[0] == [] then 0 else 1 + NullAt(ts[1..])
  }

  function Values(ts: seq<Bytes>): (vs: seq<word>)
    ensures |vs| == |ts|
  {
    seq(|ts|, i requires 0 <= i < |ts| => HexOf(ts[i]))
  }

  function Zeros(n: nat): seq<word> { seq(n, _ => 0) }

  function Left(body: seq<Bytes>): seq<Bytes> { body[..NullAt(body)] }

  function Right(body: seq<Bytes>): seq<Bytes>
  {
    var k := NullAt(body);
    if k == |body| then [] else body[k + 1..]
  }

  /** As many zeros as are missing, in the place of the empty group. */
  function Fill(l: seq<word>, r: seq<word>, room: nat): seq<word>
  {
    l + Zeros(if |l| + |r| <= room then room - |l| - |r| else 0) + r
  }

  function Meaning(ts: seq<Bytes>): Address
    requires ts != []
  {
    var body, tail := Body(ts), TailOf(ts);
    Address(Fill(Values(Left(body)), Values(Right(body)), Room(tail)), tail)
  }

  function Denote(s: Bytes): Address
    requires |s| >= 2
  {
    if s == DOUBLE_COLON then Address(Zeros(8), []) else Meaning(Tokens(s))
  }

  ghost predicate IsAddress(a: Address)
  {
    (a.tail == [] && |a.fields| == 8) || (IsTail(a.tail) && |a.fields| == 6)
  }

  // ---------------------------------------------------------------- the text to prefer

  /** How many zeros there are from here on. */
  function Run(fs: seq<word>, i: nat): (n: nat)
    requires i <= |fs|
    ensures i + n <= |fs| && (forall j: nat :: i <= j < i + n ==> fs[j] == 0) && (i + n < |fs| ==> fs[i + n] != 0)
    decreases |fs| - i
  {
    if i == |fs| || fs[i] != 0 then 0 else 1 + Run(fs, i + 1)
  }

  /** From here on, the first of the longest runs of zeros. */
  function Longest(fs: seq<word>, i: nat): (p: nat)
    requires i <= |fs|
    ensures i <= p <= |fs|
    ensures forall q: nat :: i <= q <= |fs| ==> Run(fs, q) <= Run(fs, p) && (Run(fs, q) == Run(fs, p) ==> p <= q)
    decreases |fs| - i
  {
    if i == |fs| then i
    else
      var p := Longest(fs, i + 1);
      if Run(fs, i) >= Run(fs, p) then i else p
  }

  function Hexes(fs: seq<word>): (ts: seq<Bytes>)
    ensures |ts| == |fs|
  {
    seq(|fs|, i requires 0 <= i < |fs| => Hex(fs[i]))
  }

  function TailGroup(tail: Bytes): seq<Bytes> { if tail == [] then [] else [tail] }

  /** Section 4.2 of RFC 5952: two colons for the first longest run of zeros, if it is longer than one. */
  function Format(a: Address): Bytes
  {
    var fs := a.fields;
    var p := Longest(fs, 0);
    var n := Run(fs, p);
    if n < 2 then Join(Hexes(fs) + TailGroup(a.tail), COLON)
    else Join(Hexes(fs[..p]), COLON) + DOUBLE_COLON + Join(Hexes(fs[p + n..]) + TailGroup(a.tail), COLON)
  }
}
