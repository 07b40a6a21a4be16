/**
 Base64 as in section 4 of RFC 4648, and the two implementations of it: one that shifts bits through
 a 32-bit accumulator, and one that works on blocks of three bytes and four characters.
 */
module Base64 {
  import opened Prelude

  type sextet = x: int | 0 <= x < 64

  const PAD: byte := '=' as int

  // ---------------------------------------------------------------- the alphabet

  /** A-Z, a-z, 0-9, +, / in this order. */
  function Letter(x: sextet): (c: byte)
  {
    if x < 26 then 'A' as int + x
    else if x < 52 then 'a' as int + x - 26
    else if x < 62 then '0' as int + x - 52
    else if x == 62 then '+' as int
    else '/' as int
  }

  predicate IsLetter(c: byte)
  {
    c == '+' as int || '/' as int <= c <= '9' as int || 'A' as int <= c <= 'Z' as int || 'a' as int <= c <= 'z' as int
  }

  /** The place of a letter in the alphabet. */
  function Place(c: byte): (x: sextet)
    requires IsLetter(c)
    ensures Letter(x) == c
  {
    if c == '+' as int then 62
    else if c == '/' as int then 63
    else if c <= '9' as int then c - '0' as int + 52
    else if c <= 'Z' as int then c - 'A' as int
    else c - 'a' as int + 26
  }

  lemma PlaceOfLetter(x: sextet)
    ensures IsLetter(Letter(x)) && Letter(x) != PAD && Place(Letter(x)) == x
  {
  }

  function Letters(xs: seq<sextet>): (r: Bytes)
    ensures |r| == |xs|
  {
    seq(|xs|, i requires 0 <= i < |xs| => Letter(xs[i]))
  }

  // ---------------------------------------------------------------- section 4 of RFC 4648

  /** A 24-bit group as four 6-bit groups. */
  function Quad(n: int): (xs: seq<sextet>)
    requires 0 <= n < 0x100_0000
    ensures |xs| == 4
  {
    [n / 262144, n / 4096 % 64, n / 64 % 64, n % 64]
  }

  function Triple(a: byte, b: byte, c: byte): (n: int)
    ensures 0 <= n < 0x100_0000
  {
    var hi: int, mid: int := a, b;
    hi * 65536 + mid * 256 + c
  }

  /** At the end zero bits are added to 8 bits to make 12, and to 16 bits to make 18. */
  function Sextets(s: Bytes): seq<sextet>
  {
    if s == [] then []
    else if |s| == 1 then Quad(Triple(s[0], 0, 0))[..2]
    else if |s| == 2 then Quad(Triple(s[0], s[1], 0))[..3]
    else Quad(Triple(s[0], s[1], s[2])) + Sextets(s[3..])
  }

  function Padding(n: nat): Bytes
  {
    if n % 3 == 0 then [] else if n % 3 == 1 then [PAD, PAD] else [PAD]
  }

  function Encode(s: Bytes): Bytes
  {
    Letters(Sextets(s)) + Padding(|s|)
  }

  function Octet1(w: int, x: int): int { w * 4 + x / 16 }
  function Octet2(x: int, y: int): int { x % 16 * 16 + y / 4 }
  function Octet3(y: int, z: int): int { y % 4 * 64 + z }

  /** The bytes in a list of 6-bit groups; bits that do not fill a byte are dropped. */
  function Octets(xs: seq<sextet>): Bytes
  {
    if |xs| < 2 then []
    else if |xs| == 2 then [Octet1(xs[0], xs[1])]
    else if |xs| == 3 then [Octet1(xs[0], xs[1]), Octet2(xs[1], xs[2])]
    else [Octet1(xs[0], xs[1]), Octet2(xs[1], xs[2]), Octet3(xs[2], xs[3])] + Octets(xs[4..])
  }

  /** The four 6-bit groups of three bytes. */
  lemma QuadOf(a: byte, b: byte, c: byte)
    ensures Quad(Triple(a, b, c)) == [a / 4, a % 4 * 16 + b / 16, b % 16 * 4 + c / 64, c % 64]
  {
    var n := Triple(a, b, c);
    Halves(n, 262144, a / 4, a % 4 * 65536 + b * 256 + c);
    Halves(n, 4096, a * 16 + b / 16, b % 16 * 256 + c);
    Halves(a * 16 + b / 16, 64, a / 4, a % 4 * 16 + b / 16);
    Halves(n, 64, a * 1024 + b * 4 + c / 64, c % 64);
    Halves(a * 1024 + b * 4 + c / 64, 64, a * 16 + b / 16, b % 16 * 4 + c / 64);
  }

  /** And back. */
  lemma OctetsOfQuad(a: byte, b: byte, c: byte)
    ensures Octet1(a / 4, a % 4 * 16 + b / 16) == a
    ensures Octet2(a % 4 * 16 + b / 16, b % 16 * 4 + c / 64) == b
    ensures Octet3(b % 16 * 4 + c / 64, c % 64) == c
  {
    Halves(a % 4 * 16 + b / 16, 16, a % 4, b / 16);
    Halves(b % 16 * 4 + c / 64, 4, b % 16, c / 64);
  }

  lemma OctetsOfGroup(a: byte, b: byte, c: byte, xs: seq<sextet>)
    ensures Octets(Quad(Triple(a, b, c)) + xs) == [a, b, c] + Octets(xs)
  {
    hide Quad, Triple, Octet1, Octet2, Octet3;
    QuadOf(a, b, c);
    OctetsOfQuad(a, b, c);
    assert (Quad(Triple(a, b, c)) + xs)[4..] == xs;
  }

  lemma {:induction false} OctetsSextets(s: Bytes)
    ensures Octets(Sextets(s)) == s
  {
    hide Quad, Triple, Octet1, Octet2, Octet3;
    if |s| >= 3 {
      OctetsOfGroup(s[0], s[1], s[2], Sextets(s[3..]));
      OctetsSextets(s[3..]);
      assert s == [s[0], s[1], s[2]] + s[3..];
    } else if |s| == 2 {
      QuadOf(s[0], s[1], 0);
      OctetsOfQuad(s[0], s[1], 0);
    } else if |s| == 1 {
      QuadOf(s[0], 0, 0);
      OctetsOfQuad(s[0], 0, 0);
    }
  }

  lemma {:induction false} SextetsAppend(a: Bytes, b: Bytes)
    requires |a| % 3 == 0
    ensures Sextets(a + b) == Sextets(a) + Sextets(b)
  {
    hide Quad, Triple;
    if a == [] {
      assert a + b == b;
    } else {
      assert (a + b)[3..] == a[3..] + b;
      SextetsAppend(a[3..], b);
    }
  }

  lemma LettersAppend(xs: seq<sextet>, ys: seq<sextet>)
    ensures Letters(xs + ys) == Letters(xs) + Letters(ys)
  {
  }

  lemma {:induction false} SextetsLength(s: Bytes)
    ensures |Sextets(s)| % 4 == (if |s| % 3 == 0 then 0 else |s| % 3 + 1)
  {
    hide Quad, Triple;
    if |s| >= 3 {
      SextetsLength(s[3..]);
    }
  }

  // ---------------------------------------------------------------- the accumulator

  /** A value kept in a 32-bit signed integer. */
  function Wrap32(x: int): (r: int32)
    ensures (x - r) % TWO_32 == 0
  {
    (x + 0x8000_0000) % TWO_32 - 0x8000_0000
  }

  function Two(k: nat): (r: nat)
    ensures r > 0
  {
    if k == 0 then 1 else 2 * Two(k - 1)
  }

  lemma Twos()
    ensures Two(0) == 1 && Two(2) == 4 && Two(4) == 16 && Two(6) == 64
  {
    assert Two(2) == 2 * Two(1);
    assert Two(4) == 2 * Two(3) && Two(3) == 2 * Two(2);
    assert Two(6) == 2 * Two(5) && Two(5) == 2 * Two(4);
  }

  /** (val >> k) & 0x3F, with the sign carried down. */
  function SixBits(val: int, k: nat): sextet
  {
    val / Two(k) % 64
  }

  /** The accumulator after one more byte: only its low bits matter from here on. */
  lemma ShiftIn(val: int, b: byte)
    ensures var v := Wrap32(val * 256 + b);
            v % 256 == b && v % 1024 == val % 4 * 256 + b && v % 4096 == val % 16 * 256 + b
  {
    var v := Wrap32(val * 256 + b);
    var k := (val * 256 + b - v) / TWO_32;
    assert v == val * 256 + b - k * TWO_32;
    Halves(v, 256, val - k * 0x100_0000, b);
    Halves(v, 1024, val / 4 - k * 0x40_0000, val % 4 * 256 + b);
    Halves(v, 4096, val / 16 - k * 0x10_0000, val % 16 * 256 + b);
  }

  lemma FirstDigit(v: int, a: byte)
    requires v % 256 == a
    ensures v / 4 % 64 == a / 4 && v % 4 == a % 4
  {
    Halves(v, 4, v / 256 * 64 + a / 4, a % 4);
    Halves(v / 4, 64, v / 256, a / 4);
  }

  lemma SecondDigit(v: int, a: byte, b: byte)
    requires v % 1024 == a % 4 * 256 + b
    ensures v / 16 % 64 == a % 4 * 16 + b / 16 && v % 16 == b % 16
  {
    Halves(v, 16, v / 1024 * 64 + a % 4 * 16 + b / 16, b % 16);
    Halves(v / 16, 64, v / 1024, a % 4 * 16 + b / 16);
  }

  lemma LastDigits(v: int, b: byte, c: byte)
    requires v % 4096 == b % 16 * 256 + c
    ensures v / 64 % 64 == b % 16 * 4 + c / 64 && v % 64 == c % 64
  {
    Halves(v, 64, v / 4096 * 64 + b % 16 * 4 + c / 64, c % 64);
    Halves(v / 64, 64, v / 4096, b % 16 * 4 + c / 64);
  }

  /** Where the accumulator stands after q + r bytes: whole groups are out, the rest is in its low bits. */
  ghost predicate EncodePhase(s: Bytes, q: nat, r: nat, out: Bytes, val: int, valb: int)
  {
    q % 3 == 0 && r < 3 && q + r <= |s| && valb == 2 * r - 6 &&
    var whole := Letters(Sextets(s[..q]));
    if r == 0 then out == whole
    else if r == 1 then out == whole + [Letter(s[q] / 4)] && val % 4 == s[q] % 4
    else out == whole + [Letter(s[q] / 4), Letter(s[q] % 4 * 16 + s[q + 1] / 16)] && val % 16 == s[q + 1] % 16
  }

  /** What one more byte adds: one letter, or two when it completes a group. */
  ghost function NewLetters(v: int, valb: nat): Bytes
  {
    if valb < 6 then [Letter(SixBits(v, valb))] else [Letter(SixBits(v, 6)), Letter(SixBits(v, 0))]
  }

  lemma PhaseOne(s: Bytes, q: nat, out: Bytes, v: int)
    requires EncodePhase(s, q, 0, out, v, -6) && q < |s| && v % 256 == s[q]
    ensures EncodePhase(s, q, 1, out + NewLetters(v, 2), v, -4)
  {
    hide Sextets, Letters, Letter;
    Twos();
    FirstDigit(v, s[q]);
  }

  lemma PhaseTwo(s: Bytes, q: nat, out: Bytes, val: int, v: int)
    requires EncodePhase(s, q, 1, out, val, -4) && q + 1 < |s| && v % 1024 == val % 4 * 256 + s[q + 1]
    ensures EncodePhase(s, q, 2, out + NewLetters(v, 4), v, -2)
  {
    hide Sextets, Letters, Letter;
    Twos();
    SecondDigit(v, s[q], s[q + 1]);
  }

  lemma PhaseThree(s: Bytes, q: nat, out: Bytes, val: int, v: int)
    requires EncodePhase(s, q, 2, out, val, -2) && q + 2 < |s| && v % 4096 == val % 16 * 256 + s[q + 2]
    ensures EncodePhase(s, q + 3, 0, out + NewLetters(v, 6), v, -6)
  {
    hide Sextets, Quad, Triple, Letter;
    Twos();
    LastDigits(v, s[q + 1], s[q + 2]);
    QuadOf(s[q], s[q + 1], s[q + 2]);
    WholeGroup(s, q);
    assert SixBits(v, 0) == v % 64;
  }

  lemma NextPhase(s: Bytes, q: nat, r: nat, out: Bytes, val: int, valb: int)
    requires EncodePhase(s, q, r, out, val, valb) && q + r < |s|
    ensures var v := Wrap32(val * 256 + s[q + r]);
            var out' := out + NewLetters(v, valb + 8);
            if r < 2 then EncodePhase(s, q, r + 1, out', v, valb + 2) else EncodePhase(s, q + 3, 0, out', v, -6)
  {
    var v := Wrap32(val * 256 + s[q + r]);
    ShiftIn(val, s[q + r]);
    if r == 0 {
      PhaseOne(s, q, out, v);
    } else if r == 1 {
      PhaseTwo(s, q, out, val, v);
    } else {
      PhaseThree(s, q, out, val, v);
    }
  }

  lemma WholeGroup(s: Bytes, q: nat)
    requires q + 3 <= |s| && q % 3 == 0
    ensures Letters(Sextets(s[..q + 3])) ==
            Letters(Sextets(s[..q])) + Letters(Quad(Triple(s[q], s[q + 1], s[q + 2])))
  {
    var g := s[q..q + 3];
    assert s[..q + 3] == s[..q] + g;
    SextetsAppend(s[..q], g);
    assert g[3..] == [];
    LettersAppend(Sextets(s[..q]), Sextets(g));
  }

  lemma TailLetters(s: Bytes, q: nat)
    requires q <= |s| && q % 3 == 0
    ensures Letters(Sextets(s)) == Letters(Sextets(s[..q])) + Letters(Sextets(s[q..]))
  {
    assert s == s[..q] + s[q..];
    SextetsAppend(s[..q], s[q..]);
    LettersAppend(Sextets(s[..q]), Sextets(s[q..]));
  }

  lemma LettersOfOne(a: byte)
    ensures Letters(Sextets([a])) == [Letter(a / 4), Letter(a % 4 * 16)]
  {
    hide Quad, Triple, Letter;
    QuadOf(a, 0, 0);
  }

  lemma LettersOfTwo(a: byte, b: byte)
    ensures Letters(Sextets([a, b])) == [Letter(a / 4), Letter(a % 4 * 16 + b / 16), Letter(b % 16 * 4)]
  {
    hide Quad, Triple, Letter;
    QuadOf(a, b, 0);
  }

  /** Flushing what is left gives all the letters. */
  lemma LastPhase(s: Bytes, q: nat, r: nat, out: Bytes, val: int, valb: int)
    requires EncodePhase(s, q, r, out, val, valb) && q + r == |s|
    ensures r == 0 ==> out == Letters(Sextets(s))
    ensures r > 0 ==> out + [Letter(SixBits(Wrap32(val * 256), valb + 8))] == Letters(Sextets(s))
  {
    hide Sextets, Letters, Letter, Wrap32;
    TailLetters(s, q);
    ShiftIn(val, 0);
    Twos();
    var v := Wrap32(val * 256);
    if r == 0 {
      assert s[..q] == s;
    } else if r == 1 {
      assert s[q..] == [s[q]];
      LettersOfOne(s[q]);
      SecondDigit(v, s[q], 0);
    } else {
      assert s[q..] == [s[q], s[q + 1]];
      LettersOfTwo(s[q], s[q + 1]);
      LastDigits(v, s[q + 1], 0);
    }
  }

  lemma PhaseBits(s: Bytes, q: nat, r: nat, out: Bytes, val: int, valb: int)
    requires EncodePhase(s, q, r, out, val, valb)
    ensures r < 3 && q + r <= |s| && valb == 2 * r - 6
  {
  }

  /** Takes the letters that are complete off the accumulator. */
  method Drain(letters: Bytes, val: int32, bits: nat) returns (out: Bytes, valb: int)
    requires bits in {2, 4, 6}
    ensures out == letters + NewLetters(val, bits) && valb == (if bits == 6 then -6 else bits - 6)
  {
    hide SixBits, Letter;
    out, valb := letters, bits;
    while valb >= 0
      invariant
        || (valb == bits && out == letters)
        || (valb == bits - 6 && out == letters + [Letter(SixBits(val, bits))])
        || (bits == 6 && valb == -6 && out == letters + NewLetters(val, 6))
    {
      out := out + [Letter(SixBits(val, valb))];
      valb := valb - 6;
    }
  }

  method AccumulatorEncode(str: Bytes) returns (out: Bytes)
    ensures out == Encode(str)
  {
    assert EncodePhase(str, 0, 0, [], 0, -6) by { NoLetters(); assert str[..0] == []; }
    hide Letters, Sextets, Letter, SixBits, Wrap32, NewLetters, EncodePhase, Padding;
    out := [];
    var val: int32, valb := 0, -6;
    ghost var q: nat, r: nat := 0, 0;
    for i := 0 to |str|
      invariant q + r == i && EncodePhase(str, q, r, out, val, valb)
    {
      PhaseBits(str, q, r, out, val, valb);
      NextPhase(str, q, r, out, val, valb);
      val := Wrap32(val * 256 + str[i]);
      valb := valb + 8;
      out, valb := Drain(out, val, valb);
      q, r := if r == 2 then q + 3 else q, if r == 2 then 0 else r + 1;
    }
    PhaseBits(str, q, r, out, val, valb);
    LastPhase(str, q, r, out, val, valb);
    if valb > -6 {
      out := out + [Letter(SixBits(Wrap32(val * 256), valb + 8))];
    }
    SextetsLength(str);
    out := Padded(out, |str|);
  }

  /** Signs of equality up to a multiple of four. */
  method Padded(letters: Bytes, ghost n: nat) returns (out: Bytes)
    requires |letters| % 4 == (if n % 3 == 0 then 0 else n % 3 + 1)
    ensures out == letters + Padding(n)
  {
    out := letters;
    while |out| % 4 != 0
      invariant |letters| <= |out| <= |letters| + |Padding(n)|
      invariant out == letters + seq(|out| - |letters|, _ => PAD)
      decreases |letters| + |Padding(n)| - |out|
    {
      out := out + [PAD];
    }
  }

  // ---------------------------------------------------------------- blocks of three

  /** The masks and shifts that cut three bytes into four 6-bit numbers. */
  method SplitBlock(from: array<byte>, to: array<byte>)
    requires from.Length == 3 && to.Length == 4
    modifies to
    ensures to[..] == Quad(Triple(from[0], from[1], from[2])) && forall k :: 0 <= k < 4 ==> to[k] < 64
  {
    var a, b, c := from[0], from[1], from[2];
    to[0] := a / 4;
    to[1] := a % 4 * 16 + b / 16;
    to[2] := b % 16 * 4 + c / 64;
    to[3] := c % 64;
    QuadOf(a, b, c);
  }

  /** The letters of the first n numbers of a block, appended. */
  method AppendLetters(ret: Bytes, block: array<byte>, n: nat) returns (r: Bytes)
    requires n <= block.Length && forall k :: 0 <= k < n ==> block[k] < 64
    ensures r == ret + Letters(block[..n])
  {
    r := ret;
    for j := 0 to n
      invariant r == ret + Letters(block[..j])
    {
      r := r + [Letter(block[j])];
      assert block[..j + 1] == block[..j] + [block[j]];
    }
  }

  method BlockEncode(input: Bytes) returns (ret: Bytes)
    ensures ret == Encode(input)
  {
    hide Quad, Triple, Letter, Letters, Sextets, Encode, Padding;
    ret := [];
    var i := 0;
    var three, four := new byte[3], new byte[4];
    ghost var q: nat := 0;
    NoLetters();
    for p := 0 to |input|
      invariant q % 3 == 0 && i < 3 && p == q + i
      invariant ret == Letters(Sextets(input[..q]))
      invariant three[..i] == input[q..p]
    {
      three[i] := input[p];
      i := i + 1;
      if i == 3 {
        SplitBlock(three, four);
        ret := AppendLetters(ret, four, 4);
        assert four[..4] == four[..];
        WholeGroup(input, q);
        i := 0;
        q := q + 3;
      }
    }
    InTwoParts(input, q);
    if i != 0 {
      ret := EncodeRest(ret, three, four, i, input[q..]);
    } else {
      assert input[..q] == input;
    }
  }

  /** Whole groups, then the rest with its padding. */
  lemma InTwoParts(s: Bytes, q: nat)
    requires q <= |s| && q % 3 == 0
    ensures Encode(s) == Letters(Sextets(s[..q])) + Letters(Sextets(s[q..])) + Padding(|s[q..]|)
    ensures q == |s| ==> Encode(s) == Letters(Sextets(s))
  {
    hide Letters, Sextets;
    TailLetters(s, q);
    Halves(|s|, 3, q / 3 + (|s| - q) / 3, (|s| - q) % 3);
  }

  /** The last block, filled up with zeros, and the padding for what is missing. */
  method EncodeRest(before: Bytes, three: array<byte>, four: array<byte>, count: nat, ghost tail: Bytes) returns (ret: Bytes)
    requires three.Length == 3 && four.Length == 4 && three != four
    requires |tail| == count && (count == 1 || count == 2) && three[..count] == tail
    modifies three, four
    ensures ret == before + Letters(Sextets(tail)) + Padding(|tail|)
  {
    hide Quad, Triple, Letter, Letters, Sextets;
    var i := count;
    for j := i to 3
      invariant three[..i] == tail
      invariant forall k :: i <= k < j ==> three[k] == 0
    {
      three[j] := 0;
    }
    SplitBlock(three, four);
    TailQuad(tail, three[0], three[1], three[2]);
    ret := AppendLetters(before, four, i + 1);
    ghost var whole := ret;
    while i < 3
      invariant count <= i <= 3 && ret == whole + seq(i - count, _ => PAD)
    {
      ret := ret + [PAD];
      i := i + 1;
    }
  }

  lemma NoLetters()
    ensures Letters(Sextets([])) == []
  {
  }

  lemma TailQuad(tail: Bytes, a: byte, b: byte, c: byte)
    requires |tail| == 1 || |tail| == 2
    requires a == tail[0] && b == (if |tail| == 2 then tail[1] else 0) && c == 0
    ensures Sextets(tail) == Quad(Triple(a, b, c))[..|tail| + 1]
  {
  }
}
