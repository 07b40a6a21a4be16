/** SHA-1 as in sections 4, 5 and 6.1 of FIPS 180-4. */
module Sha1Spec {
  import opened Prelude

  type octet = x: bv32 | x < 256

  // ---------------------------------------------------------------- section 4: functions and constants

  function Rotl1(x: bv32): bv32 { (x << 1) | (x >> 31) }
  function Rotl5(x: bv32): bv32 { (x << 5) | (x >> 27) }
  function Rotl30(x: bv32): bv32 { (x << 30) | (x >> 2) }

  function Ch(x: bv32, y: bv32, z: bv32): bv32 { (x & y) ^ (!x & z) }
  function Parity(x: bv32, y: bv32, z: bv32): bv32 { x ^ y ^ z }
  function Maj(x: bv32, y: bv32, z: bv32): bv32 { (x & y) ^ (x & z) ^ (y & z) }

  function F(t: nat, x: bv32, y: bv32, z: bv32): bv32
  {
    if t < 20 then Ch(x, y, z) else if t < 40 then Parity(x, y, z) else if t < 60 then Maj(x, y, z) else Parity(x, y, z)
  }

  function K(t: nat): bv32
  {
    if t < 20 then 0x5a827999 else if t < 40 then 0x6ed9eba1 else if t < 60 then 0x8f1bbcdc else 0xca62c1d6
  }

  // ---------------------------------------------------------------- section 6.1.2: one block

  /** The message schedule. */
  function W(block: seq<bv32>, t: nat): bv32
    requires |block| == 16
  {
    if t < 16 then block[t]
    else Rotl1(W(block, t - 3) ^ W(block, t - 8) ^ W(block, t - 14) ^ W(block, t - 16))
  }

  /** Five working variables, and also a hash value of five words. */
  datatype Vars = Vars(a: bv32, b: bv32, c: bv32, d: bv32, e: bv32)

  /** Addition modulo 2^32. */
  function Plus(x: bv32, y: bv32): bv32 { x + y }
  function Total(x: bv32, f: bv32, e: bv32, k: bv32, w: bv32): bv32 { x + f + e + k + w }

  function Turn(v: Vars, f: bv32, k: bv32, w: bv32): Vars
  {
    Vars(Total(Rotl5(v.a), f, v.e, k, w), v.a, Rotl30(v.b), v.c, v.d)
  }

  function Rounds(v: Vars, block: seq<bv32>, t: nat): Vars
    requires |block| == 16
    decreases t
  {
    if t == 0 then v
    else
      var u := Rounds(v, block, t - 1);
      Turn(u, F(t - 1, u.b, u.c, u.d), K(t - 1), W(block, t - 1))
  }

  function Sum(v: Vars, u: Vars): Vars
  {
    Vars(Plus(v.a, u.a), Plus(v.b, u.b), Plus(v.c, u.c), Plus(v.d, u.d), Plus(v.e, u.e))
  }

  function Compress(v: Vars, block: seq<bv32>): Vars
    requires |block| == 16
  {
    Sum(v, Rounds(v, block, 80))
  }

  // ---------------------------------------------------------------- section 5: padding and parsing

  const INITIAL: Vars := Vars(0x67452301, 0xefcdab89, 0x98badcfe, 0x10325476, 0xc3d2e1f0)

  function Word(b0: bv32, b1: bv32, b2: bv32, b3: bv32): bv32
  {
    b3 | (b2 << 8) | (b1 << 16) | (b0 << 24)
  }

  function Words(s: seq<octet>): (ws: seq<bv32>)
    requires |s| % 4 == 0
    ensures 4 * |ws| == |s|
  {
    if s == [] then [] else [Word(s[0], s[1], s[2], s[3])] + Words(s[4..])
  }

  function Zeros(n: nat): seq<octet>
  {
    seq(n, _ => 0)
  }

  /** The smallest number of zero bytes that leaves 8 bytes of a block free. */
  function Gap(n: nat): (k: nat)
    ensures (n + 1 + k) % 64 == 56 && k < 64
  {
    (119 - n % 64) % 64
  }

  function LengthHigh(n: nat): bv32 { (8 * n / TWO_32 % TWO_32) as bv32 }
  function LengthLow(n: nat): bv32 { (8 * n % TWO_32) as bv32 }

  function Ended(m: seq<octet>): (s: seq<octet>)
    ensures |s| % 64 == 56 && |s| % 4 == 0
  {
    var s := m + [0x80] + Zeros(Gap(|m|));
    WholeWords(|s|);
    s
  }

  lemma WholeWords(n: nat)
    requires n % 64 == 56
    ensures n % 4 == 0
  {
    Halves(n, 4, n / 64 * 16 + 14, 0);
  }

  /** The message, a one bit, zero bits, and the length in bits as a 64-bit number given as two words. */
  function PaddedWith(m: seq<octet>, high: bv32, low: bv32): (ws: seq<bv32>)
    ensures |ws| % 16 == 0
  {
    var s := Ended(m);
    var ws := Words(s);
    FillsBlocks(|s|, |ws|);
    ws + [high, low]
  }

  /** Two words are missing to whole blocks. */
  lemma FillsBlocks(bytes: nat, words: nat)
    requires 4 * words == bytes && bytes % 64 == 56
    ensures (words + 2) % 16 == 0
  {
    var q := bytes / 64;
    assert words == 16 * q + 14;
    Halves(words + 2, 16, q + 1, 0);
  }

  function Padded(m: seq<octet>): (ws: seq<bv32>)
    ensures |ws| % 16 == 0
  {
    PaddedWith(m, LengthHigh(|m|), LengthLow(|m|))
  }

  // ---------------------------------------------------------------- section 6.1: the digest

  function Fold(v: Vars, ws: seq<bv32>): Vars
    requires |ws| % 16 == 0
    decreases ws
  {
    if ws == [] then v
    else
      Halves(|ws| - 16, 16, |ws| / 16 - 1, 0);
      Fold(Compress(v, ws[..16]), ws[16..])
  }

  /** The hash value after some whole blocks of 64 bytes. */
  function FoldBytes(v: Vars, s: seq<octet>): Vars
    requires |s| % 64 == 0
  {
    WholeBlocks(|s|);
    var ws := Words(s);
    assert |ws| == |s| / 4;
    Fold(v, ws)
  }

  lemma WholeBlocks(n: nat)
    requires n % 64 == 0
    ensures n % 4 == 0 && n / 4 % 16 == 0
  {
    var q := n / 64;
    Halves(n, 4, 16 * q, 0);
    Halves(n / 4, 16, q, 0);
  }

  function BytesOf(x: bv32): (s: seq<octet>)
    ensures |s| == 4
  {
    [x >> 24, (x >> 16) & 0xFF, (x >> 8) & 0xFF, x & 0xFF]
  }

  function Digest(v: Vars): seq<octet>
  {
    BytesOf(v.a) + BytesOf(v.b) + BytesOf(v.c) + BytesOf(v.d) + BytesOf(v.e)
  }

  function Sha1(m: seq<octet>): seq<octet>
  {
    Digest(Fold(INITIAL, Padded(m)))
  }

  // ---------------------------------------------------------------- facts used by the implementation

  lemma {:induction false} WordsAppend(a: seq<octet>, b: seq<octet>)
    requires |a| % 4 == 0 && |b| % 4 == 0
    ensures Words(a + b) == Words(a) + Words(b)
  {
    hide Word;
    if a == [] {
      assert a + b == b;
    } else {
      assert (a + b)[4..] == a[4..] + b;
      WordsAppend(a[4..], b);
    }
  }

  lemma {:induction false} WordsAt(s: seq<octet>, i: nat)
    requires |s| % 4 == 0 && 4 * i < |s|
    ensures Words(s)[i] == Word(s[4 * i], s[4 * i + 1], s[4 * i + 2], s[4 * i + 3])
  {
    hide Word;
    if i > 0 {
      WordsAt(s[4..], i - 1);
    }
  }

  lemma {:induction false} FoldAppend(v: Vars, a: seq<bv32>, b: seq<bv32>)
    requires |a| % 16 == 0 && |b| % 16 == 0
    ensures Fold(v, a + b) == Fold(Fold(v, a), b)
    decreases a
  {
    hide Compress;
    if a == [] {
      assert a + b == b;
    } else {
      assert (a + b)[..16] == a[..16] && (a + b)[16..] == a[16..] + b;
      FoldAppend(Compress(v, a[..16]), a[16..], b);
    }
  }

  lemma FoldOne(v: Vars, block: seq<bv32>)
    requires |block| == 16
    ensures Fold(v, block) == Compress(v, block)
  {
    hide Compress;
    assert block[..16] == block && block[16..] == [];
  }
}
