/** What a CRC makes of a message with its own checksum behind it. */
module CrcResidue {
  import opened CrcRegister
  import Crc16
  import Crc32
  import Crc64

  /** So many bytes of a register, the lowest first. */
  function OctetsOf(x: bv64, count: nat): seq<octet>
    decreases count
  {
    if count == 0 then [] else [x & 0xFF] + OctetsOf(x >> 8, count - 1)
  }

  lemma {:induction false} BitsSplit(x: bv64, a: nat, b: nat)
    ensures BitsOf(x, a + b) == BitsOf(x, a) + BitsOf(Halves(x, a), b)
    decreases a
  {
    hide Half, Odd;
    if a > 0 {
      BitsSplit(Half(x), a - 1, b);
      assert BitsOf(x, a + b) == [Odd(x)] + (BitsOf(Half(x), a - 1) + BitsOf(Halves(x, a), b));
    }
  }

  function Masked(x: bv64, m: bv64): bv64 { x & m }

  lemma HalfOfMasked(x: bv64, m: bv64)
    requires Odd(m)
    ensures Odd(Masked(x, m)) == Odd(x) && Half(Masked(x, m)) == Masked(Half(x), Half(m))
  {
  }

  /** The bits that a mask of ones lets through. */
  lemma {:induction false} BitsOfMasked(x: bv64, m: bv64, n: nat)
    requires Ones(m, n)
    ensures BitsOf(Masked(x, m), n) == BitsOf(x, n)
    decreases n
  {
    hide Half, Odd, Masked;
    if n > 0 {
      HalfOfMasked(x, m);
      BitsOfMasked(Half(x), Half(m), n - 1);
    }
  }

  predicate Ones(m: bv64, n: nat)
    decreases n
  {
    n == 0 || (Odd(m) && Ones(Half(m), n - 1))
  }

  lemma EightOnes()
    ensures Ones(0xFF, 8)
  {
    assert Ones(0x0F, 4);
    assert Ones(0x3F, 6);
  }

  lemma {:induction false} BitsOfOctets(x: bv64, count: nat)
    ensures BitsOfAll(OctetsOf(x, count)) == BitsOf(x, 8 * count)
    decreases count
  {
    hide BitsOf, Halves;
    if count == 0 {
      NoBits(x);
    } else {
      BitsOfOctets(x >> 8, count - 1);
      BitsSplit(x, 8, 8 * (count - 1));
      HalvesBy8(x);
      EightOnes();
      BitsOfMasked(x, 0xFF, 8);
    }
  }

  lemma NoBits(x: bv64)
    ensures BitsOf(x, 0) == []
  {
  }

  lemma {:induction false} StepsOfZero(poly: bv64, n: nat)
    ensures Steps(poly, 0, n) == 0
  {
    if n > 0 {
      StepsOfZero(poly, n - 1);
    }
  }

  /** A register that is fed `b` after it held `r` only sees what the two differ in. */
  lemma FedBehind(poly: bv64, r: bv64, m: seq<octet>, b: bv64, count: nat)
    requires Halves(b, 8 * count) == 0
    ensures Register(poly, r, m + OctetsOf(b, count)) == Steps(poly, Add(Register(poly, r, m), b), 8 * count)
  {
    hide *;
    var s := Register(poly, r, m);
    RegisterAppend(poly, r, m, OctetsOf(b, count));
    BitsOfOctets(b, count);
    RegisterIs(poly, s, OctetsOf(b, count));
    FeedBits(poly, s, b, 8 * count);
    AddTwice(FeedAll(poly, s, BitsOf(b, 8 * count)));
  }

  lemma RegisterIs(poly: bv64, r: bv64, m: seq<octet>)
    ensures Register(poly, r, m) == FeedAll(poly, r, BitsOfAll(m))
  {
  }

  lemma NothingAbove(x: bv64, mask: bv64)
    requires (mask == 0xFFFF || mask == 0xFFFF_FFFF || mask == 0xFFFF_FFFF_FFFF_FFFF) && Fits(x, mask)
    ensures Halves(x, Width(mask)) == 0
  {
    hide Halves;
    if mask == 0xFFFF {
      HalvesBy16(x);
    } else if mask == 0xFFFF_FFFF {
      HalvesBy32(x);
    } else {
      HalvesBy63(x);
      HalvesAdd(x, 63, 1);
      LastHalf(x >> 63);
    }
  }

  lemma LastHalf(x: bv64)
    requires x < 2
    ensures Halves(x, 1) == 0
  {
    assert Halves(x, 1) == Half(x);
  }

  /** A message with its own register behind it leaves nothing in the register. */
  lemma OwnRegister(poly: bv64, mask: bv64, r: bv64, m: seq<octet>)
    requires Proper(poly, mask) && Fits(r, mask)
    ensures Register(poly, r, m + OctetsOf(Register(poly, r, m), Width(mask) / 8)) == 0
  {
    hide Register, Halves, Steps, Fits, Add;
    var s := Register(poly, r, m);
    StaysInWidth(poly, mask, r, m);
    NothingAbove(s, mask);
    assert Width(mask) == 8 * (Width(mask) / 8);
    FedBehind(poly, r, m, s, Width(mask) / 8);
    AddTwice(s);
    StepsOfZero(poly, Width(mask));
  }

  lemma Crc16OfItself(crc: Crc16.word16, m: seq<octet>)
    ensures Register(Crc16.POLY, crc, m + OctetsOf(Register(Crc16.POLY, crc, m), 2)) == 0
  {
    hide Register;
    Crc16.PolyIsProper();
    OwnRegister(Crc16.POLY, Crc16.MASK, crc, m);
  }

  lemma Crc64OfItself(crc: Crc64.word64, m: seq<octet>)
    ensures Register(Crc64.POLY, crc, m + OctetsOf(Register(Crc64.POLY, crc, m), 8)) == 0
  {
    hide Register;
    Crc64.PolyIsProper();
    OwnRegister(Crc64.POLY, Crc64.MASK, crc, m);
  }

  // ---------------------------------------------------------------- with the inversions of CRC-32

  lemma AddInverted(r: bv64)
    ensures Add(r, Crc32.Inverted(r)) == 0xFFFF_FFFF
  {
  }

  lemma FourBytesOfOnes()
    ensures Step8(Crc32.POLY, 0xFFFF_FFFF) == 0x2DFD_1072 && Step8(Crc32.POLY, 0x2DFD_1072) == 0xBE26_ED00
    ensures Step8(Crc32.POLY, 0xBE26_ED00) == 0x00BE_26ED && Step8(Crc32.POLY, 0x00BE_26ED) == 0xDEBB_20E3
  {
  }

  /** All ones, and then 32 zero bits. */
  lemma StepsOfOnes()
    ensures Steps(Crc32.POLY, 0xFFFF_FFFF, 32) == 0xDEBB_20E3
  {
    hide *;
    FourBytesOfOnes();
    EightSteps(Crc32.POLY, 0xFFFF_FFFF);
    EightSteps(Crc32.POLY, 0x2DFD_1072);
    EightSteps(Crc32.POLY, 0xBE26_ED00);
    EightSteps(Crc32.POLY, 0x00BE_26ED);
    StepsSplit(Crc32.POLY, 0xFFFF_FFFF, 8, 24);
    StepsSplit(Crc32.POLY, 0x2DFD_1072, 8, 16);
    StepsSplit(Crc32.POLY, 0xBE26_ED00, 8, 8);
  }

  lemma {:induction false} StepsSplit(poly: bv64, r: bv64, a: nat, b: nat)
    ensures Steps(poly, r, a + b) == Steps(poly, Steps(poly, r, a), b)
    decreases a
  {
    hide Feed;
    if a > 0 {
      StepsSplit(poly, Feed(poly, r, false), a - 1, b);
    }
  }

  /** A message with its own checksum behind it has the same checksum as every other such message. */
  lemma Crc32OfItself(crc: Crc32.word32, m: seq<octet>)
    ensures Crc32.Checksum(crc, m + OctetsOf(Crc32.Checksum(crc, m), 4)) == 0x2144_DF1C
  {
    hide Register, Halves, Steps, Add, Fits;
    var r := Register(Crc32.POLY, Crc32.Inverted(crc), m);
    var sum := Crc32.Checksum(crc, m);
    Crc32.ChecksumFits(crc, m);
    NothingAbove(sum, Crc32.MASK);
    FedBehind(Crc32.POLY, Crc32.Inverted(crc), m, sum, 4);
    AddInverted(r);
    StepsOfOnes();
  }
}
