/**
 The bit-serial shift register behind every reflected CRC.  All registers, of 16, 32 or 64 bits, are
 kept in the low bits of a 64-bit vector; a mask of ones says how wide the register is.
 */
module CrcRegister {
  type octet = x: bv64 | x < 256

  function Add(x: bv64, y: bv64): bv64 { x ^ y }

  function Half(x: bv64): bv64 { x >> 1 }

  predicate Odd(x: bv64) { x & 1 == 1 }

  // ---------------------------------------------------------------- the register

  /** One bit goes in, one falls out; if they differ the polynomial is added. */
  function Feed(poly: bv64, r: bv64, bit: bool): bv64
  {
    if Odd(r) != bit then Add(Half(r), poly) else Half(r)
  }

  function FeedAll(poly: bv64, r: bv64, bits: seq<bool>): bv64
    decreases bits
  {
    if bits == [] then r else FeedAll(poly, Feed(poly, r, bits[0]), bits[1..])
  }

  /** The lowest n bits of a byte, from the lowest up. */
  function BitsOf(b: bv64, n: nat): seq<bool>
    decreases n
  {
    if n == 0 then [] else [Odd(b)] + BitsOf(Half(b), n - 1)
  }

  function BitsOfAll(m: seq<octet>): seq<bool>
  {
    if m == [] then [] else BitsOf(m[0], 8) + BitsOfAll(m[1..])
  }

  /** The register after a whole message. */
  function Register(poly: bv64, r: bv64, m: seq<octet>): bv64
  {
    FeedAll(poly, r, BitsOfAll(m))
  }

  lemma {:induction false} FeedAppend(poly: bv64, r: bv64, a: seq<bool>, b: seq<bool>)
    ensures FeedAll(poly, r, a + b) == FeedAll(poly, FeedAll(poly, r, a), b)
    decreases a
  {
    hide Feed;
    if a == [] {
      assert a + b == b;
    } else {
      assert (a + b)[1..] == a[1..] + b;
      FeedAppend(poly, Feed(poly, r, a[0]), a[1..], b);
    }
  }

  lemma {:induction false} BitsAppend(a: seq<octet>, b: seq<octet>)
    ensures BitsOfAll(a + b) == BitsOfAll(a) + BitsOfAll(b)
  {
    hide BitsOf;
    if a == [] {
      assert a + b == b;
    } else {
      assert (a + b)[1..] == a[1..] + b;
      BitsAppend(a[1..], b);
    }
  }

  /** A message may be fed in parts. */
  lemma RegisterAppend(poly: bv64, r: bv64, a: seq<octet>, b: seq<octet>)
    ensures Register(poly, r, a + b) == Register(poly, Register(poly, r, a), b)
  {
    BitsAppend(a, b);
    FeedAppend(poly, r, BitsOfAll(a), BitsOfAll(b));
  }

  // ---------------------------------------------------------------- eight bits at once

  /** n zero bits go in. */
  function Steps(poly: bv64, r: bv64, n: nat): bv64
    decreases n
  {
    if n == 0 then r else Steps(poly, Feed(poly, r, false), n - 1)
  }

  function Step8(poly: bv64, r: bv64): bv64
  {
    var r2 := Feed(poly, Feed(poly, r, false), false);
    var r4 := Feed(poly, Feed(poly, r2, false), false);
    var r6 := Feed(poly, Feed(poly, r4, false), false);
    Feed(poly, Feed(poly, r6, false), false)
  }

  lemma EightSteps(poly: bv64, r: bv64)
    ensures Steps(poly, r, 8) == Step8(poly, r)
  {
    hide Feed;
    var r2 := Feed(poly, Feed(poly, r, false), false);
    assert Steps(poly, r, 8) == Steps(poly, r2, 6);
    var r4 := Feed(poly, Feed(poly, r2, false), false);
    assert Steps(poly, r2, 6) == Steps(poly, r4, 4);
    var r6 := Feed(poly, Feed(poly, r4, false), false);
    assert Steps(poly, r4, 4) == Steps(poly, r6, 2);
    assert Steps(poly, r6, 2) == Feed(poly, Feed(poly, r6, false), false);
  }

  /** One of eight entries of a row of a table. */
  function Pick(k: bv64, a: bv64, b: bv64, c: bv64, d: bv64, e: bv64, f: bv64, g: bv64, h: bv64): bv64
  {
    if k < 4 then (if k < 2 then (if k == 0 then a else b) else (if k == 2 then c else d))
    else (if k < 6 then (if k == 4 then e else f) else (if k == 6 then g else h))
  }

  lemma AddAssoc(x: bv64, y: bv64, z: bv64)
    ensures Add(Add(x, y), z) == Add(x, Add(y, z))
  {
  }

  lemma AddComm(x: bv64, y: bv64)
    ensures Add(x, y) == Add(y, x)
  {
  }

  lemma AddTwice(x: bv64)
    ensures Add(x, x) == 0 && Add(x, 0) == x && Add(0, x) == x
  {
  }

  lemma AddBoth(x: bv64, y: bv64, p: bv64)
    ensures Add(Add(x, p), Add(y, p)) == Add(x, y)
    ensures Add(Add(x, p), y) == Add(Add(x, y), p)
    ensures Add(x, Add(y, p)) == Add(Add(x, y), p)
  {
    hide Add;
    AddAssoc(x, y, p);
    AddAssoc(x, p, y);
    AddComm(p, y);
    AddAssoc(Add(x, p), y, p);
    AddAssoc(Add(x, y), p, p);
    AddTwice(p);
    AddTwice(Add(x, y));
  }

  lemma HalfAdd(x: bv64, y: bv64)
    ensures Half(Add(x, y)) == Add(Half(x), Half(y))
  {
  }

  lemma OddAdd(x: bv64, y: bv64)
    ensures Odd(Add(x, y)) <==> Odd(x) != Odd(y)
  {
  }

  /** The register is linear: what two contents do together is the sum of what each does. */
  lemma {:induction false} StepsAreLinear(poly: bv64, x: bv64, y: bv64, n: nat)
    ensures Steps(poly, Add(x, y), n) == Add(Steps(poly, x, n), Steps(poly, y, n))
    decreases n
  {
    hide Add, Half, Odd;
    if n > 0 {
      HalfAdd(x, y);
      OddAdd(x, y);
      AddBoth(Half(x), Half(y), poly);
      StepsAreLinear(poly, Feed(poly, x, false), Feed(poly, y, false), n - 1);
    }
  }

  function Halves(x: bv64, n: nat): bv64
    decreases n
  {
    if n == 0 then x else Halves(Half(x), n - 1)
  }

  predicate NoOdd(x: bv64, n: nat)
    decreases n
  {
    n == 0 || (!Odd(x) && NoOdd(Half(x), n - 1))
  }

  /** With nothing in its low bits the register only shifts. */
  lemma {:induction false} StepsOfHigh(poly: bv64, x: bv64, n: nat)
    requires NoOdd(x, n)
    ensures Steps(poly, x, n) == Halves(x, n)
    decreases n
  {
    hide Add, Half, Odd;
    if n > 0 {
      StepsOfHigh(poly, Half(x), n - 1);
    }
  }

  /** Feeding the bits of a byte, or adding the byte to the register first. */
  lemma {:induction false} FeedBits(poly: bv64, r: bv64, b: bv64, n: nat)
    ensures Steps(poly, Add(r, b), n) == Add(FeedAll(poly, r, BitsOf(b, n)), Halves(b, n))
    decreases n
  {
    hide Add, Half, Odd;
    if n > 0 {
      HalfAdd(r, b);
      OddAdd(r, b);
      AddBoth(Half(r), Half(b), poly);
      FeedBits(poly, Feed(poly, r, Odd(b)), Half(b), n - 1);
      var bits := BitsOf(b, n);
      assert bits[0] == Odd(b) && bits[1..] == BitsOf(Half(b), n - 1);
    }
  }

  /** A byte has nothing above its eight bits. */
  lemma HalvesOfOctet(b: octet)
    ensures Halves(b, 8) == 0
  {
    HalvesBy8(b);
  }

  lemma HalvesBy8(x: bv64)
    ensures Halves(x, 8) == x >> 8
  {
    var x2 := Half(Half(x));
    assert Halves(x, 8) == Halves(x2, 6);
    var x4 := Half(Half(x2));
    assert Halves(x2, 6) == Halves(x4, 4);
    var x6 := Half(Half(x4));
    assert Halves(x4, 4) == Halves(x6, 2);
    assert Halves(x6, 2) == Half(Half(x6));
  }

  lemma HighIsEven(x: bv64)
    ensures NoOdd(x & 0xFFFF_FFFF_FFFF_FF00, 8)
  {
    var y := x & 0xFFFF_FFFF_FFFF_FF00;
    var y2 := Half(Half(y));
    assert NoOdd(y, 8) == NoOdd(y2, 6);
    var y4 := Half(Half(y2));
    assert NoOdd(y2, 6) == NoOdd(y4, 4);
    var y6 := Half(Half(y4));
    assert NoOdd(y4, 4) == NoOdd(y6, 2);
    assert NoOdd(y6, 2);
  }

  const HIGH: bv64 := 0xFFFF_FFFF_FFFF_FF00

  lemma LowAndHigh(x: bv64)
    ensures x == Add(x & 0xFF, x & HIGH) && (x & HIGH) >> 8 == x >> 8
  {
  }

  lemma AddOctetHigh(r: bv64, b: octet)
    ensures Add(r, b) >> 8 == r >> 8
  {
  }

  /** The step of the table-driven loops: eight bits go in by one look at a table of 256 entries. */
  lemma ByteStep(poly: bv64, r: bv64, b: octet)
    ensures FeedAll(poly, r, BitsOf(b, 8)) == Add(Steps(poly, Add(r, b) & 0xFF, 8), r >> 8)
  {
    hide Add, Steps, Halves, NoOdd, FeedAll, BitsOf;
    var x := Add(r, b);
    FeedBits(poly, r, b, 8);
    HalvesOfOctet(b);
    AddTwice(FeedAll(poly, r, BitsOf(b, 8)));
    LowAndHigh(x);
    StepsAreLinear(poly, x & 0xFF, x & HIGH, 8);
    HighIsEven(x);
    StepsOfHigh(poly, x & HIGH, 8);
    HalvesBy8(x & HIGH);
    AddOctetHigh(r, b);
  }

  lemma RegisterOne(poly: bv64, r: bv64, m: seq<octet>, b: octet)
    ensures Register(poly, r, m + [b]) == Add(Steps(poly, Add(Register(poly, r, m), b) & 0xFF, 8), Register(poly, r, m) >> 8)
  {
    hide Add, Steps, FeedAll, BitsOf;
    RegisterAppend(poly, r, m, [b]);
    ByteStep(poly, Register(poly, r, m), b);
    assert BitsOfAll([b]) == BitsOf(b, 8);
  }

  // ---------------------------------------------------------------- no step loses anything

  predicate Fits(x: bv64, mask: bv64) { x & mask == x }

  /** A register of the width of the mask, with a polynomial that has its top bit. */
  predicate Proper(poly: bv64, mask: bv64)
  {
    (mask == 0xFFFF || mask == 0xFFFF_FFFF || mask == 0xFFFF_FFFF_FFFF_FFFF) &&
    Fits(poly, mask) && poly & Top(mask) != 0
  }

  lemma FeedFits(poly: bv64, mask: bv64, r: bv64, bit: bool)
    requires Proper(poly, mask) && Fits(r, mask)
    ensures Fits(Feed(poly, r, bit), mask)
  {
    hide Half, Add, Odd, Fits, Top;
    HalfFits(r, mask);
    SumFits(Half(r), poly, mask);
  }

  lemma HalfFits(r: bv64, mask: bv64)
    requires (mask == 0xFFFF || mask == 0xFFFF_FFFF || mask == 0xFFFF_FFFF_FFFF_FFFF) && Fits(r, mask)
    ensures Fits(Half(r), mask)
  {
  }

  function Top(mask: bv64): bv64 { mask & (0xFFFF_FFFF_FFFF_FFFF ^ (mask >> 1)) }

  lemma HalfLeavesTop(x: bv64, mask: bv64)
    requires Fits(x, mask)
    ensures Half(x) & Top(mask) == 0
  {
  }

  lemma AddShowsTop(h: bv64, poly: bv64, top: bv64)
    requires h & top == 0
    ensures Add(h, poly) & top == poly & top
  {
  }

  lemma HalfAndOdd(x: bv64, y: bv64)
    requires Half(x) == Half(y) && Odd(x) == Odd(y)
    ensures x == y
  {
  }

  lemma AddCancels(x: bv64, y: bv64, p: bv64)
    requires Add(x, p) == Add(y, p)
    ensures x == y
  {
    hide Add;
    AddAssoc(x, p, p);
    AddAssoc(y, p, p);
    AddTwice(p);
    AddTwice(x);
    AddTwice(y);
  }

  predicate Shows(x: bv64, top: bv64) { x & top != 0 }

  lemma AddIsSeen(h: bv64, poly: bv64, top: bv64)
    requires !Shows(h, top) && Shows(poly, top)
    ensures Shows(Add(h, poly), top)
  {
    hide Add;
    AddShowsTop(h, poly, top);
  }

  lemma SameAfterFeed(poly: bv64, top: bv64, x: bv64, y: bv64, bit: bool)
    requires Shows(poly, top) && !Shows(Half(x), top) && !Shows(Half(y), top)
    requires Feed(poly, x, bit) == Feed(poly, y, bit)
    ensures x == y
  {
    hide Add, Half, Odd, Shows;
    AddIsSeen(Half(x), poly, top);
    AddIsSeen(Half(y), poly, top);
    if Odd(x) != bit && Odd(y) != bit {
      AddCancels(Half(x), Half(y), poly);
    }
    HalfAndOdd(x, y);
  }

  /** The bit at the top tells whether the polynomial was added, so no step loses anything. */
  lemma FeedIsInjective(poly: bv64, mask: bv64, x: bv64, y: bv64, bit: bool)
    requires Proper(poly, mask) && Fits(x, mask) && Fits(y, mask) && Feed(poly, x, bit) == Feed(poly, y, bit)
    ensures x == y
  {
    hide Feed, Half, Top, Fits;
    HalfLeavesTop(x, mask);
    HalfLeavesTop(y, mask);
    SameAfterFeed(poly, Top(mask), x, y, bit);
  }

  lemma {:induction false} FeedAllIsInjective(poly: bv64, mask: bv64, x: bv64, y: bv64, bits: seq<bool>)
    requires Proper(poly, mask) && Fits(x, mask) && Fits(y, mask) && x != y
    ensures FeedAll(poly, x, bits) != FeedAll(poly, y, bits)
    decreases bits
  {
    hide Feed, Proper, Fits;
    if bits != [] {
      FeedFits(poly, mask, x, bits[0]);
      FeedFits(poly, mask, y, bits[0]);
      if Feed(poly, x, bits[0]) == Feed(poly, y, bits[0]) {
        FeedIsInjective(poly, mask, x, y, bits[0]);
      }
      FeedAllIsInjective(poly, mask, Feed(poly, x, bits[0]), Feed(poly, y, bits[0]), bits[1..]);
    }
  }

  lemma {:induction false} RegisterFits(poly: bv64, mask: bv64, r: bv64, bits: seq<bool>)
    requires Proper(poly, mask) && Fits(r, mask)
    ensures Fits(FeedAll(poly, r, bits), mask)
    decreases bits
  {
    hide Feed, Proper, Fits;
    if bits != [] {
      FeedFits(poly, mask, r, bits[0]);
      RegisterFits(poly, mask, Feed(poly, r, bits[0]), bits[1..]);
    }
  }

  lemma StaysInWidth(poly: bv64, mask: bv64, r: bv64, m: seq<octet>)
    requires Proper(poly, mask) && Fits(r, mask)
    ensures Fits(Register(poly, r, m), mask)
  {
    hide FeedAll;
    RegisterFits(poly, mask, r, BitsOfAll(m));
  }

  lemma RegisterOfNothing(poly: bv64, r: bv64)
    ensures Register(poly, r, []) == r
  {
  }

  lemma {:induction false} StepsAreInjective(poly: bv64, mask: bv64, x: bv64, y: bv64, n: nat)
    requires Proper(poly, mask) && Fits(x, mask) && Fits(y, mask) && x != y
    ensures Steps(poly, x, n) != Steps(poly, y, n)
    decreases n
  {
    hide Feed, Proper, Fits;
    if n > 0 {
      FeedFits(poly, mask, x, false);
      FeedFits(poly, mask, y, false);
      if Feed(poly, x, false) == Feed(poly, y, false) {
        FeedIsInjective(poly, mask, x, y, false);
      }
      StepsAreInjective(poly, mask, Feed(poly, x, false), Feed(poly, y, false), n - 1);
    }
  }

  // ---------------------------------------------------------------- a burst of wrong bits

  function Width(mask: bv64): nat
  {
    if mask == 0xFFFF then 16 else if mask == 0xFFFF_FFFF then 32 else 64
  }

  function Unit(bit: bool): bv64 { if bit then 1 else 0 }

  function Double(x: bv64): bv64 { x << 1 }

  /** Bits in a vector, the first one lowest. */
  function Packed(bits: seq<bool>): bv64
  {
    if bits == [] then 0 else Add(Double(Packed(bits[1..])), Unit(bits[0]))
  }

  lemma {:induction false} HalvesAdd(x: bv64, a: nat, b: nat)
    ensures Halves(x, a + b) == Halves(Halves(x, a), b)
    decreases a
  {
    hide Half;
    if a > 0 {
      HalvesAdd(Half(x), a - 1, b);
    }
  }

  lemma {:induction false} HalvesOfZero(n: nat)
    ensures Halves(0, n) == 0
  {
    if n > 0 {
      HalvesOfZero(n - 1);
    }
  }

  lemma HalvesMore(x: bv64, a: nat, b: nat)
    requires Halves(x, a) == 0 && a <= b
    ensures Halves(x, b) == 0
  {
    hide Halves;
    HalvesAdd(x, a, b - a);
    HalvesOfZero(b - a);
  }

  lemma HalvesBy7(x: bv64)
    ensures Halves(x, 7) == x >> 7
  {
    var x2 := Half(Half(x));
    assert Halves(x, 7) == Halves(x2, 5);
    var x4 := Half(Half(x2));
    assert Halves(x2, 5) == Halves(x4, 3);
    assert Halves(x4, 3) == Half(Half(Half(x4)));
  }

  lemma ShiftSums(x: bv64)
    ensures (x >> 8) >> 8 == x >> 16 && (x >> 16) >> 16 == x >> 32
  {
  }

  lemma MoreShiftSums(x: bv64)
    ensures (x >> 32) >> 16 == x >> 48 && (x >> 48) >> 8 == x >> 56 && (x >> 56) >> 7 == x >> 63
  {
  }

  lemma HalvesBy16(x: bv64)
    ensures Halves(x, 16) == x >> 16
  {
    hide *;
    var y := Halves(x, 8);
    HalvesAdd(x, 8, 8);
    HalvesBy8(x);
    HalvesBy8(y);
    ShiftSums(x);
  }

  lemma HalvesBy32(x: bv64)
    ensures Halves(x, 32) == x >> 32
  {
    hide *;
    var y := Halves(x, 16);
    HalvesAdd(x, 16, 16);
    HalvesBy16(x);
    HalvesBy16(y);
    ShiftSums(x);
  }

  lemma HalvesBy63(x: bv64)
    ensures Halves(x, 63) == x >> 63
  {
    hide Halves;
    MoreShiftSums(x);
    HalvesAdd(x, 32, 31);
    HalvesBy32(x);
    HalvesAdd(x >> 32, 16, 15);
    HalvesBy16(x >> 32);
    HalvesAdd(x >> 48, 8, 7);
    HalvesBy8(x >> 48);
    HalvesBy7(x >> 56);
  }

  /** Nothing above its width. */
  lemma LowBitsFit(x: bv64, poly: bv64, mask: bv64)
    requires Proper(poly, mask) && Halves(x, Width(mask)) == 0
    ensures Fits(x, mask)
  {
    hide Halves;
    if mask == 0xFFFF {
      HalvesBy16(x);
    } else if mask == 0xFFFF_FFFF {
      HalvesBy32(x);
    }
  }

  lemma DoubleIsEven(x: bv64)
    ensures !Odd(Double(x))
  {
  }

  lemma DoubleAndHalf(x: bv64)
    requires x >> 63 == 0
    ensures Half(Double(x)) == x
  {
  }

  lemma UnitMeans(bit: bool)
    ensures Half(Unit(bit)) == 0 && Odd(Unit(bit)) == bit
  {
  }

  lemma HalfOfDouble(x: bv64, bit: bool)
    requires x >> 63 == 0
    ensures Half(Add(Double(x), Unit(bit))) == x && Odd(Add(Double(x), Unit(bit))) == bit
  {
    hide Half, Add, Double, Unit, Odd;
    HalfAdd(Double(x), Unit(bit));
    OddAdd(Double(x), Unit(bit));
    DoubleIsEven(x);
    DoubleAndHalf(x);
    UnitMeans(bit);
    AddTwice(x);
  }

  lemma {:induction false} PackedMeans(bits: seq<bool>)
    requires |bits| <= 64
    ensures BitsOf(Packed(bits), |bits|) == bits && Halves(Packed(bits), |bits|) == 0
  {
    hide Half, Add, Double, Odd;
    if bits != [] {
      var x := Packed(bits[1..]);
      PackedMeans(bits[1..]);
      HalvesMore(x, |bits| - 1, 63);
      HalvesBy63(x);
      HalfOfDouble(x, bits[0]);
    }
  }

  /** Different bits, not more than fit in the register, leave different registers. */
  lemma BitsAreNoticed(poly: bv64, mask: bv64, r: bv64, u: seq<bool>, v: seq<bool>)
    requires Proper(poly, mask) && Fits(r, mask) && |u| == |v| <= Width(mask) && u != v
    ensures FeedAll(poly, r, u) != FeedAll(poly, r, v)
  {
    hide Add, Fits, Proper, Steps, FeedAll, BitsOf, Halves, Packed;
    var x, y := Packed(u), Packed(v);
    PackedMeans(u);
    PackedMeans(v);
    FeedBits(poly, r, x, |u|);
    FeedBits(poly, r, y, |v|);
    AddTwice(FeedAll(poly, r, u));
    AddTwice(FeedAll(poly, r, v));
    HalvesMore(x, |u|, Width(mask));
    HalvesMore(y, |v|, Width(mask));
    LowBitsFit(x, poly, mask);
    LowBitsFit(y, poly, mask);
    SumFits(r, x, mask);
    SumFits(r, y, mask);
    AddComm(r, x);
    AddComm(r, y);
    if Add(r, x) == Add(r, y) {
      AddCancels(x, y, r);
    }
    StepsAreInjective(poly, mask, Add(r, x), Add(r, y), |u|);
  }

  lemma SumFits(x: bv64, y: bv64, mask: bv64)
    requires Fits(x, mask) && Fits(y, mask)
    ensures Fits(Add(x, y), mask)
  {
  }

  /** Messages whose bits differ only within a stretch of the width of the register are told apart. */
  lemma BurstIsNoticed(poly: bv64, mask: bv64, r: bv64, a: seq<bool>, u: seq<bool>, v: seq<bool>, b: seq<bool>)
    requires Proper(poly, mask) && Fits(r, mask) && |u| == |v| <= Width(mask) && u != v
    ensures FeedAll(poly, r, a + u + b) != FeedAll(poly, r, a + v + b)
  {
    hide FeedAll, Fits, Proper;
    var r1 := FeedAll(poly, r, a);
    RegisterFits(poly, mask, r, a);
    FeedAppend(poly, r, a + u, b);
    FeedAppend(poly, r, a + v, b);
    FeedAppend(poly, r, a, u);
    FeedAppend(poly, r, a, v);
    BitsAreNoticed(poly, mask, r1, u, v);
    RegisterFits(poly, mask, r1, u);
    RegisterFits(poly, mask, r1, v);
    FeedAllIsInjective(poly, mask, FeedAll(poly, r1, u), FeedAll(poly, r1, v), b);
  }

  // ---------------------------------------------------------------- and of wrong bytes

  lemma {:induction false} BitsTell(x: bv64, y: bv64, n: nat)
    requires BitsOf(x, n) == BitsOf(y, n) && Halves(x, n) == Halves(y, n)
    ensures x == y
    decreases n
  {
    hide Half, Odd;
    if n > 0 {
      assert BitsOf(x, n)[0] == Odd(x) && BitsOf(y, n)[0] == Odd(y);
      assert BitsOf(x, n)[1..] == BitsOf(Half(x), n - 1) && BitsOf(y, n)[1..] == BitsOf(Half(y), n - 1);
      BitsTell(Half(x), Half(y), n - 1);
      HalfAndOdd(x, y);
    }
  }

  lemma {:induction false} BitsLength(b: bv64, n: nat)
    ensures |BitsOf(b, n)| == n
    decreases n
  {
    if n > 0 {
      BitsLength(Half(b), n - 1);
    }
  }

  lemma {:induction false} AllBitsLength(m: seq<octet>)
    ensures |BitsOfAll(m)| == 8 * |m|
  {
    hide BitsOf;
    if m != [] {
      BitsLength(m[0], 8);
      AllBitsLength(m[1..]);
    }
  }

  lemma {:induction false} AllBitsTell(m: seq<octet>, m': seq<octet>)
    requires |m| == |m'| && BitsOfAll(m) == BitsOfAll(m')
    ensures m == m'
  {
    hide BitsOf, Halves;
    if m != [] {
      BitsLength(m[0], 8);
      BitsLength(m'[0], 8);
      assert BitsOfAll(m)[..8] == BitsOf(m[0], 8) && BitsOfAll(m')[..8] == BitsOf(m'[0], 8);
      assert BitsOfAll(m)[8..] == BitsOfAll(m[1..]) && BitsOfAll(m')[8..] == BitsOfAll(m'[1..]);
      HalvesOfOctet(m[0]);
      HalvesOfOctet(m'[0]);
      BitsTell(m[0], m'[0], 8);
      AllBitsTell(m[1..], m'[1..]);
      assert m == [m[0]] + m[1..] && m' == [m'[0]] + m'[1..];
    }
  }

  /** Different messages of one length that are alike outside `count` bytes from `k` on. */
  predicate DifferWithin(m: seq<octet>, m': seq<octet>, k: nat, count: nat)
  {
    m != m' && |m| == |m'| && k + count <= |m| && m[..k] == m'[..k] && m[k + count..] == m'[k + count..]
  }

  /** As many bytes in a row as the register has are always noticed. */
  lemma BytesInARowAreNoticed(poly: bv64, mask: bv64, r: bv64, m: seq<octet>, m': seq<octet>, k: nat, count: nat)
    requires Proper(poly, mask) && Fits(r, mask) && 8 * count <= Width(mask) && DifferWithin(m, m', k, count)
    ensures Register(poly, r, m) != Register(poly, r, m')
  {
    hide FeedAll, BitsOfAll, Proper, Fits;
    var a, u, v, b := m[..k], m[k..k + count], m'[k..k + count], m[k + count..];
    assert m == a + u + b && m' == a + v + b;
    BitsAppend(a + u, b);
    BitsAppend(a, u);
    BitsAppend(a + v, b);
    BitsAppend(a, v);
    AllBitsLength(u);
    AllBitsLength(v);
    if BitsOfAll(u) == BitsOfAll(v) {
      AllBitsTell(u, v);
    }
    BurstIsNoticed(poly, mask, r, BitsOfAll(a), BitsOfAll(u), BitsOfAll(v), BitsOfAll(b));
  }

  predicate DifferAt(m: seq<octet>, m': seq<octet>, k: nat)
  {
    |m| == |m'| && k < |m| && m[k] != m'[k] && m[..k] == m'[..k] && m[k + 1..] == m'[k + 1..]
  }

  /** Messages of one length that differ in exactly one byte never have the same register. */
  lemma OneByteIsNoticed(poly: bv64, mask: bv64, r: bv64, m: seq<octet>, m': seq<octet>, k: nat)
    requires Proper(poly, mask) && Fits(r, mask) && DifferAt(m, m', k)
    ensures Register(poly, r, m) != Register(poly, r, m')
  {
    hide Register, Proper, Fits;
    BytesInARowAreNoticed(poly, mask, r, m, m', k, 1);
  }
}
