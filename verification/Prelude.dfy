/** Bytes, machine integers and the result types shared by the whole project. */
module Prelude {

  /** One octet of a buffer. */
  type byte = x: int | 0 <= x < 256

  type Bytes = seq<byte>

  datatype Option<+T> = None | Some(value: T)

  const TWO_32: int := 0x1_0000_0000
  const TWO_63: int := 0x8000_0000_0000_0000
  const TWO_64: int := 0x1_0000_0000_0000_0000

  type int32 = x: int | -0x8000_0000 <= x < 0x8000_0000
  type int64 = x: int | -TWO_63 <= x < TWO_63
  type uint64 = x: int | 0 <= x < TWO_64

  lemma Assoc<T>(a: seq<T>, b: seq<T>, c: seq<T>)
    ensures a + b + c == a + (b + c)
  {
  }

  /** Quotient and remainder are the only ones that fit. */
  lemma Halves(n: int, d: int, q: int, r: int)
    requires d > 0 && n == q * d + r && 0 <= r < d
    ensures n / d == q && n % d == r
  {
    var e := n / d - q;
    assert e * d == r - n % d;
    assert e == 0;
  }

  /** Unsigned right shift of a machine word, one bit at a time. */
  function Shr(n: nat, bits: nat): nat
  {
    if bits == 0 then n else Shr(n, bits - 1) / 2
  }

  lemma ShrBy7(n: nat, bits: nat)
    ensures Shr(n, bits + 7) == Shr(n, bits) / 128
  {
    assert Shr(n, bits + 7) == Shr(n, bits + 6) / 2;
    assert Shr(n, bits + 6) == Shr(n, bits + 5) / 2;
    assert Shr(n, bits + 5) == Shr(n, bits + 4) / 2;
    assert Shr(n, bits + 4) == Shr(n, bits + 3) / 2;
    assert Shr(n, bits + 3) == Shr(n, bits + 2) / 2;
    assert Shr(n, bits + 2) == Shr(n, bits + 1) / 2;
  }

  /** A word below 2^64 has nothing left above bit 69. */
  lemma ShrPastTop(n: nat)
    requires n < TWO_64
    ensures Shr(n, 70) == 0
    ensures Shr(n, 63) < 2
    ensures n < TWO_63 ==> Shr(n, 63) == 0
  {
    ShrBy7(n, 0);
    ShrBy7(n, 7);
    ShrBy7(n, 14);
    ShrBy7(n, 21);
    ShrBy7(n, 28);
    ShrBy7(n, 35);
    ShrBy7(n, 42);
    ShrBy7(n, 49);
    ShrBy7(n, 56);
    ShrBy7(n, 63);
  }
}
