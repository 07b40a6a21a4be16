/**
 The base-128 packed number: seven bits a byte, most significant group first,
 bit 7 set on every byte but the last (outBuffer::put_PN$, oBuf::put_PN$,
 outBitStream::put_PN$ and the three get_PN readers).
 */
module PackedNumber {
  import opened Prelude

  // ---------------------------------------------------------------- specification

  /** The groups of `n` that are not the last one; nothing for zero. */
  function HighGroups(n: nat): Bytes
  {
    if n == 0 then [] else HighGroups(n / 128) + [128 + n % 128]
  }

  function Pack(n: nat): Bytes
  {
    HighGroups(n / 128) + [n % 128]
  }

  /** `NN <<= 7; NN |= c & 0x7F` on a 64-bit word; the two parts never overlap. */
  function Accumulate(acc: nat, c: byte): nat
  {
    (acc * 128 + c % 128) % TWO_64
  }

  /** What the readers compute: a 64-bit accumulator, shifted left by seven bits for every byte. */
  function UnpackFrom(acc: nat, s: Bytes): Option<(nat, Bytes)>
    decreases s
  {
    if s == [] then None
    else
      var next := Accumulate(acc, s[0]);
      if s[0] < 128 then Some((next, s[1..])) else UnpackFrom(next, s[1..])
  }

  function Unpack(s: Bytes): Option<(nat, Bytes)>
  {
    UnpackFrom(0, s)
  }

  // ---------------------------------------------------------------- round trip

  /** Reading the leading groups of `n` leaves `n` in an accumulator that started at zero. */
  lemma {:induction false} UnpackHighGroups(n: nat, tail: Bytes)
    requires n < TWO_64
    ensures UnpackFrom(0, HighGroups(n) + tail) == UnpackFrom(n, tail)
  {
    hide Accumulate;
    if n == 0 {
      assert HighGroups(n) + tail == tail;
    } else {
      var low := [128 + n % 128];
      Assoc(HighGroups(n / 128), low, tail);
      UnpackHighGroups(n / 128, low + tail);
      AccumulateLowGroup(n, 128 + n % 128);
      assert (low + tail)[1..] == tail;
    }
  }

  lemma AccumulateLowGroup(n: nat, c: byte)
    requires n < TWO_64 && c % 128 == n % 128
    ensures Accumulate(n / 128, c) == n
  {
  }

  /** Every 64-bit number is recovered, whatever follows it in the buffer. */
  lemma UnpackPack(n: nat, tail: Bytes)
    requires n < TWO_64
    ensures Unpack(Pack(n) + tail) == Some((n, tail))
  {
    hide Accumulate;
    var low := [n % 128];
    Assoc(HighGroups(n / 128), low, tail);
    UnpackHighGroups(n / 128, low + tail);
    AccumulateLowGroup(n, n % 128);
    assert (low + tail)[1..] == tail;
  }

  // ---------------------------------------------------------------- shape of the encoding

  lemma {:induction false} HighGroupsShape(n: nat, bound: nat)
    requires n < TWO_64
    requires Shr(n, 7 * bound) == 0
    ensures |HighGroups(n)| <= bound
    ensures n > 0 ==> |HighGroups(n)| > 0 && HighGroups(n)[0] != 128
    ensures forall i :: 0 <= i < |HighGroups(n)| ==> HighGroups(n)[i] >= 128
  {
    if n > 0 {
      ShrDown(n, bound);
      HighGroupsShape(n / 128, bound - 1);
    }
  }

  /** Shifting by `bits` groups is dividing by 128 first and shifting by one group less. */
  lemma {:induction false} ShrDown(n: nat, bound: nat)
    requires n > 0 && Shr(n, 7 * bound) == 0
    ensures bound > 0 && Shr(n / 128, 7 * (bound - 1)) == 0
  {
    if bound > 0 {
      ShrCommutes(n, bound - 1);
      ShrBy7(n, 7 * (bound - 1));
    }
  }

  lemma {:induction false} ShrCommutes(n: nat, groups: nat)
    ensures Shr(n / 128, 7 * groups) == Shr(n, 7 * groups) / 128
  {
    if groups > 0 {
      ShrCommutes(n, groups - 1);
      ShrBy7(n, 7 * (groups - 1));
      ShrBy7(n / 128, 7 * (groups - 1));
    }
  }

  lemma NoGroups(n: nat, i: nat)
    requires Shr(n, i + 7) == 0
    ensures HighGroups(Shr(n, i + 7)) == []
  {
  }

  lemma ShrOfNone(n: nat)
    ensures Shr(n, 0) == n
  {
  }

  /** The group at bit `i` goes behind those above it; the last one completes the number. */
  lemma GroupStep(n: nat, i: nat)
    requires i % 7 == 0 && (i > 0 ==> Shr(n, i) != 0)
    ensures i > 0 ==> HighGroups(Shr(n, i)) == HighGroups(Shr(n, i + 7)) + [128 + Shr(n, i) % 128]
    ensures i > 0 ==> Shr(n, i - 7) != 0
    ensures i == 0 ==> Pack(n) == HighGroups(Shr(n, 7)) + [n % 128]
  {
    ShrBy7(n, i);
    if i > 0 {
      ShrBy7(n, i - 7);
    }
  }

  /** One to ten bytes, never a leading empty group, and only the last byte below 0x80. */
  lemma PackShape(n: nat)
    requires n < TWO_64
    ensures 1 <= |Pack(n)| <= 10
    ensures Pack(n)[0] != 128
    ensures Pack(n)[|Pack(n)| - 1] < 128
    ensures forall i :: 0 <= i < |Pack(n)| - 1 ==> Pack(n)[i] >= 128
  {
    ShrPastTop(n);
    ShrCommutes(n, 9);
    ShrBy7(n, 63);
    HighGroupsShape(n / 128, 9);
  }

  /** A buffer of continuation bytes only never yields a number. */
  lemma {:induction false} UnpackUnfinished(acc: nat, s: Bytes)
    requires forall i :: 0 <= i < |s| ==> s[i] >= 128
    ensures UnpackFrom(acc, s) == None
    decreases s
  {
    if s != [] {
      UnpackUnfinished(Accumulate(acc, s[0]), s[1..]);
    }
  }

  /** No strict prefix of an encoding decodes, so a reader always knows it must wait. */
  lemma StrictPrefixDoesNotDecode(n: nat, k: nat)
    requires n < TWO_64 && k < |Pack(n)|
    ensures Unpack(Pack(n)[..k]) == None
  {
    PackShape(n);
    UnpackUnfinished(0, Pack(n)[..k]);
  }

  /** Decoding consumes at least one byte and leaves a suffix of the input. */
  lemma {:induction false} UnpackConsumes(acc: nat, s: Bytes)
    ensures UnpackFrom(acc, s).Some? ==>
      var (n, rest) := UnpackFrom(acc, s).value;
      n < TWO_64 && |rest| < |s| && rest == s[|s| - |rest|..]
    decreases s
  {
    if s != [] && s[0] >= 128 {
      UnpackConsumes(Accumulate(acc, s[0]), s[1..]);
    }
  }

  /** More input after a decoded number only lengthens what is left. */
  lemma {:induction false} UnpackExtends(acc: nat, s: Bytes, more: Bytes)
    requires UnpackFrom(acc, s).Some?
    ensures UnpackFrom(acc, s + more) ==
            Some((UnpackFrom(acc, s).value.0, UnpackFrom(acc, s).value.1 + more))
    decreases s
  {
    assert (s + more)[1..] == s[1..] + more;
    if s[0] >= 128 {
      UnpackExtends(Accumulate(acc, s[0]), s[1..], more);
    }
  }

  // ---------------------------------------------------------------- the bit-stream variant

  /** outBitStream::put_PN$ starts at bit 56, so bit 63 never reaches the wire. */
  function PackFrom56(n: nat): Bytes
  {
    Pack(n % TWO_63)
  }

  /** Its value decodes to `n` modulo 2^63. */
  lemma BitStreamDecodes(n: nat, tail: Bytes)
    requires n < TWO_64
    ensures Unpack(PackFrom56(n) + tail) == Some((n % TWO_63, tail))
  {
    hide Pack, Unpack;
    UnpackPack(n % TWO_63, tail);
  }

  /** The two writers agree byte for byte exactly below 2^63. */
  lemma BitStreamAgrees(n: nat)
    requires n < TWO_64
    ensures PackFrom56(n) == Pack(n) <==> n < TWO_63
  {
    hide Pack, Unpack;
    UnpackPack(n, []);
    UnpackPack(n % TWO_63, []);
  }
}
