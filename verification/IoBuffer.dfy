/**
 inBuffer and outBuffer: a growing byte string with the packed-number writer, and
 a cursor over a fixed byte string with the packed-number and string readers.
 */
module IoBuffer {
  import opened Prelude
  import opened PackedNumber

  /** A length-prefixed string, as put_PSTR writes it; the length is a 64-bit word. */
  function PackString(s: Bytes): Bytes
  {
    Pack(|s| % TWO_64) + s
  }

  function UnpackString(s: Bytes): Option<(Bytes, Bytes)>
  {
    match Unpack(s)
    case None => None
    case Some((n, rest)) => if n > |rest| then None else Some((rest[..n], rest[n..]))
  }

  lemma UnpackPackString(s: Bytes, tail: Bytes)
    requires |s| < TWO_64
    ensures UnpackString(PackString(s) + tail) == Some((s, tail))
  {
    var n := |s| % TWO_64;
    assert n == |s|;
    assert PackString(s) + tail == Pack(n) + (s + tail);
    UnpackPack(n, s + tail);
    assert (s + tail)[..|s|] == s && (s + tail)[|s|..] == tail;
  }

  class OutBuffer {
    var container: Bytes

    constructor ()
      ensures container == []
    {
      container := [];
    }

    method Put8(c: byte)
      modifies this
      ensures container == old(container) + [c]
    {
      container := container + [c];
    }

    method Append(s: Bytes)
      modifies this
      ensures container == old(container) + s
    {
      container := container + s;
    }

    /** put_PN$: skip the empty leading groups from bit `start` down, then emit the rest. */
    method PutGroups(n: nat, start: int)
      requires n < TWO_64 && start >= 0 && start % 7 == 0 && Shr(n, start + 7) == 0
      modifies this
      ensures container == old(container) + Pack(n)
    {
      hide Shr, HighGroups, Pack;
      var i := start;
      while i >= 0
        invariant i >= 0 && i % 7 == 0 && Shr(n, i + 7) == 0
        invariant container == old(container)
      {
        if Shr(n, i) % 128 != 0 || i == 0 {
          NoGroups(n, i);
          while i >= 0
            invariant i >= -7 && i % 7 == 0
            invariant i > 0 ==> Shr(n, i) != 0
            invariant container == old(container) + if i >= 0 then HighGroups(Shr(n, i + 7)) else Pack(n)
          {
            GroupStep(n, i);
            if i != 0 {
              Put8(128 + Shr(n, i) % 128);
            } else {
              Put8(n % 128);
            }
            i := i - 7;
          }
          return;
        }
        ShrBy7(n, i);
        i := i - 7;
      }
    }

    method PutPN(n: nat)
      requires n < TWO_64
      modifies this
      ensures container == old(container) + Pack(n)
    {
      ShrPastTop(n);
      PutGroups(n, 63);
    }

    method PutPSTR(s: Bytes)
      modifies this
      ensures container == old(container) + PackString(s)
    {
      hide Pack;
      Assoc(container, Pack(|s| % TWO_64), s);
      PutPN(|s| % TWO_64);
      Append(s);
    }
  }

  class InBuffer {
    const data: Bytes
    var pos: nat

    ghost predicate Valid()
      reads this
    {
      pos <= |data|
    }

    /** The bytes not read yet. */
    function Rest(): Bytes
      requires Valid()
      reads this
    {
      data[pos..]
    }

    constructor (d: Bytes)
      ensures Valid() && data == d && Rest() == d
    {
      data := d;
      pos := 0;
    }

    /** get_8 and get_8_nothrow: None where the first throws and the second clears its flag. */
    method Get8() returns (r: Option<byte>)
      requires Valid()
      modifies this
      ensures Valid()
      ensures old(Rest()) == [] ==> r == None && Rest() == []
      ensures old(Rest()) != [] ==> r == Some(old(Rest())[0]) && Rest() == old(Rest())[1..]
    {
      if pos + 1 > |data| {
        return None;
      }
      r := Some(data[pos]);
      pos := pos + 1;
    }

    /** get_PN and get_PN_nothrow; a number cut short eats the whole buffer. */
    method GetPN() returns (r: Option<nat>)
      requires Valid()
      modifies this
      ensures Valid()
      ensures Unpack(old(Rest())) == None ==> r == None && Rest() == []
      ensures Unpack(old(Rest())).Some? ==>
                r == Some(Unpack(old(Rest())).value.0) && Rest() == Unpack(old(Rest())).value.1
    {
      var acc: nat := 0;
      while true
        invariant Valid()
        invariant UnpackFrom(acc, Rest()) == Unpack(old(Rest()))
        decreases |data| - pos
      {
        var c := Get8();
        if c.None? {
          return None;
        }
        acc := Accumulate(acc, c.value);
        if c.value < 128 {
          return Some(acc);
        }
      }
    }

    /** unpack_nothrow: takes exactly `size` bytes or nothing at all. */
    method Take(size: nat) returns (r: Option<Bytes>)
      requires Valid()
      modifies this
      ensures Valid()
      ensures size > |old(Rest())| ==> r == None && Rest() == old(Rest())
      ensures size <= |old(Rest())| ==> r == Some(old(Rest())[..size]) && Rest() == old(Rest())[size..]
    {
      if size > |data| - pos {
        return None;
      }
      r := Some(data[pos..pos + size]);
      assert data[pos..pos + size] == Rest()[..size];
      pos := pos + size;
    }

    /** get_PSTR and get_PSTR_nothrow; with too few bytes for its length the string stays unread behind it. */
    method GetPSTR() returns (r: Option<Bytes>)
      requires Valid()
      modifies this
      ensures Valid()
      ensures UnpackString(old(Rest())) == None ==>
                r == None && Rest() == match Unpack(old(Rest())) { case None => [] case Some((_, behind)) => behind }
      ensures UnpackString(old(Rest())).Some? ==>
                r == Some(UnpackString(old(Rest())).value.0) && Rest() == UnpackString(old(Rest())).value.1
    {
      var n := GetPN();
      if n.None? {
        return None;
      }
      r := Take(n.value);
    }
  }

  /** outBitStream::put_PN$ on a byte boundary: the same groups, started at bit 56. */
  method BitStreamPutPN(b: OutBuffer, n: nat)
    requires n < TWO_64
    modifies b
    ensures b.container == old(b.container) + PackFrom56(n)
  {
    ghost var m := n % TWO_63;
    GroupsBelow63(n, m);
    ShrPastTop(m);
    var i := 56;
    while i >= 0
      invariant 0 <= i <= 56 && i % 7 == 0 && Shr(m, i + 7) == 0
      invariant b.container == old(b.container)
    {
      if Shr(n, i) % 128 != 0 || i == 0 {
        BitStreamGroups(b, n, m, i);
        return;
      }
      ShrBy7(m, i);
      i := i - 7;
    }
  }

  /** The inner loop of the same writer, from the first group that is not empty. */
  method BitStreamGroups(b: OutBuffer, n: nat, ghost m: nat, first: int)
    requires 0 <= first <= 56 && first % 7 == 0 && SameGroups(n, m)
    requires Shr(m, first + 7) == 0 && (first > 0 ==> Shr(m, first) != 0)
    modifies b
    ensures b.container == old(b.container) + Pack(m)
  {
    hide Shr, HighGroups, Pack;
    NoGroups(m, first);
    ShrOfNone(n);
    ShrOfNone(m);
    var i := first;
    while i >= 0
      invariant -7 <= i <= 56 && i % 7 == 0
      invariant i > 0 ==> Shr(m, i) != 0
      invariant b.container == old(b.container) + if i >= 0 then HighGroups(Shr(m, i + 7)) else Pack(m)
    {
      assert Shr(n, i) % 128 == Shr(m, i) % 128;
      GroupStep(m, i);
      if i != 0 {
        b.Put8(128 + Shr(n, i) % 128);
      } else {
        b.Put8(n % 128);
      }
      i := i - 7;
    }
  }

  function Pow128(k: nat): nat
  {
    if k == 0 then 1 else 128 * Pow128(k - 1)
  }

  /** Every group a writer started at bit 56 looks at. */
  ghost predicate SameGroups(n: nat, m: nat)
  {
    forall i :: 0 <= i <= 56 && i % 7 == 0 ==> Shr(n, i) % 128 == Shr(m, i) % 128
  }

  /** None of them depends on bit 63. */
  lemma GroupsBelow63(n: nat, m: nat)
    requires n < TWO_64 && m == n % TWO_63
    ensures SameGroups(n, m)
  {
    hide Shr;
    if n >= TWO_63 {
      assert n == m + TWO_63;
      forall i | 0 <= i <= 56 && i % 7 == 0
        ensures Shr(n, i) % 128 == Shr(m, i) % 128
      {
        SameGroup(m, i / 7);
        assert i == 7 * (i / 7);
      }
    }
  }

  lemma SameGroup(m: nat, k: nat)
    requires k <= 8
    ensures Shr(m + TWO_63, 7 * k) % 128 == Shr(m, 7 * k) % 128
  {
    hide Shr;
    ShrTopBit(m, k);
    var x, y := Shr(m, 7 * k), Pow128(8 - k);
    Halves(x + 128 * y, 128, x / 128 + y, x % 128);
  }

  lemma {:induction false} ShrTopBit(m: nat, k: nat)
    requires k <= 9
    ensures Shr(m + TWO_63, 7 * k) == Shr(m, 7 * k) + Pow128(9 - k)
  {
    if k == 0 {
      assert Pow128(9) == TWO_63;
    } else {
      ShrTopBit(m, k - 1);
      ShrBy7(m, 7 * (k - 1));
      ShrBy7(m + TWO_63, 7 * (k - 1));
      assert Pow128(10 - k) == 128 * Pow128(9 - k);
    }
  }
}
