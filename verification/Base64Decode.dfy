/** The two base64 decoders, and that they undo the encoding. */
module Base64Decode {
  import opened Prelude
  import opened Base64

  /** Reading up to a padding sign, and over everything that is not a letter. */
  function Cleaned(src: Bytes): seq<sextet>
  {
    if src == [] || src[0] == PAD then []
    else if IsLetter(src[0]) then [Place(src[0])] + Cleaned(src[1..])
    else Cleaned(src[1..])
  }

  /** Reading up to the first sign that is not a letter. */
  function Leading(src: Bytes): seq<sextet>
  {
    if src == [] || !IsLetter(src[0]) then [] else [Place(src[0])] + Leading(src[1..])
  }

  /** A text without the signs that have no meaning in base64. */
  function Stripped(text: Bytes): Bytes
  {
    if text == [] then []
    else if IsLetter(text[0]) || text[0] == PAD then [text[0]] + Stripped(text[1..])
    else Stripped(text[1..])
  }

  lemma {:induction false} ReadLetters(xs: seq<sextet>, tail: Bytes)
    requires tail == [] || tail[0] == PAD
    ensures Cleaned(Letters(xs) + tail) == xs && Leading(Letters(xs) + tail) == xs
  {
    hide Letter, Place;
    var text := Letters(xs) + tail;
    if xs == [] {
      assert text == tail;
    } else {
      PlaceOfLetter(xs[0]);
      ReadLetters(xs[1..], tail);
      assert text[1..] == Letters(xs[1..]) + tail;
      assert xs == [xs[0]] + xs[1..];
    }
  }

  /** Both readings of an encoded string give back the string. */
  lemma DecodeEncode(s: Bytes)
    ensures Octets(Cleaned(Encode(s))) == s && Octets(Leading(Encode(s))) == s
  {
    ReadLetters(Sextets(s), Padding(|s|));
    OctetsSextets(s);
  }

  lemma {:induction false} CleanedStripped(text: Bytes)
    ensures Cleaned(text) == Cleaned(Stripped(text))
  {
    if text != [] {
      CleanedStripped(text[1..]);
      if IsLetter(text[0]) || text[0] == PAD {
        assert Stripped(text)[1..] == Stripped(text[1..]);
      }
    }
  }

  /** White space, line breaks and any other foreign signs do no harm, wherever they were put. */
  lemma DecodeWithSpaces(s: Bytes, text: Bytes)
    requires Stripped(text) == Encode(s)
    ensures Octets(Cleaned(text)) == s
  {
    CleanedStripped(text);
    DecodeEncode(s);
  }

  // ---------------------------------------------------------------- the accumulator

  /** The decoding table: zero for everything that is not a letter, and for the first letter. */
  function Index(c: byte): sextet
  {
    if c == 43 then 62
    else if c == 47 then 63
    else if 48 <= c <= 57 then c + 4
    else if 65 <= c <= 90 then c - 65
    else if 97 <= c <= 122 then c - 71
    else 0
  }

  predicate Skipped(c: byte)
  {
    c in {10, 13, 32, 9} || c > 127 || (Index(c) == 0 && c != 'A' as int)
  }

  lemma TableIsAlphabet(c: byte)
    ensures Skipped(c) <==> !IsLetter(c)
    ensures IsLetter(c) ==> Index(c) == Place(c)
  {
  }

  /** What one more 6-bit group adds to the bytes. */
  ghost function NewOctets(xs: seq<sextet>, x: sextet): Bytes
  {
    var r := |xs| % 4;
    if r == 0 then []
    else if r == 1 then [Octet1(xs[|xs| - 1], x)]
    else if r == 2 then [Octet2(xs[|xs| - 1], x)]
    else [Octet3(xs[|xs| - 1], x)]
  }

  lemma {:induction false} OctetsSnoc(xs: seq<sextet>, x: sextet)
    ensures Octets(xs + [x]) == Octets(xs) + NewOctets(xs, x)
  {
    hide Octet1, Octet2, Octet3;
    if |xs| >= 4 {
      assert (xs + [x])[4..] == xs[4..] + [x];
      OctetsSnoc(xs[4..], x);
    }
  }

  /** Where the accumulator stands: the bits of no byte yet are in its low bits. */
  ghost predicate DecodePhase(xs: seq<sextet>, out: Bytes, val: int, valb: int)
  {
    var r := |xs| % 4;
    && out == Octets(xs)
    && valb == (if r == 0 then -8 else if r == 1 then -2 else if r == 2 then -4 else -6)
    && (r == 1 ==> val % 64 == xs[|xs| - 1])
    && (r == 2 ==> val % 16 == xs[|xs| - 1] % 16)
    && (r == 3 ==> val % 4 == xs[|xs| - 1] % 4)
  }

  lemma ShiftInSix(val: int, x: sextet)
    ensures var v := Wrap32(val * 64 + x);
            v % 64 == x && v % 4096 == val % 64 * 64 + x && v % 1024 == val % 16 * 64 + x && v % 256 == val % 4 * 64 + x
  {
    var v := Wrap32(val * 64 + x);
    var k := (val * 64 + x - v) / TWO_32;
    assert v == val * 64 + x - k * TWO_32;
    Halves(v, 64, val - k * 0x400_0000, x);
    Halves(v, 256, val / 4 - k * 0x100_0000, val % 4 * 64 + x);
    Halves(v, 1024, val / 16 - k * 0x40_0000, val % 16 * 64 + x);
    Halves(v, 4096, val / 64 - k * 0x10_0000, val % 64 * 64 + x);
  }

  lemma FirstOctet(v: int, w: sextet, x: sextet)
    requires v % 4096 == w * 64 + x
    ensures v / 16 % 256 == Octet1(w, x) && v % 16 == x % 16
  {
    Halves(v, 16, v / 4096 * 256 + w * 4 + x / 16, x % 16);
    Halves(v / 16, 256, v / 4096, w * 4 + x / 16);
  }

  lemma SecondOctet(v: int, x: sextet, y: sextet)
    requires v % 1024 == x % 16 * 64 + y
    ensures v / 4 % 256 == Octet2(x, y) && v % 4 == y % 4
  {
    Halves(v, 4, v / 1024 * 256 + x % 16 * 16 + y / 4, y % 4);
    Halves(v / 4, 256, v / 1024, x % 16 * 16 + y / 4);
  }

  lemma NextGroup(xs: seq<sextet>, out: Bytes, val: int, valb: int, x: sextet)
    requires DecodePhase(xs, out, val, valb)
    ensures var v := Wrap32(val * 64 + x);
            var b := valb + 6;
            if b >= 0 then DecodePhase(xs + [x], out + [v / Two(b) % 256], v, b - 8)
            else DecodePhase(xs + [x], out, v, b)
  {
    hide Octets, Wrap32, Octet1, Octet2, Octet3, Two;
    OctetsSnoc(xs, x);
    Twos();
    NextPlace(|xs|);
    NextBits(val, if xs == [] then 0 else xs[|xs| - 1], x);
    assert xs != [] ==> (xs + [x])[|xs|] == x;
  }

  lemma NextPlace(n: nat)
    ensures (n + 1) % 4 == if n % 4 == 3 then 0 else n % 4 + 1
  {
  }

  /** What is in the accumulator after one more group, from what of the last one was in it. */
  lemma NextBits(val: int, last: sextet, x: sextet)
    ensures var v := Wrap32(val * 64 + x);
            && v % 64 == x
            && (val % 64 == last ==> v / 16 % 256 == Octet1(last, x) && v % 16 == x % 16)
            && (val % 16 == last % 16 ==> v / 4 % 256 == Octet2(last, x) && v % 4 == x % 4)
            && (val % 4 == last % 4 ==> v / 1 % 256 == Octet3(last, x))
  {
    hide Wrap32, Octet1, Octet2, Octet3;
    var v := Wrap32(val * 64 + x);
    ShiftInSix(val, x);
    if val % 64 == last {
      FirstOctet(v, last, x);
    }
    if val % 16 == last % 16 {
      SecondOctet(v, last, x);
    }
    if val % 4 == last % 4 {
      LowOctet(v, last, x);
    }
  }

  lemma LowOctet(v: int, y: sextet, z: sextet)
    requires v % 256 == y % 4 * 64 + z
    ensures Octet3(y, z) == v % 256
  {
  }

  lemma CleanedAt(src: Bytes, n: nat)
    requires n <= |src|
    ensures n == |src| || src[n] == PAD ==> Cleaned(src[n..]) == []
    ensures n < |src| && src[n] != PAD && Skipped(src[n]) ==> Cleaned(src[n..]) == Cleaned(src[n + 1..])
    ensures n < |src| && !Skipped(src[n]) ==> Cleaned(src[n..]) == [Index(src[n])] + Cleaned(src[n + 1..])
  {
    if n < |src| {
      TableIsAlphabet(src[n]);
      assert src[n..][1..] == src[n + 1..];
    }
  }

  method AccumulatorDecode(src: Bytes) returns (out: Bytes)
    ensures out == Octets(Cleaned(src))
  {
    out := [];
    var val: int32, valb := 0, -8;
    ghost var xs: seq<sextet> := [];
    assert DecodePhase(xs, out, val, valb);
    hide DecodePhase, Cleaned, Octets, Skipped, Index, Wrap32, Two;
    var i := 0;
    while i < |src|
      invariant i <= |src| && DecodePhase(xs, out, val, valb)
      invariant Cleaned(src) == xs + Cleaned(src[i..])
    {
      var c := src[i];
      if c == PAD {
        break;
      }
      CleanedAt(src, i);
      i := i + 1;
      if Skipped(c) {
        continue;
      }
      NextGroup(xs, out, val, valb, Index(c));
      Assoc(xs, [Index(c)], Cleaned(src[i..]));
      xs := xs + [Index(c)];
      val := Wrap32(val * 64 + Index(c));
      valb := valb + 6;
      if valb >= 0 {
        out := out + [val / Two(valb) % 256];
        valb := valb - 8;
      }
    }
    CleanedAt(src, i);
    assert xs + [] == xs;
    AllRead(xs, out, val, valb);
  }

  lemma AllRead(xs: seq<sextet>, out: Bytes, val: int, valb: int)
    requires DecodePhase(xs, out, val, valb)
    ensures out == Octets(xs)
  {
  }

  // ---------------------------------------------------------------- blocks of four

  /** The shifts and masks that put four 6-bit numbers together; a byte keeps the low eight bits. */
  method JoinBlock(from: array<byte>, to: array<byte>)
    requires from.Length == 4 && to.Length == 3
    modifies to
    ensures from[0] < 64 && from[1] < 64 ==> to[0] == Octet1(from[0], from[1])
    ensures from[1] < 64 && from[2] < 64 ==> to[1] == Octet2(from[1], from[2])
    ensures from[2] < 64 && from[3] < 64 ==> to[2] == Octet3(from[2], from[3])
  {
    hide Octet1, Octet2, Octet3;
    var w: int, x: int, y: int, z: int := from[0], from[1], from[2], from[3];
    Joined(w, x, y, z);
    to[0] := (w * 4 + x / 16 % 4) % 256;
    to[1] := (x % 16 * 16 + y / 4 % 16) % 256;
    to[2] := (y % 4 * 64 + z) % 256;
  }

  lemma Joined(w: byte, x: byte, y: byte, z: byte)
    ensures w < 64 && x < 64 ==> (w * 4 + x / 16 % 4) % 256 == Octet1(w, x)
    ensures x < 64 && y < 64 ==> (x % 16 * 16 + y / 4 % 16) % 256 == Octet2(x, y)
    ensures y < 64 && z < 64 ==> (y % 4 * 64 + z) % 256 == Octet3(y, z)
  {
    hide Octet1, Octet2, Octet3;
    if w < 64 && x < 64 {
      JoinedFirst(w, x);
    }
    if x < 64 && y < 64 {
      JoinedSecond(x, y);
    }
    if y < 64 && z < 64 {
      JoinedThird(y, z);
    }
  }

  lemma JoinedFirst(w: sextet, x: sextet)
    ensures (w * 4 + x / 16 % 4) % 256 == Octet1(w, x)
  {
    Small(x / 16, 4);
    Small(Octet1(w, x), 256);
  }

  lemma JoinedSecond(x: sextet, y: sextet)
    ensures (x % 16 * 16 + y / 4 % 16) % 256 == Octet2(x, y)
  {
    Small(y / 4, 16);
    Small(Octet2(x, y), 256);
  }

  lemma JoinedThird(y: sextet, z: sextet)
    ensures (y % 4 * 64 + z) % 256 == Octet3(y, z)
  {
    Small(Octet3(y, z), 256);
  }

  lemma Small(x: nat, d: nat)
    requires x < d
    ensures x % d == x
  {
    Halves(x, d, 0, x);
  }

  /** Position in the alphabet, or all ones for a sign that is not in it. */
  function Find(c: byte): byte
  {
    if IsLetter(c) then Place(c) else 255
  }

  /** The first i of the four hold letters for these numbers; they become the numbers, the rest all ones. */
  method LookUp(four: array<byte>)
    requires four.Length == 4
    modifies four
    ensures forall k :: 0 <= k < 4 ==> four[k] == Find(old(four[k]))
  {
    for j := 0 to 4
      invariant forall k :: 0 <= k < j ==> four[k] == Find(old(four[k]))
      invariant forall k :: j <= k < 4 ==> four[k] == old(four[k])
    {
      four[j] := Find(four[j]);
    }
  }

  /** The letters of a block, with room behind them. */
  ghost predicate Holds(letters: Bytes, block: seq<sextet>)
  {
    |block| <= |letters| &&
    forall k: nat :: k < |block| ==> IsLetter(letters[k]) && Place(letters[k]) == block[k]
  }

  lemma HoldsOneMore(letters: Bytes, block: seq<sextet>, c: byte)
    requires Holds(letters, block) && |block| < |letters| && IsLetter(c)
    ensures Holds(letters[|block| := c], block + [Place(c)])
  {
    hide IsLetter, Place;
  }

  lemma HoldsNothing(letters: Bytes)
    ensures Holds(letters, [])
  {
  }

  method Store(four: array<byte>, i: nat, c: byte, ghost block: seq<sextet>)
    requires i == |block| < four.Length && Holds(four[..], block) && IsLetter(c)
    modifies four
    ensures Holds(four[..], block + [Place(c)])
  {
    hide IsLetter, Place, Holds;
    HoldsOneMore(four[..], block, c);
    ghost var next := four[..][i := c];
    four[i] := c;
    assert four[..] == next;
  }

  /** A block, or what there is of the last one, as bytes. */
  method DecodeBlock(four: array<byte>, three: array<byte>, ghost block: seq<sextet>)
    requires four.Length == 4 && three.Length == 3 && four != three && 0 < |block| <= 4
    requires Holds(four[..], block)
    modifies four, three
    ensures three[..|block| - 1] == Octets(block)
  {
    hide Octet1, Octet2, Octet3, IsLetter, Place;
    LookUp(four);
    assert forall k :: 0 <= k < |block| ==> four[k] == block[k];
    JoinBlock(four, three);
    assert |block| == 4 ==> block[4..] == [];
  }

  /** The last block, filled up with zeros first. */
  method DecodeRest(four: array<byte>, three: array<byte>, i: nat, ghost block: seq<sextet>)
    requires four.Length == 4 && three.Length == 3 && four != three && 0 < i == |block| <= 4
    requires Holds(four[..], block)
    modifies four, three
    ensures three[..i - 1] == Octets(block)
  {
    hide Octets, IsLetter, Place;
    for j := i to 4
      invariant Holds(four[..], block)
    {
      four[j] := 0;
    }
    DecodeBlock(four, three, block);
  }

  lemma LeadingAt(src: Bytes, n: nat)
    requires n <= |src|
    ensures n < |src| && IsLetter(src[n]) ==> Leading(src[n..]) == [Place(src[n])] + Leading(src[n + 1..])
    ensures n == |src| || src[n] == PAD || !IsLetter(src[n]) ==> Leading(src[n..]) == []
  {
    if n < |src| {
      assert src[n..][1..] == src[n + 1..];
    }
  }

  lemma {:induction false} OctetsAppend(xs: seq<sextet>, ys: seq<sextet>)
    requires |xs| % 4 == 0
    ensures Octets(xs + ys) == Octets(xs) + Octets(ys)
  {
    hide Octet1, Octet2, Octet3;
    if xs == [] {
      assert xs + ys == ys;
    } else {
      assert (xs + ys)[4..] == xs[4..] + ys;
      OctetsAppend(xs[4..], ys);
    }
  }

  /** After n signs: whole blocks xs, decoded to ret, and the letters of one that is not complete. */
  ghost predicate Progress(input: Bytes, n: nat, xs: seq<sextet>, block: seq<sextet>, ret: Bytes)
  {
    n <= |input| && |xs| % 4 == 0 && Leading(input) == (xs + block) + Leading(input[n..]) && ret == Octets(xs)
  }

  lemma ProgressStarts(input: Bytes)
    ensures Progress(input, 0, [], [], [])
  {
    assert input[0..] == input;
  }

  lemma ProgressOne(input: Bytes, n: nat, xs: seq<sextet>, block: seq<sextet>, ret: Bytes)
    requires Progress(input, n, xs, block, ret) && n < |input| && IsLetter(input[n])
    ensures Progress(input, n + 1, xs, block + [Place(input[n])], ret)
  {
    hide Octets, IsLetter, Place, Leading;
    LeadingAt(input, n);
    var x := [Place(input[n])];
    Assoc(xs + block, x, Leading(input[n + 1..]));
    Assoc(xs, block, x);
  }

  lemma ProgressBlock(input: Bytes, n: nat, xs: seq<sextet>, block: seq<sextet>, ret: Bytes)
    requires Progress(input, n, xs, block, ret) && |block| == 4
    ensures Progress(input, n, xs + block, [], ret + Octets(block))
  {
    hide Octets, Leading;
    OctetsAppend(xs, block);
    assert xs + block + [] == xs + block;
  }

  lemma ProgressEnds(input: Bytes, n: nat, xs: seq<sextet>, block: seq<sextet>, ret: Bytes)
    requires Progress(input, n, xs, block, ret)
    requires n == |input| || input[n] == PAD || !IsLetter(input[n])
    ensures Octets(Leading(input)) == ret + Octets(block)
    ensures block == [] ==> Octets(block) == []
  {
    LeadingAt(input, n);
    assert xs + block + [] == xs + block;
    OctetsAppend(xs, block);
  }

  method BlockDecode(input: Bytes) returns (ret: Bytes)
    ensures ret == Octets(Leading(input))
  {
    hide Octets, Leading, IsLetter, Place, Holds, Progress;
    ret := [];
    ghost var xs: seq<sextet>, block: seq<sextet> := [], [];
    var i, n := 0, 0;
    var four, three := new byte[4], new byte[3];
    HoldsNothing(four[..]);
    ProgressStarts(input);
    while n < |input| && input[n] != PAD && IsLetter(input[n])
      invariant n <= |input| && i == |block| < 4
      invariant Progress(input, n, xs, block, ret)
      invariant Holds(four[..], block)
    {
      ProgressOne(input, n, xs, block, ret);
      Store(four, i, input[n], block);
      block := block + [Place(input[n])];
      i, n := i + 1, n + 1;
      if i == 4 {
        ProgressBlock(input, n, xs, block, ret);
        DecodeBlock(four, three, block);
        HoldsNothing(four[..]);
        ret := ret + three[..3];
        xs, block := xs + block, [];
        i := 0;
      }
    }
    ProgressEnds(input, n, xs, block, ret);
    if i != 0 {
      DecodeRest(four, three, i, block);
      ret := ret + three[..i - 1];
    }
  }
}
