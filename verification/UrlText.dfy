/** Characters of a URL, percent encoding and decoding. */
module UrlText {
  import opened Prelude

  const PERCENT: byte := '%' as int
  const PLUS: byte := '+' as int
  const SPACE: byte := ' ' as int
  const EQUALS: byte := '=' as int
  const AMPERSAND: byte := '&' as int
  const SEMICOLON: byte := ';' as int
  const COLON: byte := ':' as int
  const SLASH: byte := '/' as int
  const QUESTION: byte := '?' as int
  const HASH: byte := '#' as int
  const AT: byte := '@' as int
  const DOT: byte := '.' as int
  const MINUS: byte := '-' as int
  const BRACKET: byte := '[' as int
  const ZERO: byte := '0' as int

  // ---------------------------------------------------------------- classes of characters

  predicate IsUpper(c: byte) { 'A' as int <= c <= 'Z' as int }
  predicate IsAlpha(c: byte) { IsUpper(c) || 'a' as int <= c <= 'z' as int }
  predicate IsNum(c: byte) { '0' as int <= c <= '9' as int }
  predicate IsHexDigit(c: byte) { IsNum(c) || 'A' as int <= c <= 'F' as int || 'a' as int <= c <= 'f' as int }

  /** ! $ & ' ( ) * + , - . ; = _ ~ */
  predicate IsMark(c: byte)
  {
    c == 33 || c == 36 || 38 <= c <= 46 || c == 59 || c == 61 || c == 95 || c == 126
  }

  /** The table of character classes: each character has at most one. */
  function Class(c: byte): bv8
  {
    if IsAlpha(c) || IsNum(c) || IsMark(c) then 0x01
    else if c == AT then 0x02
    else if c == COLON then 0x04
    else if c == SLASH then 0x08
    else if c == QUESTION then 0x10
    else if c == PERCENT then 0x20
    else 0x00
  }

  predicate IsChar(c: byte, mask: bv8) { Class(c) & mask != 0 }

  predicate AllChars(s: Bytes, mask: bv8)
  {
    forall i: nat :: i < |s| ==> IsChar(s[i], mask)
  }

  // Percent is allowed where a component is read, and not where it is written.
  const USER: bv8 := 0x05
  const PATH: bv8 := 0x0F
  const REST: bv8 := 0x1F
  const NAME: bv8 := 0x01

  /** The masks a component may be written with. */
  predicate Written(mask: bv8) { mask == USER || mask == PATH || mask == REST || mask == NAME }

  function Read(mask: bv8): bv8 { mask | 0x20 }

  lemma ReadMeans(c: byte, mask: bv8)
    requires Written(mask)
    ensures IsChar(c, Read(mask)) <==> IsChar(c, mask) || c == PERCENT
    ensures !IsChar(PERCENT, mask) && !IsChar(SPACE, mask) && !IsChar(HASH, mask) && !IsChar(BRACKET, mask)
  {
  }

  lemma MaskMeans(c: byte)
    ensures IsChar(c, NAME) <==> IsAlpha(c) || IsNum(c) || IsMark(c)
    ensures IsChar(c, USER) <==> IsChar(c, NAME) || c == COLON
    ensures IsChar(c, PATH) <==> IsChar(c, USER) || c == AT || c == SLASH
    ensures IsChar(c, REST) <==> IsChar(c, PATH) || c == QUESTION
  {
  }

  // ---------------------------------------------------------------- hexadecimal

  function HexValue(c: byte): (d: int)
    ensures IsHexDigit(c) <==> 0 <= d < 16
    ensures !IsHexDigit(c) <==> d == -1
  {
    if IsNum(c) then c - '0' as int
    else if 'A' as int <= c <= 'F' as int then c - 'A' as int + 10
    else if 'a' as int <= c <= 'f' as int then c - 'a' as int + 10
    else -1
  }

  function HexByte(a: byte, b: byte): byte
    requires IsHexDigit(a) && IsHexDigit(b)
  {
    HexValue(a) * 16 + HexValue(b)
  }

  function HexUpper(d: int): (c: byte)
    requires 0 <= d < 16
    ensures IsNum(c) || 'A' as int <= c <= 'F' as int
    ensures HexValue(c) == d
  {
    if d < 10 then '0' as int + d else 'A' as int + d - 10
  }

  // ---------------------------------------------------------------- encoding and decoding

  /** A component as such, the key of a query entry, or its value. */
  datatype Style = Part(mask: bv8) | Key | Val

  predicate StyleOk(y: Style) { y.Part? ==> Written(y.mask) }

  function Escaped(c: byte): Bytes
  {
    [PERCENT, HexUpper(c / 16), HexUpper(c % 16)]
  }

  /** One byte: as it is, as a plus for a space, or as a percent sign and two hexadecimal digits. */
  function EncodeByte(y: Style, c: byte): Bytes
  {
    match y
    case Part(mask) => if IsChar(c, mask) then [c] else Escaped(c)
    case Key =>
      if c == SPACE then [PLUS]
      else if c == PLUS || c == EQUALS || c == AMPERSAND || c == SEMICOLON then Escaped(c)
      else if IsChar(c, REST) then [c] else Escaped(c)
    case Val =>
      if c == SPACE then [PLUS]
      else if c == PLUS || c == AMPERSAND || c == SEMICOLON then Escaped(c)
      else if IsChar(c, REST) then [c] else Escaped(c)
  }

  function Encode(y: Style, s: Bytes): Bytes
  {
    if s == [] then [] else EncodeByte(y, s[0]) + Encode(y, s[1..])
  }

  /** A plus stands for a space in a query only. */
  function Decode(plus: bool, s: Bytes): Option<Bytes>
  {
    if s == [] then Some([])
    else if s[0] == PERCENT then
      if |s| < 3 || !IsHexDigit(s[1]) || !IsHexDigit(s[2]) then None
      else Prepend(HexByte(s[1], s[2]), Decode(plus, s[3..]))
    else Prepend(if plus && s[0] == PLUS then SPACE else s[0], Decode(plus, s[1..]))
  }

  function Prepend(c: byte, r: Option<Bytes>): Option<Bytes>
  {
    if r.None? then None else Some([c] + r.value)
  }

  lemma DecodeByte(y: Style, c: byte, rest: Bytes)
    requires StyleOk(y)
    ensures Decode(!y.Part?, EncodeByte(y, c) + rest) == Prepend(c, Decode(!y.Part?, rest))
  {
    hide Class;
    var e := EncodeByte(y, c);
    var s := e + rest;
    if y.Part? {
      ReadMeans(c, y.mask);
    } else {
      ReadMeans(c, REST);
    }
    if |e| == 1 {
      assert s[1..] == rest;
    } else {
      assert s[3..] == rest && s[1] == HexUpper(c / 16) && s[2] == HexUpper(c % 16);
    }
  }

  /** Decoding an encoded component gives it back, whatever bytes it holds. */
  lemma {:induction false} DecodeEncode(y: Style, s: Bytes)
    requires StyleOk(y)
    ensures Decode(!y.Part?, Encode(y, s)) == Some(s)
  {
    if s != [] {
      DecodeByte(y, s[0], Encode(y, s[1..]));
      DecodeEncode(y, s[1..]);
      assert s == [s[0]] + s[1..];
    }
  }

  /** What may stand in the text of a component of each style. */
  predicate MayStand(y: Style, c: byte)
  {
    match y
    case Part(mask) => IsChar(c, Read(mask))
    case Key => IsChar(c, Read(REST)) && c != EQUALS && c != AMPERSAND && c != SEMICOLON
    case Val => IsChar(c, Read(REST)) && c != AMPERSAND && c != SEMICOLON
  }

  ghost predicate IsText(y: Style, s: Bytes)
  {
    forall i: nat :: i < |s| ==> MayStand(y, s[i])
  }

  lemma EncodedByteIsText(y: Style, c: byte)
    requires StyleOk(y)
    ensures IsText(y, EncodeByte(y, c))
  {
    hide Class;
    var mask := if y.Part? then y.mask else REST;
    ReadMeans(PERCENT, mask);
    ReadMeans(PLUS, mask);
    ReadMeans(c, mask);
    MaskMeans(PLUS);
    var a, b := HexUpper(c / 16), HexUpper(c % 16);
    MaskMeans(a);
    MaskMeans(b);
    ReadMeans(a, mask);
    ReadMeans(b, mask);
  }

  lemma {:induction false} EncodedIsText(y: Style, s: Bytes)
    requires StyleOk(y)
    ensures IsText(y, Encode(y, s))
  {
    hide MayStand, EncodeByte;
    if s != [] {
      EncodedByteIsText(y, s[0]);
      EncodedIsText(y, s[1..]);
    }
  }

  lemma EncodeByteIsNoLonger(y: Style, c: byte)
    requires StyleOk(y)
    ensures |EncodeByte(y, c)| <= 3
    ensures MayStand(y, c) && c != PERCENT && (y.Part? || c != PLUS) ==> |EncodeByte(y, c)| == 1
    ensures !y.Part? ==> |EncodeByte(y, SPACE)| == 1
  {
    hide Class;
    ReadMeans(c, if y.Part? then y.mask else REST);
  }

  /** Writing a component again never makes it longer. */
  lemma {:induction false} EncodeIsNoLonger(y: Style, x: Bytes)
    requires StyleOk(y) && IsText(y, x) && Decode(!y.Part?, x).Some?
    ensures |Encode(y, Decode(!y.Part?, x).value)| <= |x|
  {
    hide MayStand, EncodeByte;
    if x != [] {
      var s := Decode(!y.Part?, x).value;
      EncodeByteIsNoLonger(y, s[0]);
      EncodeByteIsNoLonger(y, x[0]);
      var n := if x[0] == PERCENT then 3 else 1;
      EncodeIsNoLonger(y, x[n..]);
      assert s[1..] == Decode(!y.Part?, x[n..]).value;
    }
  }

  // ---------------------------------------------------------------- searching

  /** Position of the first character out of a few, or the end. */
  function FirstOf(s: Bytes, cs: Bytes): (k: nat)
    ensures k <= |s|
    ensures forall i: nat :: i < k ==> s[i] !in cs
    ensures k < |s| ==> s[k] in cs
  {
    if s == [] || s[0] in cs then 0 else 1 + FirstOf(s[1..], cs)
  }

  lemma FirstOfIs(s: Bytes, cs: Bytes, k: nat)
    requires k <= |s| && (forall i: nat :: i < k ==> s[i] !in cs) && (k < |s| ==> s[k] in cs)
    ensures FirstOf(s, cs) == k
  {
    var j := FirstOf(s, cs);
    assert j < |s| ==> s[j] in cs;
    assert k < |s| ==> s[k] in cs;
  }

  method FindFirstOf(s: Bytes, cs: Bytes) returns (k: nat)
    ensures k == FirstOf(s, cs)
  {
    k := 0;
    while k < |s|
      invariant k <= |s| && forall i: nat :: i < k ==> s[i] !in cs
    {
      var t := 0;
      while t < |cs|
        invariant t <= |cs| && s[k] !in cs[..t]
      {
        if s[k] == cs[t] {
          FirstOfIs(s, cs, k);
          return;
        }
        t := t + 1;
      }
      k := k + 1;
    }
    FirstOfIs(s, cs, k);
  }

  method FindChar(s: Bytes, c: byte) returns (k: nat)
    ensures k == FirstOf(s, [c])
  {
    k := 0;
    while k < |s| && s[k] != c
      invariant k <= |s| && forall i: nat :: i < k ==> s[i] !in [c]
    {
      k := k + 1;
    }
    FirstOfIs(s, [c], k);
  }

  method AreChars(s: Bytes, mask: bv8) returns (ok: bool)
    ensures ok <==> AllChars(s, mask)
  {
    hide IsChar;
    var k := 0;
    while k < |s|
      invariant k <= |s| && forall i: nat :: i < k ==> IsChar(s[i], mask)
    {
      if !IsChar(s[k], mask) {
        return false;
      }
      k := k + 1;
    }
    return true;
  }

  // ---------------------------------------------------------------- the loops that decode and encode

  function Append(o: Bytes, r: Option<Bytes>): Option<Bytes>
  {
    if r.None? then None else Some(o + r.value)
  }

  lemma AppendPrepend(o: Bytes, c: byte, r: Option<Bytes>)
    ensures Append(o, Prepend(c, r)) == Append(o + [c], r)
  {
    if r.Some? {
      Assoc(o, [c], r.value);
    }
  }

  lemma AppendToNothing(r: Option<Bytes>)
    ensures Append([], r) == r
  {
    if r.Some? {
      assert [] + r.value == r.value;
    }
  }

  method DecodeText(plus: bool, s: Bytes) returns (r: Option<Bytes>)
    ensures r == Decode(plus, s)
  {
    hide HexValue, IsHexDigit;
    var o: Bytes := [];
    var k := 0;
    AppendToNothing(Decode(plus, s));
    assert s[0..] == s;
    while k < |s|
      invariant k <= |s| && Decode(plus, s) == Append(o, Decode(plus, s[k..]))
    {
      var c := s[k];
      var rest := s[k..];
      k := k + 1;
      if plus && c == PLUS {
        c := SPACE;
        assert rest[1..] == s[k..];
      } else if c == PERCENT {
        if |s| < k + 2 || !IsHexDigit(s[k]) || !IsHexDigit(s[k + 1]) {
          return None;
        }
        c := HexByte(s[k], s[k + 1]);
        k := k + 2;
        assert rest[3..] == s[k..];
      } else {
        assert rest[1..] == s[k..];
      }
      AppendPrepend(o, c, Decode(plus, s[k..]));
      o := o + [c];
    }
    assert o + [] == o;
    return Some(o);
  }

  method EncodeText(y: Style, s: Bytes) returns (o: Bytes)
    ensures o == Encode(y, s)
  {
    hide EncodeByte;
    o := [];
    for k := 0 to |s|
      invariant Encode(y, s) == o + Encode(y, s[k..])
    {
      assert s[k..][1..] == s[k + 1..];
      Assoc(o, EncodeByte(y, s[k]), Encode(y, s[k + 1..]));
      o := o + EncodeByte(y, s[k]);
    }
    assert o + [] == o;
  }
}
