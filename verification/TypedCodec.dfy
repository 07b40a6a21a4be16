/**
 The operators << and >> of ioBuffer.h over integers, bools, strings and the standard
 containers, nested to any depth. A schema stands for the C++ type of a field.
 */
module TypedCodec {
  import opened Prelude
  import opened PackedNumber
  import opened IoBuffer

  // ---------------------------------------------------------------- integers

  datatype IntKind = I8 | I16 | I32 | I64 | U8 | U16 | U32 | U64

  function Modulus(k: IntKind): int
  {
    match k
    case I8 => 0x100
    case U8 => 0x100
    case I16 => 0x1_0000
    case U16 => 0x1_0000
    case I32 => TWO_32
    case U32 => TWO_32
    case I64 => TWO_64
    case U64 => TWO_64
  }

  predicate Signed(k: IntKind)
  {
    k.I8? || k.I16? || k.I32? || k.I64?
  }

  predicate InRange(k: IntKind, i: int)
  {
    if Signed(k) then -(Modulus(k) / 2) <= i < Modulus(k) / 2 else 0 <= i < Modulus(k)
  }

  /** put_PN takes a uint64_t: a negative argument is sign extended. */
  function ToWire(i: int): (n: nat)
    ensures n < TWO_64 && (n - i) % TWO_64 == 0
  {
    i % TWO_64
  }

  /** `v = get_PN()`: the word is truncated to the width of the field. */
  function FromWire(k: IntKind, n: nat): int
  {
    var low := n % Modulus(k);
    if Signed(k) && low >= Modulus(k) / 2 then low - Modulus(k) else low
  }

  /** Every integer of 8 to 64 bits survives sign extension and truncation. */
  lemma FromWireToWire(k: IntKind, i: int)
    requires InRange(k, i)
    ensures FromWire(k, ToWire(i)) == i
  {
    var m := Modulus(k);
    if i < 0 {
      Halves(i, TWO_64, -1, i + TWO_64);
      ModulusDivides(k);
      Halves(i + TWO_64, m, TWO_64 / m - 1, i + m);
    } else {
      Halves(i, TWO_64, 0, i);
      Halves(i, m, 0, i);
    }
  }

  lemma ModulusDivides(k: IntKind)
    ensures TWO_64 / Modulus(k) * Modulus(k) == TWO_64
  {
  }

  lemma FromWireInRange(k: IntKind, n: nat)
    ensures InRange(k, FromWire(k, n))
  {
  }

  // ---------------------------------------------------------------- schemas and values

  datatype Schema =
    | SInt(kind: IntKind)
    | SBool
    | SStr
    | SSeq(elem: Schema)                // vector, list, deque
    | SSet(elem: Schema)
    | SMap(key: Schema, val: Schema)
    | SPair(first: Schema, second: Schema)

  /** Sets and maps are held in the order the container iterates in; a map entry is a VPair. */
  datatype Value =
    | VInt(i: int)
    | VBool(b: bool)
    | VStr(s: Bytes)
    | VSeq(items: seq<Value>)
    | VSet(items: seq<Value>)
    | VMap(items: seq<Value>)
    | VPair(fst: Value, snd: Value)

  predicate IsContainer(t: Schema)
  {
    t.SSeq? || t.SSet? || t.SMap?
  }

  function Wrap(t: Schema, items: seq<Value>): Value
    requires IsContainer(t)
  {
    if t.SSeq? then VSeq(items) else if t.SSet? then VSet(items) else VMap(items)
  }

  predicate HasItems(v: Value)
  {
    v.VSeq? || v.VSet? || v.VMap?
  }

  // ---------------------------------------------------------------- operator< on values

  /** Values of different types never meet in one container; the rank only makes the order total. */
  function Rank(v: Value): nat
  {
    match v
    case VInt(_) => 0
    case VBool(_) => 1
    case VStr(_) => 2
    case VSeq(_) => 3
    case VSet(_) => 4
    case VMap(_) => 5
    case VPair(_, _) => 6
  }

  function CmpBytes(a: Bytes, b: Bytes): int
  {
    if a == [] then -|b|
    else if b == [] then 1
    else if a[0] != b[0] then a[0] - b[0]
    else CmpBytes(a[1..], b[1..])
  }

  /** Negative, zero or positive: numeric, unsigned lexicographic, or lexicographic over the parts. */
  function Cmp(v: Value, w: Value): int
    decreases v, 1
  {
    if Rank(v) != Rank(w) then Rank(v) - Rank(w)
    else
      match v
      case VInt(i) => i - w.i
      case VBool(b) => (if b then 1 else 0) - (if w.b then 1 else 0)
      case VStr(s) => CmpBytes(s, w.s)
      case VPair(a, b) => if Cmp(a, w.fst) != 0 then Cmp(a, w.fst) else Cmp(b, w.snd)
      case VSeq(items) => CmpItems(items, w.items)
      case VSet(items) => CmpItems(items, w.items)
      case VMap(items) => CmpItems(items, w.items)
  }

  function CmpItems(a: seq<Value>, b: seq<Value>): int
    decreases a, 0
  {
    if a == [] then -|b|
    else if b == [] then 1
    else if Cmp(a[0], b[0]) != 0 then Cmp(a[0], b[0])
    else CmpItems(a[1..], b[1..])
  }

  predicate Less(v: Value, w: Value)
  {
    Cmp(v, w) < 0
  }

  lemma {:induction false} CmpBytesTrichotomy(a: Bytes, b: Bytes)
    ensures CmpBytes(a, b) == 0 <==> a == b
    ensures CmpBytes(a, b) < 0 <==> CmpBytes(b, a) > 0
    ensures CmpBytes(a, b) > 0 <==> CmpBytes(b, a) < 0
  {
    if a != [] && b != [] && a[0] == b[0] {
      CmpBytesTrichotomy(a[1..], b[1..]);
      assert a == [a[0]] + a[1..] && b == [b[0]] + b[1..];
    }
  }

  lemma {:induction false} CmpBytesTransitive(a: Bytes, b: Bytes, c: Bytes)
    requires CmpBytes(a, b) < 0 && CmpBytes(b, c) < 0
    ensures CmpBytes(a, c) < 0
  {
    if a != [] && c != [] && a[0] == b[0] == c[0] {
      CmpBytesTransitive(a[1..], b[1..], c[1..]);
    }
  }

  lemma {:induction false} CmpTrichotomy(u: Value, v: Value)
    ensures Cmp(u, v) == 0 <==> u == v
    ensures Cmp(u, v) < 0 <==> Cmp(v, u) > 0
    ensures Cmp(u, v) > 0 <==> Cmp(v, u) < 0
    decreases u, 1
  {
    if Rank(u) == Rank(v) {
      match u
      case VInt(_) =>
      case VBool(_) =>
      case VStr(s) =>
        CmpBytesTrichotomy(s, v.s);
      case VPair(a, b) =>
        CmpTrichotomy(a, v.fst);
        CmpTrichotomy(b, v.snd);
      case VSeq(items) =>
        CmpItemsTrichotomy(items, v.items);
      case VSet(items) =>
        CmpItemsTrichotomy(items, v.items);
      case VMap(items) =>
        CmpItemsTrichotomy(items, v.items);
    }
  }

  lemma {:induction false} CmpItemsTrichotomy(a: seq<Value>, b: seq<Value>)
    ensures CmpItems(a, b) == 0 <==> a == b
    ensures CmpItems(a, b) < 0 <==> CmpItems(b, a) > 0
    ensures CmpItems(a, b) > 0 <==> CmpItems(b, a) < 0
    decreases a, 0
  {
    if a != [] && b != [] {
      CmpTrichotomy(a[0], b[0]);
      if a[0] == b[0] {
        CmpItemsTrichotomy(a[1..], b[1..]);
        assert a == [a[0]] + a[1..] && b == [b[0]] + b[1..];
      }
    }
  }

  lemma {:induction false} CmpTransitive(u: Value, v: Value, w: Value)
    requires Cmp(u, v) < 0 && Cmp(v, w) < 0
    ensures Cmp(u, w) < 0
    decreases u, 1
  {
    if Rank(u) == Rank(v) == Rank(w) {
      match u
      case VInt(_) =>
      case VBool(_) =>
      case VStr(s) =>
        CmpBytesTransitive(s, v.s, w.s);
      case VPair(a, b) =>
        CmpTrichotomy(a, v.fst);
        CmpTrichotomy(v.fst, w.fst);
        CmpTrichotomy(a, w.fst);
        if Cmp(a, v.fst) < 0 && Cmp(v.fst, w.fst) < 0 {
          CmpTransitive(a, v.fst, w.fst);
        } else if a == v.fst == w.fst {
          CmpTransitive(b, v.snd, w.snd);
        }
      case VSeq(items) =>
        CmpItemsTransitive(items, v.items, w.items);
      case VSet(items) =>
        CmpItemsTransitive(items, v.items, w.items);
      case VMap(items) =>
        CmpItemsTransitive(items, v.items, w.items);
    }
  }

  lemma {:induction false} CmpItemsTransitive(a: seq<Value>, b: seq<Value>, c: seq<Value>)
    requires CmpItems(a, b) < 0 && CmpItems(b, c) < 0
    ensures CmpItems(a, c) < 0
    decreases a, 0
  {
    if a != [] && b != [] && c != [] {
      CmpTrichotomy(a[0], b[0]);
      CmpTrichotomy(b[0], c[0]);
      CmpTrichotomy(a[0], c[0]);
      if Cmp(a[0], b[0]) < 0 && Cmp(b[0], c[0]) < 0 {
        CmpTransitive(a[0], b[0], c[0]);
      } else if a[0] == b[0] == c[0] {
        CmpItemsTransitive(a[1..], b[1..], c[1..]);
      }
    }
  }

  // ---------------------------------------------------------------- std::set and std::map

  /** What a set is ordered by is the item, a map its entry's key. */
  function KeyOf(t: Schema, x: Value): Value
  {
    if t.SMap? && x.VPair? then x.fst else x
  }

  predicate Sorted(t: Schema, items: seq<Value>)
  {
    forall i, j :: 0 <= i < j < |items| ==> Less(KeyOf(t, items[i]), KeyOf(t, items[j]))
  }

  /** A set or a map iterates in order; the other containers in whatever order they were filled. */
  predicate Ordered(t: Schema, items: seq<Value>)
  {
    t.SSeq? || Sorted(t, items)
  }

  /** insert: at the place the order gives it, or nowhere if the key is there already. */
  function OrderedInsert(t: Schema, items: seq<Value>, x: Value): seq<Value>
  {
    if items == [] then [x]
    else if Less(KeyOf(t, items[0]), KeyOf(t, x)) then [items[0]] + OrderedInsert(t, items[1..], x)
    else if Less(KeyOf(t, x), KeyOf(t, items[0])) then [x] + items
    else items
  }

  function Add(t: Schema, items: seq<Value>, x: Value): seq<Value>
  {
    if t.SSeq? then items + [x] else OrderedInsert(t, items, x)
  }

  /** Inserting in iteration order appends. */
  lemma {:induction false} InsertAtEnd(t: Schema, items: seq<Value>, x: Value)
    requires forall i :: 0 <= i < |items| ==> Less(KeyOf(t, items[i]), KeyOf(t, x))
    ensures OrderedInsert(t, items, x) == items + [x]
  {
    if items != [] {
      InsertAtEnd(t, items[1..], x);
    }
  }

  lemma {:induction false} InsertMembers(t: Schema, items: seq<Value>, x: Value)
    ensures |items| <= |OrderedInsert(t, items, x)| <= |items| + 1
    ensures forall i :: 0 <= i < |OrderedInsert(t, items, x)| ==>
              OrderedInsert(t, items, x)[i] == x || OrderedInsert(t, items, x)[i] in items
  {
    if items != [] {
      InsertMembers(t, items[1..], x);
    }
  }

  lemma {:induction false} InsertSorted(t: Schema, items: seq<Value>, x: Value)
    requires Sorted(t, items)
    ensures Sorted(t, OrderedInsert(t, items, x))
  {
    if items != [] {
      var r := OrderedInsert(t, items, x);
      if Less(KeyOf(t, items[0]), KeyOf(t, x)) {
        var rest := OrderedInsert(t, items[1..], x);
        InsertSorted(t, items[1..], x);
        InsertMembers(t, items[1..], x);
        forall i | 0 <= i < |rest|
          ensures Less(KeyOf(t, items[0]), KeyOf(t, rest[i]))
        {
          if rest[i] != x {
            var k :| 0 <= k < |items[1..]| && items[1..][k] == rest[i];
            assert rest[i] == items[k + 1];
          }
        }
      } else if Less(KeyOf(t, x), KeyOf(t, items[0])) {
        forall i | 0 <= i < |items|
          ensures Less(KeyOf(t, x), KeyOf(t, items[i]))
        {
          if i > 0 {
            CmpTransitive(KeyOf(t, x), KeyOf(t, items[0]), KeyOf(t, items[i]));
          }
        }
      }
    }
  }

  // ---------------------------------------------------------------- well-typed values

  /** The value a field of that C++ type can hold; a container of 2^32 items or more is left out. */
  predicate HasType(v: Value, t: Schema)
    decreases t, 1
  {
    match t
    case SInt(k) => v.VInt? && InRange(k, v.i)
    case SBool => v.VBool?
    case SStr => v.VStr? && |v.s| < TWO_64
    case SPair(a, b) => v.VPair? && HasType(v.fst, a) && HasType(v.snd, b)
    case _ =>
      HasItems(v) && v == Wrap(t, v.items) && |v.items| < TWO_32 &&
      (forall i :: 0 <= i < |v.items| ==> ItemHasType(v.items[i], t)) &&
      Ordered(t, v.items)
  }

  predicate ItemHasType(x: Value, t: Schema)
    requires IsContainer(t)
    decreases t, 0
  {
    match t
    case SMap(k, w) => x.VPair? && HasType(x.fst, k) && HasType(x.snd, w)
    case SSeq(e) => HasType(x, e)
    case SSet(e) => HasType(x, e)
  }

  // ---------------------------------------------------------------- encoding and decoding

  function Encode(v: Value): Bytes
    decreases v, 1
  {
    match v
    case VInt(i) => Pack(ToWire(i))
    case VBool(b) => Pack(if b then 1 else 0)
    case VStr(s) => PackString(s)
    case VPair(a, b) => Encode(a) + Encode(b)
    case VSeq(items) => Pack(|items| % TWO_32) + EncodeAll(items)
    case VSet(items) => Pack(|items| % TWO_32) + EncodeAll(items)
    case VMap(items) => Pack(|items| % TWO_32) + EncodeAll(items)
  }

  function EncodeAll(items: seq<Value>): Bytes
    decreases items, 0
  {
    if items == [] then [] else Encode(items[0]) + EncodeAll(items[1..])
  }

  function Decode(t: Schema, s: Bytes): Option<(Value, Bytes)>
    decreases t, 2, 0
  {
    match t
    case SInt(k) =>
      (match Unpack(s)
       case None => None
       case Some((n, rest)) => Some((VInt(FromWire(k, n)), rest)))
    case SBool =>
      (match Unpack(s)
       case None => None
       case Some((n, rest)) => Some((VBool(n != 0), rest)))
    case SStr =>
      (match UnpackString(s)
       case None => None
       case Some((str, rest)) => Some((VStr(str), rest)))
    case SPair(_, _) => DecodeBoth(t, s)
    case _ =>
      (match Unpack(s)
       case None => None
       case Some((n, rest)) =>
         match DecodeItems(t, n % TWO_32, [], rest)
         case None => None
         case Some((items, tail)) => Some((Wrap(t, items), tail)))
  }

  /** A pair, or one entry of a map: the first part, then the second. */
  function DecodeBoth(t: Schema, s: Bytes): Option<(Value, Bytes)>
    requires t.SPair? || t.SMap?
    decreases t, 0, 0
  {
    match Decode(if t.SPair? then t.first else t.key, s)
    case None => None
    case Some((x, rest)) =>
      match Decode(if t.SPair? then t.second else t.val, rest)
      case None => None
      case Some((y, tail)) => Some((VPair(x, y), tail))
  }

  function DecodeItem(t: Schema, s: Bytes): Option<(Value, Bytes)>
    requires IsContainer(t)
    decreases t, 0, 1
  {
    if t.SMap? then DecodeBoth(t, s) else Decode(t.elem, s)
  }

  function DecodeItems(t: Schema, n: nat, items: seq<Value>, s: Bytes): Option<(seq<Value>, Bytes)>
    requires IsContainer(t)
    decreases t, 1, n
  {
    if n == 0 then Some((items, s))
    else
      match DecodeItem(t, s)
      case None => None
      case Some((x, rest)) => DecodeItems(t, n - 1, Add(t, items, x), rest)
  }

  // ---------------------------------------------------------------- round trip

  /** Decoding the encoding of a well-typed value gives it back and leaves exactly the tail. */
  lemma {:induction false} DecodeEncode(t: Schema, v: Value, tail: Bytes)
    requires HasType(v, t)
    ensures Decode(t, Encode(v) + tail) == Some((v, tail))
    decreases t, 2, 0
  {
    if t.SPair? {
      hide Encode;
      DecodeEncodeBoth(t, v, tail);
    } else if IsContainer(t) {
      hide Pack, Unpack, DecodeItems, EncodeAll;
      var n := |v.items|;
      assert n % TWO_32 == n;
      Assoc(Pack(n), EncodeAll(v.items), tail);
      UnpackPack(n, EncodeAll(v.items) + tail);
      assert v.items[0..] == v.items && v.items[..0] == [];
      DecodeEncodeItems(t, v.items, 0, tail);
    } else {
      hide Encode, Decode;
      DecodeEncodeScalar(t, v, tail);
    }
  }

  lemma DecodeEncodeScalar(t: Schema, v: Value, tail: Bytes)
    requires (t.SInt? || t.SBool? || t.SStr?) && HasType(v, t)
    ensures Decode(t, Encode(v) + tail) == Some((v, tail))
  {
    hide FromWire, ToWire, Pack, Unpack, PackString, UnpackString;
    match t
    case SInt(k) =>
      UnpackPack(ToWire(v.i), tail);
      FromWireToWire(k, v.i);
    case SBool =>
      UnpackPack(if v.b then 1 else 0, tail);
    case SStr =>
      UnpackPackString(v.s, tail);
  }

  lemma {:induction false} DecodeEncodeBoth(t: Schema, x: Value, tail: Bytes)
    requires t.SPair? || t.SMap?
    requires x.VPair?
    requires HasType(x.fst, if t.SPair? then t.first else t.key)
    requires HasType(x.snd, if t.SPair? then t.second else t.val)
    ensures DecodeBoth(t, Encode(x) + tail) == Some((x, tail))
    decreases t, 0, 0
  {
    Assoc(Encode(x.fst), Encode(x.snd), tail);
    DecodeEncode(if t.SPair? then t.first else t.key, x.fst, Encode(x.snd) + tail);
    DecodeEncode(if t.SPair? then t.second else t.val, x.snd, tail);
  }

  lemma {:induction false} DecodeEncodeItems(t: Schema, items: seq<Value>, i: nat, tail: Bytes)
    requires IsContainer(t) && i <= |items|
    requires forall j :: 0 <= j < |items| ==> ItemHasType(items[j], t)
    requires Ordered(t, items)
    ensures DecodeItems(t, |items| - i, items[..i], EncodeAll(items[i..]) + tail) == Some((items, tail))
    decreases t, 1, |items| - i
  {
    hide Encode, Decode, DecodeItem, ItemHasType, Ordered, Add;
    if i == |items| {
      assert items[..i] == items && EncodeAll(items[i..]) + tail == tail;
    } else {
      var x := items[i];
      var after := EncodeAll(items[i + 1..]) + tail;
      assert items[i..][1..] == items[i + 1..];
      Assoc(Encode(x), EncodeAll(items[i + 1..]), tail);
      DecodeEncodeItem(t, x, after);
      NextIsAdded(t, items, i);
      DecodeEncodeItems(t, items, i + 1, tail);
    }
  }

  lemma {:induction false} DecodeEncodeItem(t: Schema, x: Value, after: Bytes)
    requires IsContainer(t) && ItemHasType(x, t)
    ensures DecodeItem(t, Encode(x) + after) == Some((x, after))
    decreases t, 0, 1
  {
    hide Encode, Decode, DecodeBoth, HasType;
    if t.SMap? {
      DecodeEncodeBoth(t, x, after);
    } else {
      DecodeEncode(t.elem, x, after);
    }
  }

  /** In the order of the container every item goes to the end. */
  lemma NextIsAdded(t: Schema, items: seq<Value>, i: nat)
    requires Ordered(t, items) && i < |items|
    ensures Add(t, items[..i], items[i]) == items[..i + 1]
  {
    hide Less, KeyOf;
    if !t.SSeq? {
      InsertAtEnd(t, items[..i], items[i]);
    }
    assert items[..i] + [items[i]] == items[..i + 1];
  }

  /** The count is written as an unsigned int: a vector comes back whole exactly below 2^32 items. */
  lemma VectorRoundTrip(t: Schema, v: Value, tail: Bytes)
    requires t.SSeq? && v.VSeq?
    requires forall i :: 0 <= i < |v.items| ==> ItemHasType(v.items[i], t)
    ensures Decode(t, Encode(v) + tail) == Some((v, tail)) <==> |v.items| < TWO_32
  {
    if |v.items| < TWO_32 {
      DecodeEncode(t, v, tail);
    } else {
      DecodeCount(t, Encode(v) + tail);
    }
  }

  /** The bytes left over are the end of the bytes given. */
  ghost predicate Suffix(rest: Bytes, s: Bytes)
  {
    |rest| <= |s| && rest == s[|s| - |rest|..]
  }

  /** What the reader returns is well typed on every input, and it reads a prefix of it. */
  lemma {:induction false} DecodeWellTyped(t: Schema, s: Bytes)
    ensures Decode(t, s).Some? ==>
              HasType(Decode(t, s).value.0, t) && Suffix(Decode(t, s).value.1, s)
    decreases t, 2, 0
  {
    if IsContainer(t) {
      DecodeContainerWellTyped(t, s);
    } else if t.SPair? {
      DecodeBothWellTyped(t, s);
    } else {
      DecodeScalarWellTyped(t, s);
    }
  }

  lemma DecodeScalarWellTyped(t: Schema, s: Bytes)
    requires t.SInt? || t.SBool? || t.SStr?
    ensures Decode(t, s).Some? ==>
              HasType(Decode(t, s).value.0, t) && Suffix(Decode(t, s).value.1, s)
  {
    UnpackConsumes(0, s);
    if t.SInt? && Unpack(s).Some? {
      FromWireInRange(t.kind, Unpack(s).value.0);
    }
  }

  lemma {:induction false} DecodeContainerWellTyped(t: Schema, s: Bytes)
    requires IsContainer(t)
    ensures Decode(t, s).Some? ==>
              HasType(Decode(t, s).value.0, t) && Suffix(Decode(t, s).value.1, s)
    decreases t, 1, TWO_32
  {
    UnpackConsumes(0, s);
    if Unpack(s).Some? {
      var (n, rest) := Unpack(s).value;
      DecodeItemsWellTyped(t, n % TWO_32, [], rest);
    }
  }

  lemma {:induction false} DecodeBothWellTyped(t: Schema, s: Bytes)
    requires t.SPair? || t.SMap?
    ensures DecodeBoth(t, s).Some? ==>
              var (x, rest) := DecodeBoth(t, s).value;
              x.VPair? &&
              HasType(x.fst, if t.SPair? then t.first else t.key) &&
              HasType(x.snd, if t.SPair? then t.second else t.val) &&
              Suffix(rest, s)
    decreases t, 0, 0
  {
    var a := if t.SPair? then t.first else t.key;
    DecodeWellTyped(a, s);
    if Decode(a, s).Some? {
      DecodeWellTyped(if t.SPair? then t.second else t.val, Decode(a, s).value.1);
    }
  }

  lemma {:induction false} DecodeItemsWellTyped(t: Schema, n: nat, items: seq<Value>, s: Bytes)
    requires IsContainer(t)
    requires forall i :: 0 <= i < |items| ==> ItemHasType(items[i], t)
    requires Ordered(t, items)
    ensures DecodeItems(t, n, items, s).Some? ==>
              var (r, rest) := DecodeItems(t, n, items, s).value;
              |items| <= |r| <= |items| + n && (t.SSeq? ==> |r| == |items| + n) &&
              (forall i :: 0 <= i < |r| ==> ItemHasType(r[i], t)) &&
              Ordered(t, r) &&
              Suffix(rest, s)
    decreases t, 1, n
  {
    if n > 0 {
      if t.SMap? {
        DecodeBothWellTyped(t, s);
      } else {
        DecodeWellTyped(t.elem, s);
      }
      if DecodeItem(t, s).Some? {
        var (x, rest) := DecodeItem(t, s).value;
        AddWellTyped(t, items, x);
        DecodeItemsWellTyped(t, n - 1, Add(t, items, x), rest);
      }
    }
  }

  lemma AddWellTyped(t: Schema, items: seq<Value>, x: Value)
    requires IsContainer(t) && ItemHasType(x, t)
    requires forall i :: 0 <= i < |items| ==> ItemHasType(items[i], t)
    requires Ordered(t, items)
    ensures forall i :: 0 <= i < |Add(t, items, x)| ==> ItemHasType(Add(t, items, x)[i], t)
    ensures Ordered(t, Add(t, items, x))
    ensures |items| <= |Add(t, items, x)| <= |items| + 1
    ensures t.SSeq? ==> |Add(t, items, x)| == |items| + 1
  {
    if !t.SSeq? {
      InsertMembers(t, items, x);
      InsertSorted(t, items, x);
    }
  }

  /** A decoded container never holds 2^32 items. */
  lemma DecodeCount(t: Schema, s: Bytes)
    requires IsContainer(t)
    ensures Decode(t, s).Some? ==> HasItems(Decode(t, s).value.0) && |Decode(t, s).value.0.items| < TWO_32
  {
    DecodeWellTyped(t, s);
  }

  // ---------------------------------------------------------------- the operators themselves

  /** operator<<, driven by the value. */
  method Write(b: OutBuffer, v: Value)
    modifies b
    ensures b.container == old(b.container) + Encode(v)
    decreases v, 1
  {
    hide Pack, PackString, EncodeAll;
    match v
    case VInt(i) =>
      b.PutPN(ToWire(i));
    case VBool(x) =>
      b.PutPN(if x then 1 else 0);
    case VStr(s) =>
      b.PutPSTR(s);
    case VPair(x, y) =>
      Assoc(b.container, Encode(x), Encode(y));
      Write(b, x);
      Write(b, y);
    case _ =>
      Assoc(b.container, Pack(|v.items| % TWO_32), EncodeAll(v.items));
      b.PutPN(|v.items| % TWO_32);
      WriteItems(b, v.items);
  }

  method WriteItems(b: OutBuffer, items: seq<Value>)
    modifies b
    ensures b.container == old(b.container) + EncodeAll(items)
    decreases items, 0
  {
    var i := 0;
    while i < |items|
      invariant 0 <= i <= |items|
      invariant b.container + EncodeAll(items[i..]) == old(b.container) + EncodeAll(items)
    {
      ghost var before := b.container;
      assert items[i..][1..] == items[i + 1..];
      Write(b, items[i]);
      assert b.container + EncodeAll(items[i + 1..]) == before + EncodeAll(items[i..]);
      i := i + 1;
    }
    assert b.container + EncodeAll(items[i..]) == b.container;
  }

  /** operator>>, driven by the type; None where the reading functions of inBuffer throw. */
  method Read(b: InBuffer, t: Schema) returns (r: Option<Value>)
    requires b.Valid()
    modifies b
    ensures b.Valid()
    ensures Decode(t, old(b.Rest())) == None ==> r == None
    ensures Decode(t, old(b.Rest())).Some? ==>
              r == Some(Decode(t, old(b.Rest())).value.0) && b.Rest() == Decode(t, old(b.Rest())).value.1
    decreases t, 2
  {
    if IsContainer(t) {
      r := ReadItems(b, t);
    } else if t.SPair? {
      r := ReadBoth(b, t);
    } else if t.SStr? {
      var s := b.GetPSTR();
      r := if s.None? then None else Some(VStr(s.value));
    } else {
      var n := b.GetPN();
      r := if n.None? then None
           else if t.SBool? then Some(VBool(n.value != 0))
           else Some(VInt(FromWire(t.kind, n.value)));
    }
  }

  method ReadBoth(b: InBuffer, t: Schema) returns (r: Option<Value>)
    requires b.Valid() && (t.SPair? || t.SMap?)
    modifies b
    ensures b.Valid()
    ensures DecodeBoth(t, old(b.Rest())) == None ==> r == None
    ensures DecodeBoth(t, old(b.Rest())).Some? ==>
              r == Some(DecodeBoth(t, old(b.Rest())).value.0) && b.Rest() == DecodeBoth(t, old(b.Rest())).value.1
    decreases t, 0
  {
    var x := Read(b, if t.SPair? then t.first else t.key);
    if x.None? {
      return None;
    }
    var y := Read(b, if t.SPair? then t.second else t.val);
    if y.None? {
      return None;
    }
    r := Some(VPair(x.value, y.value));
  }

  /** The count, then as many items, each inserted as the container inserts it. */
  method ReadItems(b: InBuffer, t: Schema) returns (r: Option<Value>)
    requires b.Valid() && IsContainer(t)
    modifies b
    ensures b.Valid()
    ensures Decode(t, old(b.Rest())) == None ==> r == None
    ensures Decode(t, old(b.Rest())).Some? ==>
              r == Some(Decode(t, old(b.Rest())).value.0) && b.Rest() == Decode(t, old(b.Rest())).value.1
    decreases t, 1
  {
    hide Unpack, Add, DecodeBoth, Wrap;
    var n := b.GetPN();
    if n.None? {
      return None;
    }
    var count := n.value % TWO_32;
    ghost var whole := DecodeItems(t, count, [], b.Rest());
    var items: seq<Value> := [];
    var j := 0;
    while j < count
      invariant 0 <= j <= count && b.Valid()
      invariant DecodeItems(t, count - j, items, b.Rest()) == whole
    {
      if t.SMap? {
        var e := ReadBoth(b, t);
        if e.None? {
          return None;
        }
        items := Add(t, items, e.value);
      } else {
        var x := Read(b, t.elem);
        if x.None? {
          return None;
        }
        items := Add(t, items, x.value);
      }
      j := j + 1;
    }
    r := Some(Wrap(t, items));
  }
}
