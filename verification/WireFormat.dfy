/** What is on the wire, byte by byte. */
module WireFormat {
  import opened Prelude
  import opened PackedNumber
  import opened TypedCodec
  import opened Routes
  import opened EventCodec
  import opened Rpc
  import Oscar

  // ---------------------------------------------------------------- numbers

  /** 128 to the power k. */
  function Power(k: nat): nat { if k == 0 then 1 else 128 * Power(k - 1) }

  lemma {:induction false} PowerIsPositive(k: nat)
    ensures Power(k) > 0
  {
    if k > 0 {
      PowerIsPositive(k - 1);
    }
  }

  lemma DivideTwice(n: nat, d: nat)
    requires d > 0
    ensures n / (128 * d) == n / 128 / d
  {
    var m, r := n / 128, n % 128;
    var q, s := m / d, m % d;
    assert n == q * (128 * d) + (128 * s + r);
    Halves(n, 128 * d, q, 128 * s + r);
  }

  /** Digit i of the groups of n, counted from the front, has the weight of its place. */
  lemma {:induction false} GroupsAreDigits(n: nat, i: nat)
    requires i < |HighGroups(n)|
    ensures Power(|HighGroups(n)| - 1 - i) > 0
    ensures HighGroups(n)[i] == 128 + n / Power(|HighGroups(n)| - 1 - i) % 128
    decreases n
  {
    var k := |HighGroups(n)| - 1 - i;
    PowerIsPositive(k);
    if k > 0 {
      GroupsAreDigits(n / 128, i);
      DivideTwice(n, Power(k - 1));
    }
  }

  lemma {:induction false} GroupsAreAsMany(n: nat)
    ensures n < Power(|HighGroups(n)|)
    ensures n > 0 ==> |HighGroups(n)| > 0 && Power(|HighGroups(n)| - 1) <= n
    decreases n
  {
    if n > 0 {
      GroupsAreAsMany(n / 128);
    }
  }

  /** A packed number is its numeral to the base 128, the highest digit first, with 128 added to all but the last. */
  lemma PackIsBase128(n: nat, i: nat)
    requires i < |Pack(n)|
    ensures var k := |Pack(n)| - 1;
            && Power(k - i) > 0
            && Pack(n)[i] == n / Power(k - i) % 128 + (if i < k then 128 else 0)
            && n < Power(k + 1) && (k > 0 ==> Power(k) <= n)
  {
    hide HighGroups, Power;
    var k := |Pack(n)| - 1;
    PowersOfOne(k);
    GroupsAreAsMany(n / 128);
    if i < k {
      GroupsAreDigits(n / 128, i);
      DivideTwice(n, Power(k - 1 - i));
      PowersOfOne(k - 1 - i);
    }
    if k > 0 {
      PowersOfOne(k - 1);
      NoGroupsOfZero(n / 128);
    }
  }

  lemma PowersOfOne(k: nat)
    ensures Power(0) == 1 && Power(k + 1) == 128 * Power(k)
  {
  }

  lemma NoGroupsOfZero(n: nat)
    ensures n == 0 <==> HighGroups(n) == []
  {
  }

  lemma OneByte(n: nat)
    requires n < 128
    ensures Pack(n) == [n] && ToWire(n) == n
  {
  }

  // ---------------------------------------------------------------- values

  /** The ranges of the eight kinds of integer. */
  lemma Ranges(i: int)
    ensures InRange(I8, i) <==> -128 <= i <= 127
    ensures InRange(U8, i) <==> 0 <= i <= 255
    ensures InRange(I16, i) <==> -32768 <= i <= 32767
    ensures InRange(U16, i) <==> 0 <= i <= 65535
    ensures InRange(I32, i) <==> -2147483648 <= i <= 2147483647
    ensures InRange(U32, i) <==> 0 <= i <= 4294967295
    ensures InRange(I64, i) <==> -9223372036854775808 <= i <= 9223372036854775807
    ensures InRange(U64, i) <==> 0 <= i <= 18446744073709551615
  {
  }

  /** A word that is read as a shorter integer is cut down to its width: the result is in range and congruent. */
  lemma Truncated(k: IntKind, n: nat)
    ensures InRange(k, FromWire(k, n)) && (n - FromWire(k, n)) % Modulus(k) == 0
  {
    var m, q, low := Modulus(k), n / Modulus(k), n % Modulus(k);
    FromWireInRange(k, n);
    if FromWire(k, n) == low {
      Halves(n - low, m, q, 0);
    } else {
      Halves(n - low + m, m, q + 1, 0);
    }
  }

  /** A pair is its two halves in order, a container its count and then its items, a text its length and then itself. */
  lemma ValueBytes(i: int, s: Bytes, b: bool)
    requires 0 <= i < 128 && |s| < 128
    ensures Encode(VMap([VPair(VInt(i), VStr(s))])) == [1, i, |s|] + s
    ensures Encode(VSeq([VStr(s), VInt(i)])) == [2, |s|] + s + [i]
    ensures Encode(VSet([VInt(i)])) == [1, i] && Encode(VBool(b)) == [if b then 1 else 0]
  {
    hide Pack, ToWire;
    OneByte(0);
    OneByte(1);
    OneByte(2);
    OneByte(i);
    OneByte(|s|);
    TextBytes(s);
    OneItem(VPair(VInt(i), VStr(s)));
    OneItem(VInt(i));
    assert [VStr(s), VInt(i)][1..] == [VInt(i)];
  }

  lemma TextBytes(s: Bytes)
    requires |s| < 128
    ensures Encode(VStr(s)) == [|s|] + s
  {
    hide Pack;
    OneByte(|s|);
  }

  lemma OneItem(v: Value)
    ensures EncodeAll([v]) == Encode(v)
  {
    hide Encode;
    assert [v][1..] == [];
    assert EncodeAll([]) == [];
  }

  // ---------------------------------------------------------------- frames and packets

  /** A frame starts with the byte 1, the length and then the payload. */
  lemma FrameBytes(payload: Bytes)
    requires |payload| < TWO_64
    ensures Oscar.Frame(payload) == [1] + Pack(|payload|) + payload
    ensures |payload| < 128 ==> Oscar.Frame(payload) == [1, |payload|] + payload
  {
    hide Pack;
    assert |payload| % TWO_64 == |payload|;
    if |payload| < 128 {
      OneByte(|payload|);
    }
  }

  function HopBytes(h: Hop): Bytes
  {
    match h
    case LocalService(x) => [1] + Pack(ToWire(x))
    case RemoteAddr(x) => [2] + Pack(ToWire(x))
    case HandlerPolled(x) => [3] + Pack(ToWire(x))
    case SocketRoute(x) => [4] + Pack(ToWire(x))
    case HandlerThreaded(x) => [5] + Pack(ToWire(x))
    case Thread(x) => [6] + Pack(ToWire(x))
    case Listener(x) => [7] + Pack(ToWire(x))
  }

  /** A hop is the number of its kind in RouteType, and then what it holds. */
  lemma HopIsItsNumber(h: Hop)
    ensures PackHop(h) == HopBytes(h)
  {
    hide Pack, ToWire;
    OneByte(Tag(h));
  }

  lemma OneHop(h: Hop)
    ensures PackRoute([h]) == [1] + PackHop(h)
  {
    hide Pack, PackHop;
    OneByte(1);
    assert PackHops([h]) == PackHop(h) + PackHops([]);
  }

  /** A request: the letter s, the service, the number of the event, one hop, that of its sender. */
  lemma RequestBytes(dst: int32, id: int32, from: int32)
    requires 0 <= dst < 128 && 0 <= id < 128 && 0 <= from < 128
    ensures PackPacket(Send(dst, Event(id, [LocalService(from)], []))) == ['s' as int, dst, id, 1, 1, from]
  {
    hide Pack, ToWire, PackRoute, PackHop;
    OneByte('s' as int);
    OneByte(dst);
    OneByte(id);
    OneByte(from);
    OneHop(LocalService(from));
    HopIsItsNumber(LocalService(from));
  }

  /** A reply: the letter p, the number of the event, one hop, the service it goes to. */
  lemma ReplyBytes(id: int32, to: int32)
    requires 0 <= id < 128 && 0 <= to < 128
    ensures PackPacket(Pass(Event(id, [LocalService(to)], []))) == ['p' as int, id, 1, 1, to]
  {
    hide Pack, ToWire, PackRoute, PackHop;
    OneByte('p' as int);
    OneByte(id);
    OneByte(to);
    OneHop(LocalService(to));
    HopIsItsNumber(LocalService(to));
  }

  // ---------------------------------------------------------------- directions

  /** The packet starts with a direction other than s and p. */
  ghost predicate UnknownDirection(buf: Bytes)
  {
    Unpack(buf).Some? && FromWire(I32, Unpack(buf).value.0) !in {'s' as int, 'p' as int}
  }

  /** With an address to answer to, the two handlers differ on unknown directions and on nothing else. */
  lemma HandlersDiffer(reg: Registry, esi: Esi, buf: Bytes)
    requires esi.request.Some?
    ensures OnPacketOnAcceptor(reg, esi, buf) != OnPacketOnConnector(reg, esi, buf) <==> UnknownDirection(buf)
    ensures UnknownDirection(buf) ==>
              OnPacketOnAcceptor(reg, esi, buf).Ignored? && OnPacketOnConnector(reg, esi, buf).CloseSocket?
  {
    hide UnpackEvent, Unpack;
  }
}
