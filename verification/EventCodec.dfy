/** packEvent and unpackEvent, and the two packets RPC nodes exchange. */
module EventCodec {
  import opened Prelude
  import opened PackedNumber
  import opened IoBuffer
  import opened TypedCodec
  import opened Routes

  /** Event::Base: the body is the list of fields the event's own pack() writes. */
  datatype Event = Event(id: int32, route: Route, body: seq<Value>)

  /** event_constructors: the fields that unpack() of each registered event reads. */
  type Registry = map<int32, seq<Schema>>

  /** An event some constructor of the registry could have made. */
  predicate Registered(reg: Registry, e: Event)
  {
    e.id in reg && |reg[e.id]| == |e.body| && |e.route| < TWO_64 &&
    forall i :: 0 <= i < |e.body| ==> HasType(e.body[i], reg[e.id][i])
  }

  function DecodeFields(ts: seq<Schema>, s: Bytes): Option<(seq<Value>, Bytes)>
  {
    if ts == [] then Some(([], s))
    else
      match Decode(ts[0], s)
      case None => None
      case Some((v, rest)) =>
        match DecodeFields(ts[1..], rest)
        case None => None
        case Some((vs, tail)) => Some(([v] + vs, tail))
  }

  lemma {:induction false} DecodeEncodeFields(ts: seq<Schema>, vs: seq<Value>, tail: Bytes)
    requires |ts| == |vs| && forall i :: 0 <= i < |vs| ==> HasType(vs[i], ts[i])
    ensures DecodeFields(ts, EncodeAll(vs) + tail) == Some((vs, tail))
  {
    hide Encode, Decode, HasType;
    if vs == [] {
      assert EncodeAll(vs) + tail == tail;
    } else {
      var head, after := Encode(vs[0]), EncodeAll(vs[1..]) + tail;
      Assoc(head, EncodeAll(vs[1..]), tail);
      DecodeEncode(ts[0], vs[0], after);
      DecodeEncodeFields(ts[1..], vs[1..], tail);
      assert [vs[0]] + vs[1..] == vs;
      FieldThenFields(ts, head + after, vs[0], after, vs[1..], tail);
    }
  }

  lemma FieldThenFields(ts: seq<Schema>, s: Bytes, v: Value, rest: Bytes, vs: seq<Value>, tail: Bytes)
    requires ts != [] && Decode(ts[0], s) == Some((v, rest))
    requires DecodeFields(ts[1..], rest) == Some((vs, tail))
    ensures DecodeFields(ts, s) == Some(([v] + vs, tail))
  {
  }

  function PackEvent(e: Event): Bytes
  {
    Pack(ToWire(e.id)) + PackRoute(e.route) + EncodeAll(e.body)
  }

  /** None where unpackEvent throws: cut short, a listener hop, or no constructor for the id. */
  function UnpackEvent(reg: Registry, s: Bytes): Option<Event>
  {
    match Unpack(s)
    case None => None
    case Some((n, afterId)) =>
      FromWireInRange(I32, n);
      var id: int32 := FromWire(I32, n);
      match UnpackRoute([], afterId)
      case None => None
      case Some((route, afterRoute)) =>
        if id !in reg then None
        else
          match DecodeFields(reg[id], afterRoute)
          case None => None
          case Some((body, _)) => Some(Event(id, route, body))
  }

  /** A packed event gives back id, route and body, unless its route holds a listener hop. */
  lemma UnpackPackEvent(reg: Registry, e: Event, tail: Bytes)
    requires Registered(reg, e)
    ensures UnpackEvent(reg, PackEvent(e) + tail) == if ListenerFree(e.route) then Some(e) else None
  {
    var id := ToWire(e.id);
    var fields := EncodeAll(e.body) + tail;
    Assoc(Pack(id) + PackRoute(e.route), EncodeAll(e.body), tail);
    Assoc(Pack(id), PackRoute(e.route), fields);
    UnpackPack(id, PackRoute(e.route) + fields);
    FromWireToWire(I32, e.id);
    AfterEventId(reg, e, tail);
  }

  /** What unpackEvent reads behind the id. */
  lemma AfterEventId(reg: Registry, e: Event, tail: Bytes)
    requires Registered(reg, e)
    ensures var s := PackRoute(e.route) + (EncodeAll(e.body) + tail);
            if ListenerFree(e.route) then
              UnpackRoute([], s) == Some((e.route, EncodeAll(e.body) + tail)) &&
              DecodeFields(reg[e.id], EncodeAll(e.body) + tail) == Some((e.body, tail))
            else UnpackRoute([], s) == None
  {
    UnpackPackRoute(e.route, [], EncodeAll(e.body) + tail);
    assert [] + e.route == e.route;
    DecodeEncodeFields(reg[e.id], e.body, tail);
  }

  method WriteEvent(o: OutBuffer, id: int32, route: RouteT, body: seq<Value>)
    modifies o
    ensures o.container == old(o.container) + PackEvent(Event(id, route.container, body))
  {
    ghost var n, r, b := Pack(ToWire(id)), PackRoute(route.container), EncodeAll(body);
    o.PutPN(ToWire(id));
    route.PackTo(o);
    Assoc(old(o.container), n, r);
    WriteItems(o, body);
    Assoc(old(o.container), n + r, b);
  }

  method ReadEvent(reg: Registry, b: InBuffer) returns (r: Option<Event>)
    requires b.Valid()
    modifies b
    ensures b.Valid()
    ensures r == UnpackEvent(reg, old(b.Rest()))
  {
    var n := b.GetPN();
    if n.None? {
      return None;
    }
    FromWireInRange(I32, n.value);
    var id: int32 := FromWire(I32, n.value);
    var route := new RouteT();
    var ok := route.UnpackFrom(b);
    if !ok || id !in reg {
      return None;
    }
    var body := ReadFields(b, reg[id]);
    r := if body.None? then None else Some(Event(id, route.container, body.value));
  }

  method ReadFields(b: InBuffer, ts: seq<Schema>) returns (r: Option<seq<Value>>)
    requires b.Valid()
    modifies b
    ensures b.Valid()
    ensures DecodeFields(ts, old(b.Rest())) == None ==> r == None
    ensures DecodeFields(ts, old(b.Rest())).Some? ==> r == Some(DecodeFields(ts, old(b.Rest())).value.0)
  {
    var vs: seq<Value> := [];
    var i := 0;
    ghost var all := DecodeFields(ts, b.Rest());
    assert ts[0..] == ts && (all.Some? ==> [] + all.value.0 == all.value.0);
    while i < |ts|
      invariant 0 <= i <= |ts| && b.Valid()
      invariant all == Prepend(vs, DecodeFields(ts[i..], b.Rest()))
    {
      assert ts[i..][1..] == ts[i + 1..];
      var v := Read(b, ts[i]);
      if v.None? {
        return None;
      }
      PrependOne(vs, v.value, DecodeFields(ts[i + 1..], b.Rest()));
      vs := vs + [v.value];
      i := i + 1;
    }
    assert ts[i..] == [] && vs + [] == vs;
    r := Some(vs);
  }

  ghost function Prepend(vs: seq<Value>, r: Option<(seq<Value>, Bytes)>): Option<(seq<Value>, Bytes)>
  {
    match r
    case None => None
    case Some((ws, rest)) => Some((vs + ws, rest))
  }

  lemma PrependOne(vs: seq<Value>, v: Value, r: Option<(seq<Value>, Bytes)>)
    ensures Prepend(vs, Prepend([v], r)) == Prepend(vs + [v], r)
  {
    if r.Some? {
      assert vs + ([v] + r.value.0) == vs + [v] + r.value.0;
    }
  }

  // ---------------------------------------------------------------- RPC packets

  const DIRECTION_SEND: nat := 's' as int
  const DIRECTION_PASS: nat := 'p' as int

  datatype Packet = Send(dst: int32, ev: Event) | Pass(ev: Event)

  function PackPacket(p: Packet): Bytes
  {
    match p
    case Send(dst, e) => Pack(DIRECTION_SEND) + Pack(ToWire(dst)) + PackEvent(e)
    case Pass(e) => Pack(DIRECTION_PASS) + PackEvent(e)
  }

  /** How the two packet handlers read a buffer, up to the point where they differ. */
  datatype PacketRead = BadPacket | BadDirection | Good(packet: Packet)

  function UnpackPacket(reg: Registry, s: Bytes): PacketRead
  {
    match Unpack(s)
    case None => BadPacket
    case Some((d, rest)) =>
      var direction := FromWire(I32, d);
      if direction == DIRECTION_PASS then
        match UnpackEvent(reg, rest)
        case None => BadPacket
        case Some(e) => Good(Pass(e))
      else if direction == DIRECTION_SEND then
        match Unpack(rest)
        case None => BadPacket
        case Some((n, tail)) =>
          FromWireInRange(I32, n);
          match UnpackEvent(reg, tail)
          case None => BadPacket
          case Some(e) => Good(Send(FromWire(I32, n), e))
      else BadDirection
  }

  lemma UnpackPackPacket(reg: Registry, p: Packet)
    requires Registered(reg, p.ev)
    ensures UnpackPacket(reg, PackPacket(p)) == if ListenerFree(p.ev.route) then Good(p) else BadPacket
  {
    hide Pack, Unpack, PackEvent, UnpackEvent, ListenerFree;
    UnpackPackEvent(reg, p.ev, []);
    assert PackEvent(p.ev) + [] == PackEvent(p.ev);
    if p.Pass? {
      UnpackPack(DIRECTION_PASS, PackEvent(p.ev));
    } else {
      SendHeader(p);
    }
  }

  lemma SendHeader(p: Packet)
    requires p.Send?
    ensures Unpack(PackPacket(p)) == Some((DIRECTION_SEND, Pack(ToWire(p.dst)) + PackEvent(p.ev)))
    ensures Unpack(Pack(ToWire(p.dst)) + PackEvent(p.ev)) == Some((ToWire(p.dst), PackEvent(p.ev)))
    ensures FromWire(I32, ToWire(p.dst)) == p.dst
  {
    var to, e := ToWire(p.dst), PackEvent(p.ev);
    Assoc(Pack(DIRECTION_SEND), Pack(to), e);
    UnpackPack(DIRECTION_SEND, Pack(to) + e);
    UnpackPack(to, e);
    FromWireToWire(I32, p.dst);
  }
}
