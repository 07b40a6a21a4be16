/** route_t: the stack of hops an event carries, its wire form and its ordering. */
module Routes {
  import opened Prelude
  import opened PackedNumber
  import opened IoBuffer
  import opened TypedCodec

  /** Route; a pointer is the 64-bit word it is sent as. */
  datatype Hop =
    | LocalService(service: int32)
    | RemoteAddr(socket: int64)
    | HandlerPolled(ptr: uint64)
    | SocketRoute(socket: int64)
    | HandlerThreaded(ptr: uint64)
    | Thread(thread: int32)
    | Listener(ptr: uint64)

  type Route = seq<Hop>

  /** RouteType. */
  function Tag(h: Hop): nat
  {
    match h
    case LocalService(_) => 1
    case RemoteAddr(_) => 2
    case HandlerPolled(_) => 3
    case SocketRoute(_) => 4
    case HandlerThreaded(_) => 5
    case Thread(_) => 6
    case Listener(_) => 7
  }

  /** The one member of the union that the tag selects. */
  function Field(h: Hop): int
  {
    match h
    case LocalService(id) => id
    case RemoteAddr(id) => id
    case HandlerPolled(p) => p
    case SocketRoute(id) => id
    case HandlerThreaded(p) => p
    case Thread(id) => id
    case Listener(p) => p
  }

  /** A hop is its tag and its field. */
  lemma HopByTagAndField(a: Hop, b: Hop)
    ensures a == b <==> Tag(a) == Tag(b) && Field(a) == Field(b)
  {
  }

  predicate ListenerFree(r: Route)
  {
    forall i :: 0 <= i < |r| ==> !r[i].Listener?
  }

  // ---------------------------------------------------------------- wire form

  function PackHop(h: Hop): Bytes
  {
    Pack(Tag(h)) + Pack(ToWire(Field(h)))
  }

  function PackHops(r: Route): Bytes
  {
    if r == [] then [] else PackHop(r[0]) + PackHops(r[1..])
  }

  function PackRoute(r: Route): Bytes
  {
    Pack(|r| % TWO_64) + PackHops(r)
  }

  /** The outcome of reading one hop: nothing is pushed for a tag the switch does not know. */
  datatype HopRead = Broken | Skipped(rest: Bytes) | Pushed(hop: Hop, rest: Bytes)

  function HopFrom(tag: int, n: nat): (h: Hop)
    requires tag in {1, 2, 3, 4, 5, 6} && n < TWO_64
    ensures Tag(h) == tag
  {
    match tag
    case 1 => FromWireInRange(I32, n); LocalService(FromWire(I32, n))
    case 2 => FromWireInRange(I64, n); RemoteAddr(FromWire(I64, n))
    case 3 => HandlerPolled(n)
    case 4 => FromWireInRange(I64, n); SocketRoute(FromWire(I64, n))
    case 5 => HandlerThreaded(n)
    case _ => FromWireInRange(I32, n); Thread(FromWire(I32, n))
  }

  function UnpackHop(s: Bytes): HopRead
  {
    match Unpack(s)
    case None => Broken
    case Some((t, rest)) =>
      var tag := FromWire(I32, t);
      if tag == 7 then Broken
      else if tag !in {1, 2, 3, 4, 5, 6} then Skipped(rest)
      else
        match Unpack(rest)
        case None => Broken
        case Some((n, tail)) => UnpackConsumes(0, rest); Pushed(HopFrom(tag, n), tail)
  }

  lemma FieldFits(s: Bytes)
    ensures Unpack(s).Some? ==> Unpack(s).value.0 < TWO_64
  {
    if Unpack(s).Some? {
      UnpackConsumes(0, s);
    }
  }

  /** The loop of route_t::unpack: `n` more hops onto what the route holds already. */
  function UnpackHops(n: nat, r: Route, s: Bytes): Option<(Route, Bytes)>
    decreases n
  {
    if n == 0 then Some((r, s))
    else
      match UnpackHop(s)
      case Broken => None
      case Skipped(rest) => UnpackHops(n - 1, r, rest)
      case Pushed(h, rest) => UnpackHops(n - 1, r + [h], rest)
  }

  function UnpackRoute(r: Route, s: Bytes): Option<(Route, Bytes)>
  {
    match Unpack(s)
    case None => None
    case Some((n, rest)) => UnpackHops(n, r, rest)
  }

  lemma UnpackPackHop(h: Hop, tail: Bytes)
    ensures UnpackHop(PackHop(h) + tail) == if h.Listener? then Broken else Pushed(h, tail)
  {
    var n := ToWire(Field(h));
    assert PackHop(h) + tail == Pack(Tag(h)) + (Pack(n) + tail);
    UnpackPack(Tag(h), Pack(n) + tail);
    UnpackPack(n, tail);
    TagSurvives(Tag(h));
    if !h.Listener? {
      FieldSurvives(h);
      HopByTagAndField(HopFrom(Tag(h), n), h);
    }
  }

  lemma TagSurvives(tag: nat)
    requires tag < 8
    ensures FromWire(I32, tag) == tag
  {
  }

  lemma FieldSurvives(h: Hop)
    requires !h.Listener?
    ensures Field(HopFrom(Tag(h), ToWire(Field(h)))) == Field(h)
  {
    var k := if h.LocalService? || h.Thread? then I32 else if h.RemoteAddr? || h.SocketRoute? then I64 else U64;
    FromWireToWire(k, Field(h));
  }

  lemma {:induction false} UnpackPackHops(r: Route, before: Route, tail: Bytes)
    ensures UnpackHops(|r|, before, PackHops(r) + tail) ==
            if ListenerFree(r) then Some((before + r, tail)) else None
    decreases r
  {
    hide PackHop;
    if r == [] {
      assert PackHops(r) + tail == tail && before + r == before;
    } else {
      Assoc(PackHop(r[0]), PackHops(r[1..]), tail);
      UnpackPackHop(r[0], PackHops(r[1..]) + tail);
      UnpackPackHops(r[1..], before + [r[0]], tail);
      assert before + [r[0]] + r[1..] == before + r;
      assert ListenerFree(r) <==> !r[0].Listener? && ListenerFree(r[1..]);
    }
  }

  /** A route is appended hop for hop, and refused exactly when it holds a listener pointer. */
  lemma UnpackPackRoute(r: Route, before: Route, tail: Bytes)
    requires |r| < TWO_64
    ensures UnpackRoute(before, PackRoute(r) + tail) ==
            if ListenerFree(r) then Some((before + r, tail)) else None
  {
    var n := |r| % TWO_64;
    assert n == |r|;
    assert PackRoute(r) + tail == Pack(n) + (PackHops(r) + tail);
    UnpackPack(n, PackHops(r) + tail);
    UnpackPackHops(r, before, tail);
  }

  // ---------------------------------------------------------------- ordering

  /** The first place where two routes of one length differ decides, the larger hop coming first. */
  predicate LessFrom(a: Route, b: Route, i: nat)
    requires |a| == |b| && i <= |a|
    decreases |a| - i
  {
    if i == |a| then false
    else if Tag(b[i]) != Tag(a[i]) then Tag(b[i]) < Tag(a[i])
    else if Field(b[i]) != Field(a[i]) then Field(b[i]) < Field(a[i])
    else LessFrom(a, b, i + 1)
  }

  /** a.operator<(b): the longer route comes first. */
  predicate Precedes(a: Route, b: Route)
  {
    if |b| != |a| then |b| < |a| else LessFrom(a, b, 0)
  }

  lemma {:induction false} LessFromTrichotomy(a: Route, b: Route, i: nat)
    requires |a| == |b| && i <= |a|
    ensures LessFrom(a, b, i) ==> !LessFrom(b, a, i) && a[i..] != b[i..]
    ensures a[i..] != b[i..] ==> LessFrom(a, b, i) || LessFrom(b, a, i)
    decreases |a| - i
  {
    if i < |a| {
      HopByTagAndField(a[i], b[i]);
      LessFromTrichotomy(a, b, i + 1);
      assert a[i..] == [a[i]] + a[i + 1..] && b[i..] == [b[i]] + b[i + 1..];
      assert a[i..][0] == a[i] && b[i..][0] == b[i];
    }
  }

  lemma {:induction false} LessFromTransitive(a: Route, b: Route, c: Route, i: nat)
    requires |a| == |b| == |c| && i <= |a|
    requires LessFrom(a, b, i) && LessFrom(b, c, i)
    ensures LessFrom(a, c, i)
    decreases |a| - i
  {
    if Tag(a[i]) == Tag(b[i]) == Tag(c[i]) && Field(a[i]) == Field(b[i]) == Field(c[i]) {
      LessFromTransitive(a, b, c, i + 1);
    }
  }

  /** Exactly one of less, equal and greater holds of any two routes. */
  lemma PrecedesTrichotomy(a: Route, b: Route)
    ensures Precedes(a, b) ==> !Precedes(b, a) && a != b
    ensures a != b ==> Precedes(a, b) || Precedes(b, a)
  {
    if |a| == |b| {
      LessFromTrichotomy(a, b, 0);
      assert a[0..] == a && b[0..] == b;
    }
  }

  lemma PrecedesTransitive(a: Route, b: Route, c: Route)
    requires Precedes(a, b) && Precedes(b, c)
    ensures Precedes(a, c)
  {
    if |a| == |b| == |c| {
      LessFromTransitive(a, b, c, 0);
    }
  }

  // ---------------------------------------------------------------- the class

  class RouteT {
    var container: Route

    constructor ()
      ensures container == []
    {
      container := [];
    }

    method PushBack(h: Hop)
      modifies this
      ensures container == old(container) + [h]
    {
      container := container + [h];
    }

    /** None where route_t::pop_back throws, on an empty route. */
    method PopBack() returns (r: Option<Hop>)
      modifies this
      ensures old(container) == [] ==> r == None && container == []
      ensures old(container) != [] ==> r.Some? && container + [r.value] == old(container)
    {
      if |container| == 0 {
        return None;
      }
      r := Some(container[|container| - 1]);
      container := container[..|container| - 1];
    }

    static method PackHopTo(o: OutBuffer, h: Hop)
      modifies o
      ensures o.container == old(o.container) + PackHop(h)
    {
      var tag, field := Tag(h), ToWire(Field(h));
      o.PutPN(tag);
      o.PutPN(field);
      Assoc(old(o.container), Pack(tag), Pack(field));
    }

    method PackTo(o: OutBuffer)
      modifies o
      ensures o.container == old(o.container) + PackRoute(container)
    {
      var n := |container| % TWO_64;
      o.PutPN(n);
      PackHopsTo(o, container);
      Assoc(old(o.container), Pack(n), PackHops(container));
    }

    static method PackHopsTo(o: OutBuffer, r: Route)
      modifies o
      ensures o.container == old(o.container) + PackHops(r)
    {
      var i := 0;
      assert r[0..] == r;
      while i < |r|
        invariant 0 <= i <= |r|
        invariant o.container + PackHops(r[i..]) == old(o.container) + PackHops(r)
      {
        ghost var before := o.container;
        assert r[i..][1..] == r[i + 1..];
        PackHopTo(o, r[i]);
        Assoc(before, PackHop(r[i]), PackHops(r[i + 1..]));
        i := i + 1;
      }
      assert o.container + PackHops(r[i..]) == o.container;
    }

    /** Appends; false where route_t::unpack throws, with whatever was pushed by then left in place. */
    method UnpackFrom(o: InBuffer) returns (ok: bool)
      requires o.Valid()
      modifies this, o
      ensures o.Valid()
      ensures ok <==> UnpackRoute(old(container), old(o.Rest())).Some?
      ensures ok ==> UnpackRoute(old(container), old(o.Rest())) == Some((container, o.Rest()))
    {
      hide Unpack, FromWire, HopFrom;
      var n := o.GetPN();
      if n.None? {
        return false;
      }
      var i := 0;
      while i < n.value
        invariant 0 <= i <= n.value && o.Valid()
        invariant UnpackHops(n.value - i, container, o.Rest()) == UnpackRoute(old(container), old(o.Rest()))
      {
        ghost var s := o.Rest();
        var t := o.GetPN();
        if t.None? {
          return false;
        }
        var tag := FromWire(I32, t.value);
        if tag == 7 {
          return false;
        }
        if tag in {1, 2, 3, 4, 5, 6} {
          FieldFits(o.Rest());
          var field := o.GetPN();
          if field.None? {
            return false;
          }
          PushBack(HopFrom(tag, field.value));
        }
        i := i + 1;
      }
      return true;
    }

    /** operator<. */
    method Less(a: Route) returns (r: bool)
      ensures r == Precedes(container, a)
    {
      if |a| != |container| {
        return |a| < |container|;
      }
      var i := 0;
      while i < |container|
        invariant 0 <= i <= |container|
        invariant LessFrom(container, a, i) == LessFrom(container, a, 0)
      {
        if Tag(a[i]) != Tag(container[i]) {
          return Tag(a[i]) < Tag(container[i]);
        }
        if Field(a[i]) != Field(container[i]) {
          return Field(a[i]) < Field(container[i]);
        }
        i := i + 1;
      }
      return false;
    }

    /** operator==. */
    method Equal(a: Route) returns (r: bool)
      ensures r <==> a == container
    {
      if |a| != |container| {
        return false;
      }
      var i := 0;
      while i < |container|
        invariant 0 <= i <= |container|
        invariant a[..i] == container[..i]
      {
        HopByTagAndField(a[i], container[i]);
        if Tag(a[i]) != Tag(container[i]) || Field(a[i]) != Field(container[i]) {
          return false;
        }
        i := i + 1;
      }
      return true;
    }
  }
}
