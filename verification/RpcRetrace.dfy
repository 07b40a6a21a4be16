/** What every run of the network keeps, and the three results about replies. */
module RpcRetrace {
  import opened Prelude
  import opened PackedNumber
  import opened Routes
  import opened EventCodec
  import opened Rpc
  import opened RpcNet

  // ---------------------------------------------------------------- routes that match a trail

  /** The hops a visit leaves on the route. */
  function HopsOf(v: Visit): Route
  {
    if v.via.Some? then [RemoteAddr(v.via.value), LocalService(v.at.service)] else [LocalService(v.at.service)]
  }

  function RouteOf(base: Route, trail: seq<Visit>): Route
  {
    if trail == [] then base else RouteOf(base, trail[..|trail| - 1]) + HopsOf(trail[|trail| - 1])
  }

  function Popped(r: Route): Route
  {
    if r == [] then [] else r[..|r| - 1]
  }

  /** Some connection from `client` was accepted at `server` as socket `id`. */
  ghost predicate CameFrom(ends: seq<End>, server: nat, id: int64, client: nat)
  {
    exists c :: 0 <= c < |ends| && ends[c].server == server && ends[c].serverId == id && ends[c].client == client
  }

  ghost predicate Leg(ends: seq<End>, a: Visit, b: Visit)
  {
    if b.via.None? then a.at.node == b.at.node else CameFrom(ends, b.at.node, b.via.value, a.at.node)
  }

  /** A request that came over a connection was read there, which a listener hop prevents. */
  ghost predicate Readable(base: Route, trail: seq<Visit>)
  {
    forall i :: 0 <= i < |trail| && trail[i].via.Some? ==> ListenerFree(base)
  }

  ghost predicate Linked(ends: seq<End>, base: Route, trail: seq<Visit>)
  {
    Readable(base, trail) && trail != [] && trail[0].via.None? && forall i :: 0 < i < |trail| ==> Leg(ends, trail[i - 1], trail[i])
  }

  /** The services of a reply so far are the last ones of the trail, backwards. */
  ghost predicate BackOk(trail: seq<Visit>, back: seq<Station>)
  {
    |back| < |trail| && forall k :: 0 <= k < |back| ==> back[k] == trail[|trail| - 2 - k].at
  }

  // ---------------------------------------------------------------- what holds of every packet

  ghost predicate SendOk(reg: Registry, ends: seq<End>, n: nat, addr: Addr, it: Item)
  {
    && it.target == ToAddr(n, addr) && it.packet.Send? && it.bytes == PackPacket(it.packet)
    && !it.history.Homeward?
    && (it.history.Outward? ==>
          && Registered(reg, it.packet.ev)
          && Linked(ends, it.history.base, it.history.trail) && it.history.trail[|it.history.trail| - 1].at.node == n
          && it.packet.ev.route == RouteOf(it.history.base, it.history.trail))
  }

  ghost predicate PassOk(reg: Registry, ends: seq<End>, n: nat, id: int64, it: Item)
  {
    && it.target == ToSocket(n, id) && it.packet.Pass? && it.bytes == PackPacket(it.packet)
    && !it.history.Outward?
    && (it.history.Homeward? ==>
          && Registered(reg, it.packet.ev)
          && Leaving(ends, n, id, it.packet.ev.route, it.history))
  }

  /** A reply on its way out of node `n` over socket `id`: that is how its request came in. */
  ghost predicate Leaving(ends: seq<End>, n: nat, id: int64, route: Route, h: History)
    requires h.Homeward?
  {
    && Linked(ends, h.base, h.trail) && BackOk(h.trail, h.back) && |h.back| + 1 < |h.trail|
    && var j := |h.trail| - 1 - |h.back|;
       h.trail[j].at.node == n && h.trail[j].via == Some(id) && route == RouteOf(h.base, h.trail[..j])
  }

  ghost predicate DeliveryOk(ends: seq<End>, n: nat, d: Delivery)
  {
    match d.history
    case Untraced => true
    case Outward(trail, base) =>
      Linked(ends, base, trail) && trail[|trail| - 1].at == Station(n, d.service) && d.ev.route == RouteOf(base, trail)
    case Homeward(trail, base, back) =>
      Linked(ends, base, trail) && BackOk(trail, back) && back != [] && back[|back| - 1] == Station(n, d.service) &&
      d.ev.route == Popped(RouteOf(base, trail[..|trail| - |back|]))
  }

  // ---------------------------------------------------------------- what holds of every node and connection

  ghost predicate ClientEnd(ends: seq<End>, n: nat, addr: Addr, esi: Esi)
  {
    esi.fd < |ends| && esi == Esi(ends[esi.fd].clientId, Some(addr), esi.fd) &&
    ends[esi.fd].client == n && ends[esi.fd].addr == addr
  }

  ghost predicate ServerEnd(ends: seq<End>, n: nat, id: int64, esi: Esi)
  {
    esi.fd < |ends| && esi == Esi(id, None, esi.fd) && ends[esi.fd].server == n && ends[esi.fd].serverId == id
  }

  ghost predicate AllSend(reg: Registry, ends: seq<End>, n: nat, addr: Addr, items: seq<Item>)
  {
    forall i :: 0 <= i < |items| ==> SendOk(reg, ends, n, addr, items[i])
  }

  ghost predicate AllPass(reg: Registry, ends: seq<End>, n: nat, id: int64, items: seq<Item>)
  {
    forall i :: 0 <= i < |items| ==> PassOk(reg, ends, n, id, items[i])
  }

  ghost predicate SaOk(reg: Registry, ends: seq<End>, n: nat, addr: Addr, s: Sess<Item>)
  {
    (s.esi.Some? ==> ClientEnd(ends, n, addr, s.esi.value)) && AllSend(reg, ends, n, addr, s.outCache)
  }

  ghost predicate SockOk(reg: Registry, ends: seq<End>, n: nat, id: int64, s: Sess<Item>)
  {
    (s.esi.Some? ==> ServerEnd(ends, n, id, s.esi.value)) && AllPass(reg, ends, n, id, s.outCache)
  }

  ghost predicate RpcOk(reg: Registry, ends: seq<End>, n: nat, st: State<Item>)
  {
    && (forall a :: a in st.sa2sess ==> SaOk(reg, ends, n, a, st.sa2sess[a]))
    && (forall id :: id in st.sock2sess ==> SockOk(reg, ends, n, id, st.sock2sess[id]))
    && (forall id :: id in st.passCache ==> AllPass(reg, ends, n, id, st.passCache[id]))
  }

  ghost predicate SiteOk(reg: Registry, ends: seq<End>, n: nat, s: Site)
  {
    RpcOk(reg, ends, n, s.rpc) && forall k :: 0 <= k < |s.inbox| ==> DeliveryOk(ends, n, s.inbox[k])
  }

  ghost predicate WireOk(reg: Registry, ends: seq<End>, e: End, w: Wire)
  {
    AllSend(reg, ends, e.client, e.addr, w.toServer) && AllPass(reg, ends, e.server, e.serverId, w.toClient)
  }

  /** Accepted sockets of one node all have different ids. */
  ghost predicate EndsOk(net: Net)
  {
    && (forall c :: 0 <= c < |net.ends| ==>
          && net.ends[c].client < |net.sites| && net.ends[c].server < |net.sites|
          && net.ends[c].addr in net.owner && net.owner[net.ends[c].addr] == net.ends[c].server
          && net.ends[c].serverId <= net.sites[net.ends[c].server].gen)
    && (forall c, d :: 0 <= c < d < |net.ends| && net.ends[c].server == net.ends[d].server ==>
          net.ends[c].serverId != net.ends[d].serverId)
  }

  ghost predicate Inv(reg: Registry, net: Net)
  {
    && |net.wires| == |net.ends|
    && EndsOk(net)
    && (forall n :: 0 <= n < |net.sites| ==> SiteOk(reg, net.ends, n, net.sites[n]))
    && (forall c :: 0 <= c < |net.ends| ==> WireOk(reg, net.ends, net.ends[c], net.wires[c]))
  }

  // ---------------------------------------------------------------- outputs of a handler

  ghost predicate OutOk(reg: Registry, ends: seq<End>, n: nat, out: Output<Item>)
  {
    out.SendTo? ==>
      if out.esi.request.Some? then
        ClientEnd(ends, n, out.esi.request.value, out.esi) && SendOk(reg, ends, n, out.esi.request.value, out.packet)
      else
        ServerEnd(ends, n, out.esi.id, out.esi) && PassOk(reg, ends, n, out.esi.id, out.packet)
  }

  ghost predicate OutsOk(reg: Registry, ends: seq<End>, n: nat, outs: seq<Output<Item>>)
  {
    forall i :: 0 <= i < |outs| ==> OutOk(reg, ends, n, outs[i])
  }

  lemma WireReplaced(reg: Registry, net: Net, c: nat, w: Wire)
    requires Inv(reg, net) && c < |net.ends| && WireOk(reg, net.ends, net.ends[c], w)
    ensures Inv(reg, net.(wires := net.wires[c := w]))
  {
  }

  /** What a node is connecting to does not matter. */
  lemma ConnectingReplaced(reg: Registry, net: Net, n: nat, connecting: set<(int64, Addr)>)
    requires Inv(reg, net) && n < |net.sites|
    ensures Inv(reg, net.(sites := net.sites[n := net.sites[n].(connecting := connecting)]))
  {
  }

  lemma WriteOk(reg: Registry, net: Net, n: nat, out: Output<Item>)
    requires Inv(reg, net) && out.SendTo? && OutOk(reg, net.ends, n, out)
    ensures out.esi.fd < |net.wires|
    ensures WireOk(reg, net.ends, net.ends[out.esi.fd], Write(net.wires[out.esi.fd], out.esi, out.packet))
  {
    assert WireOk(reg, net.ends, net.ends[out.esi.fd], net.wires[out.esi.fd]);
  }

  lemma {:induction false} EmitKeeps(reg: Registry, net: Net, n: nat, outs: seq<Output<Item>>)
    requires Inv(reg, net) && n < |net.sites| && OutsOk(reg, net.ends, n, outs)
    ensures Inv(reg, Emit(net, n, outs)) && Emit(net, n, outs).ends == net.ends
    decreases outs
  {
    if outs != [] {
      match outs[0]
      case SendTo(_, esi, it) =>
        WriteOk(reg, net, n, outs[0]);
        WireReplaced(reg, net, esi.fd, Write(net.wires[esi.fd], esi, it));
        EmitKeeps(reg, net.(wires := net.wires[esi.fd := Write(net.wires[esi.fd], esi, it)]), n, outs[1..]);
      case ConnectTo(id, addr) =>
        var all := net.sites[n].connecting + {(id, addr)};
        ConnectingReplaced(reg, net, n, all);
        EmitKeeps(reg, net.(sites := net.sites[n := net.sites[n].(connecting := all)]), n, outs[1..]);
    }
  }

  lemma HandledKeeps(reg: Registry, net: Net, n: nat, r: (State<Item>, seq<Output<Item>>))
    requires Inv(reg, net) && n < |net.sites| && RpcOk(reg, net.ends, n, r.0) && OutsOk(reg, net.ends, n, r.1)
    ensures Inv(reg, Handled(net, n, r))
  {
    EmitKeeps(reg, net.(sites := net.sites[n := net.sites[n].(rpc := r.0)]), n, r.1);
  }

  lemma GiveKeeps(reg: Registry, net: Net, n: nat, d: Delivery)
    requires Inv(reg, net) && n < |net.sites| && DeliveryOk(net.ends, n, d)
    ensures Inv(reg, Give(net, n, d))
  {
  }

  // ---------------------------------------------------------------- each handler

  lemma AddSendSa(reg: Registry, ends: seq<End>, n: nat, addr: Addr, s: Sess<Item>, it: Item)
    requires SaOk(reg, ends, n, addr, s) && SendOk(reg, ends, n, addr, it)
    ensures SaOk(reg, ends, n, addr, AddSend(s, it).0) && OutsOk(reg, ends, n, AddSend(s, it).1)
  {
  }

  lemma AddSendSock(reg: Registry, ends: seq<End>, n: nat, id: int64, s: Sess<Item>, it: Item)
    requires SockOk(reg, ends, n, id, s) && PassOk(reg, ends, n, id, it)
    ensures SockOk(reg, ends, n, id, AddSend(s, it).0) && OutsOk(reg, ends, n, AddSend(s, it).1)
  {
  }

  lemma {:induction false} AddSendsSock(reg: Registry, ends: seq<End>, n: nat, id: int64, s: Sess<Item>, items: seq<Item>)
    requires SockOk(reg, ends, n, id, s) && AllPass(reg, ends, n, id, items)
    ensures SockOk(reg, ends, n, id, AddSends(s, items).0) && OutsOk(reg, ends, n, AddSends(s, items).1)
    decreases items
  {
    if items != [] {
      AddSendSock(reg, ends, n, id, s, items[0]);
      AddSendsSock(reg, ends, n, id, AddSend(s, items[0]).0, items[1..]);
    }
  }

  lemma OnSendOk(reg: Registry, ends: seq<End>, n: nat, st: State<Item>, addr: Addr, it: Item, newId: int64)
    requires RpcOk(reg, ends, n, st) && SendOk(reg, ends, n, addr, it)
    ensures RpcOk(reg, ends, n, OnSend(st, addr, it, newId).0) && OutsOk(reg, ends, n, OnSend(st, addr, it, newId).1)
  {
    AddSendSa(reg, ends, n, addr, if addr in st.sa2sess then st.sa2sess[addr] else Sess(newId, None, [], []), it);
  }

  lemma OnPassOk(reg: Registry, ends: seq<End>, n: nat, st: State<Item>, id: int64, it: Item)
    requires RpcOk(reg, ends, n, st) && PassOk(reg, ends, n, id, it)
    ensures RpcOk(reg, ends, n, OnPass(st, id, it).0) && OutsOk(reg, ends, n, OnPass(st, id, it).1)
  {
    hide PassOk, SaOk, AddSend;
    if id in st.sock2sess {
      AddSendSock(reg, ends, n, id, st.sock2sess[id], it);
    } else {
      assert AllPass(reg, ends, n, id, Cached(st, id));
    }
  }

  lemma OnAcceptedOk(reg: Registry, ends: seq<End>, n: nat, st: State<Item>, esi: Esi)
    requires RpcOk(reg, ends, n, st) && ServerEnd(ends, n, esi.id, esi)
    ensures RpcOk(reg, ends, n, OnAccepted(st, esi).0) && OutsOk(reg, ends, n, OnAccepted(st, esi).1)
  {
    AddSendsSock(reg, ends, n, esi.id, Sess(esi.id, Some(esi), [], []), Cached(st, esi.id));
  }

  lemma OnConnectedOk(reg: Registry, ends: seq<End>, n: nat, st: State<Item>, addr: Addr, esi: Esi)
    requires RpcOk(reg, ends, n, st) && ClientEnd(ends, n, addr, esi)
    ensures RpcOk(reg, ends, n, OnConnected(st, esi).0) && OutsOk(reg, ends, n, OnConnected(st, esi).1)
  {
    if addr in st.sa2sess {
      assert SaOk(reg, ends, n, addr, st.sa2sess[addr]);
    }
  }

  // ---------------------------------------------------------------- connections only accumulate

  lemma LinkedGrows(ends: seq<End>, e: End, base: Route, trail: seq<Visit>)
    requires Linked(ends, base, trail)
    ensures Linked(ends + [e], base, trail)
  {
    forall i | 0 < i < |trail|
      ensures Leg(ends + [e], trail[i - 1], trail[i])
    {
      assert Leg(ends, trail[i - 1], trail[i]);
      if trail[i].via.Some? {
        var c :| 0 <= c < |ends| && ends[c].server == trail[i].at.node && ends[c].serverId == trail[i].via.value &&
                 ends[c].client == trail[i - 1].at.node;
        assert (ends + [e])[c] == ends[c];
      }
    }
  }

  lemma AllSendGrows(reg: Registry, ends: seq<End>, e: End, n: nat, addr: Addr, items: seq<Item>)
    requires AllSend(reg, ends, n, addr, items)
    ensures AllSend(reg, ends + [e], n, addr, items)
  {
    forall i | 0 <= i < |items|
      ensures SendOk(reg, ends + [e], n, addr, items[i])
    {
      if items[i].history.Outward? {
        LinkedGrows(ends, e, items[i].history.base, items[i].history.trail);
      }
    }
  }

  lemma AllPassGrows(reg: Registry, ends: seq<End>, e: End, n: nat, id: int64, items: seq<Item>)
    requires AllPass(reg, ends, n, id, items)
    ensures AllPass(reg, ends + [e], n, id, items)
  {
    forall i | 0 <= i < |items|
      ensures PassOk(reg, ends + [e], n, id, items[i])
    {
      if items[i].history.Homeward? {
        LinkedGrows(ends, e, items[i].history.base, items[i].history.trail);
      }
    }
  }

  lemma RpcGrows(reg: Registry, ends: seq<End>, e: End, n: nat, st: State<Item>)
    requires RpcOk(reg, ends, n, st)
    ensures RpcOk(reg, ends + [e], n, st)
  {
    forall a | a in st.sa2sess
      ensures SaOk(reg, ends + [e], n, a, st.sa2sess[a])
    {
      AllSendGrows(reg, ends, e, n, a, st.sa2sess[a].outCache);
    }
    forall id | id in st.sock2sess
      ensures SockOk(reg, ends + [e], n, id, st.sock2sess[id])
    {
      AllPassGrows(reg, ends, e, n, id, st.sock2sess[id].outCache);
    }
    forall id | id in st.passCache
      ensures AllPass(reg, ends + [e], n, id, st.passCache[id])
    {
      AllPassGrows(reg, ends, e, n, id, st.passCache[id]);
    }
  }

  lemma SiteGrows(reg: Registry, ends: seq<End>, e: End, n: nat, s: Site)
    requires SiteOk(reg, ends, n, s)
    ensures SiteOk(reg, ends + [e], n, s)
  {
    RpcGrows(reg, ends, e, n, s.rpc);
    forall k | 0 <= k < |s.inbox|
      ensures DeliveryOk(ends + [e], n, s.inbox[k])
    {
      assert DeliveryOk(ends, n, s.inbox[k]);
      if !s.inbox[k].history.Untraced? {
        LinkedGrows(ends, e, s.inbox[k].history.base, s.inbox[k].history.trail);
      }
    }
  }

  lemma EstablishKeeps(reg: Registry, net: Net, s: Step)
    requires Inv(reg, net) && s.Establish? && Enabled(reg, net, s)
    ensures Inv(reg, Next(reg, net, s))
  {
    hide RpcOk, WireOk, DeliveryOk;
    var net' := Next(reg, net, s);
    var m := net.owner[s.addr];
    var e := End(s.n, s.socketId, s.addr, m, net.sites[m].gen + 1);
    assert net'.ends == net.ends + [e];
    forall n | 0 <= n < |net'.sites|
      ensures SiteOk(reg, net'.ends, n, net'.sites[n])
    {
      assert net'.sites[n].rpc == net.sites[n].rpc && net'.sites[n].inbox == net.sites[n].inbox;
      SiteGrows(reg, net.ends, e, n, net.sites[n]);
    }
    forall c | 0 <= c < |net'.ends|
      ensures WireOk(reg, net'.ends, net'.ends[c], net'.wires[c])
    {
      if c < |net.ends| {
        WireGrows(reg, net.ends, e, net.ends[c], net.wires[c]);
      } else {
        NewWireIsOk(reg, net'.ends, e);
      }
    }
  }

  lemma WireGrows(reg: Registry, ends: seq<End>, e: End, at: End, w: Wire)
    requires WireOk(reg, ends, at, w)
    ensures WireOk(reg, ends + [e], at, w)
  {
    AllSendGrows(reg, ends, e, at.client, at.addr, w.toServer);
    AllPassGrows(reg, ends, e, at.server, at.serverId, w.toClient);
  }

  lemma NewWireIsOk(reg: Registry, ends: seq<End>, e: End)
    ensures WireOk(reg, ends, e, Wire(true, false, [], []))
  {
  }

  // ---------------------------------------------------------------- sending, passing and reading

  /** A route ends in the hop of the last service its trail names. */
  lemma LastHop(base: Route, trail: seq<Visit>)
    requires trail != []
    ensures var r := RouteOf(base, trail);
            var v := trail[|trail| - 1];
            && r != [] && r[|r| - 1] == LocalService(v.at.service)
            && Popped(r) == RouteOf(base, trail[..|trail| - 1]) + if v.via.Some? then [RemoteAddr(v.via.value)] else []
  {
  }

  lemma RouteExtends(base: Route, trail: seq<Visit>, v: Visit)
    ensures RouteOf(base, trail + [v]) == RouteOf(base, trail) + HopsOf(v)
  {
    assert (trail + [v])[..|trail|] == trail;
  }

  /** Visits leave no listener hops. */
  lemma {:induction false} RouteIsListenerFree(base: Route, trail: seq<Visit>)
    ensures ListenerFree(RouteOf(base, trail)) <==> ListenerFree(base)
  {
    if trail != [] {
      RouteIsListenerFree(base, trail[..|trail| - 1]);
      var r := RouteOf(base, trail[..|trail| - 1]);
      assert RouteOf(base, trail)[..|r|] == r;
    }
  }

  lemma NextIdKeeps(reg: Registry, net: Net, n: nat)
    requires Inv(reg, net) && n < |net.sites| && net.sites[n].gen < MAX_ID
    ensures Inv(reg, NextId(net, n))
  {
  }

  lemma SendOutKeeps(reg: Registry, net: Net, n: nat, to: Option<Addr>, dst: int32, ev: Event, h: History)
    requires Inv(reg, net) && n < |net.sites| && net.sites[n].gen < MAX_ID && !h.Homeward?
    requires h.Outward? ==>
               Registered(reg, ev) && Linked(net.ends, h.base, h.trail) && h.trail[|h.trail| - 1].at.node == n &&
               ev.route == RouteOf(h.base, h.trail)
    ensures Inv(reg, SendOut(net, n, to, dst, ev, h))
  {
    match to
    case None =>
      var v := Visit(Station(n, dst), None);
      if h.Outward? {
        RouteExtends(h.base, h.trail, v);
      }
      GiveKeeps(reg, net, n, Delivery(dst, ev.(route := ev.route + [LocalService(dst)]), Extend(h, v)));
    case Some(addr) =>
      var it := Item(PackPacket(Send(dst, ev)), Send(dst, ev), ToAddr(n, addr), h);
      OnSendOk(reg, net.ends, n, net.sites[n].rpc, addr, it, net.sites[n].gen + 1);
      NextIdKeeps(reg, net, n);
      HandledKeeps(reg, if addr in net.sites[n].rpc.sa2sess then net else NextId(net, n), n,
                   OnSend(net.sites[n].rpc, addr, it, net.sites[n].gen + 1));
  }

  /** A reply about to be passed at node `n`, where its trail was last but |back|. */
  ghost predicate ToPass(reg: Registry, ends: seq<End>, n: nat, ev: Event, h: History)
  {
    h.Homeward? ==>
      && Linked(ends, h.base, h.trail) && BackOk(h.trail, h.back) && |h.back| + 1 < |h.trail|
      && var j := |h.trail| - 1 - |h.back|;
         && h.trail[j].at.node == n && Registered(reg, ev)
         && ev.route == Popped(RouteOf(h.base, h.trail[..j + 1]))
  }

  lemma PassBackKeeps(reg: Registry, net: Net, n: nat, ev: Event, h: History)
    requires Inv(reg, net) && n < |net.sites| && !h.Outward? && ToPass(reg, net.ends, n, ev, h)
    ensures Inv(reg, PassBack(net, n, ev, h))
  {
    hide Handled, OnPass, Give, Inv, ToPass, Leaving, DeliveryOk, PackPacket, Registered;
    if ev.route != [] {
      if h.Homeward? {
        HomewardHop(reg, net.ends, n, ev, h);
      }
      var last := ev.route[|ev.route| - 1];
      var popped := ev.(route := Popped(ev.route));
      if last.LocalService? {
        GiveKeeps(reg, net, n, Delivery(last.service, popped, Return(h, Station(n, last.service))));
      } else if last.RemoteAddr? {
        PassRemoteKeeps(reg, net, n, last.socket, Item(PackPacket(Pass(popped)), Pass(popped), ToSocket(n, last.socket), h));
      }
    }
  }

  lemma PassRemoteKeeps(reg: Registry, net: Net, n: nat, id: int64, it: Item)
    requires Inv(reg, net) && n < |net.sites| && PassOk(reg, net.ends, n, id, it)
    ensures Inv(reg, Handled(net, n, OnPass(net.sites[n].rpc, id, it)))
  {
    assert SiteOk(reg, net.ends, n, net.sites[n]);
    OnPassOk(reg, net.ends, n, net.sites[n].rpc, id, it);
    HandledKeeps(reg, net, n, OnPass(net.sites[n].rpc, id, it));
  }

  /** Its last hop is the way its request came: a service of this node, or the socket it came in on. */
  lemma HomewardHop(reg: Registry, ends: seq<End>, n: nat, ev: Event, h: History)
    requires h.Homeward? && ToPass(reg, ends, n, ev, h)
    ensures ev.route != []
    ensures var last := ev.route[|ev.route| - 1];
            var popped := ev.(route := Popped(ev.route));
            && Registered(reg, popped)
            && (last.LocalService? ==> DeliveryOk(ends, n, Delivery(last.service, popped, Return(h, Station(n, last.service)))))
            && (last.RemoteAddr? ==> Leaving(ends, n, last.socket, popped.route, h))
            && (last.LocalService? || last.RemoteAddr?)
  {
    var j := |h.trail| - 1 - |h.back|;
    HopBack(h.base, h.trail, j);
    assert Leg(ends, h.trail[j - 1], h.trail[j]);
    if h.trail[j].via.None? {
      HomewardArrives(ends, n, h, ev.(route := Popped(ev.route)));
    }
  }

  /** The route of a reply leaving visit `j`: a socket if the request came over one, then visit j - 1. */
  lemma HopBack(base: Route, trail: seq<Visit>, j: nat)
    requires 0 < j < |trail|
    ensures var r := Popped(RouteOf(base, trail[..j + 1]));
            var q := RouteOf(base, trail[..j]);
            && q != [] && q[|q| - 1] == LocalService(trail[j - 1].at.service)
            && if trail[j].via.None? then r == q
               else r != [] && r[|r| - 1] == RemoteAddr(trail[j].via.value) && Popped(r) == q
  {
    LastHop(base, trail[..j + 1]);
    assert trail[..j + 1][..j] == trail[..j];
    LastHop(base, trail[..j]);
  }

  lemma HomewardArrives(ends: seq<End>, n: nat, h: History, ev: Event)
    requires h.Homeward? && Linked(ends, h.base, h.trail) && BackOk(h.trail, h.back) && |h.back| + 1 < |h.trail|
    requires h.trail[|h.trail| - 2 - |h.back|].at.node == n
    requires ev.route == Popped(RouteOf(h.base, h.trail[..|h.trail| - 1 - |h.back|]))
    ensures var svc := h.trail[|h.trail| - 2 - |h.back|].at.service;
            DeliveryOk(ends, n, Delivery(svc, ev, Return(h, Station(n, svc))))
  {
  }

  lemma ServerReadsKeeps(reg: Registry, net: Net, c: nat)
    requires Inv(reg, net) && c < |net.ends| && net.wires[c].toServer != []
    ensures Inv(reg, ServerReadsNext(reg, net, c))
  {
    var w := net.wires[c];
    var it := w.toServer[0];
    assert WireOk(reg, net.ends, net.ends[c], w);
    WireReplaced(reg, net, c, w.(toServer := w.toServer[1..]));
    WireReplaced(reg, net, c, w.(toServer := w.toServer[1..], open := false));
    match OnPacketOnAcceptor(reg, ServerEsi(net, c), it.bytes)
    case Deliver(svc, ev) =>
      RequestArrives(reg, net, c, it);
      GiveKeeps(reg, net.(wires := net.wires[c := w.(toServer := w.toServer[1..])]), net.ends[c].server,
                Delivery(svc, ev, Extend(it.history, Visit(Station(net.ends[c].server, svc), Some(net.ends[c].serverId)))));
    case _ =>
  }

  lemma RequestArrives(reg: Registry, net: Net, c: nat, it: Item)
    requires c < |net.ends| && SendOk(reg, net.ends, net.ends[c].client, net.ends[c].addr, it)
    requires OnPacketOnAcceptor(reg, ServerEsi(net, c), it.bytes).Deliver?
    ensures var e := net.ends[c];
            var r := OnPacketOnAcceptor(reg, ServerEsi(net, c), it.bytes);
            DeliveryOk(net.ends, e.server,
                       Delivery(r.service, r.ev, Extend(it.history, Visit(Station(e.server, r.service), Some(e.serverId)))))
  {
    if it.history.Outward? {
      var e := net.ends[c];
      var r := OnPacketOnAcceptor(reg, ServerEsi(net, c), it.bytes);
      UnpackPackPacket(reg, it.packet);
      RouteIsListenerFree(it.history.base, it.history.trail);
      RouteExtends(it.history.base, it.history.trail, Visit(Station(e.server, r.service), Some(e.serverId)));
      assert CameFrom(net.ends, e.server, e.serverId, e.client);
    }
  }

  lemma ClientReadsKeeps(reg: Registry, net: Net, c: nat)
    requires Inv(reg, net) && c < |net.ends| && net.wires[c].toClient != []
    ensures Inv(reg, ClientReadsNext(reg, net, c))
  {
    var w := net.wires[c];
    var it := w.toClient[0];
    assert WireOk(reg, net.ends, net.ends[c], w);
    WireReplaced(reg, net, c, w.(toClient := w.toClient[1..]));
    WireReplaced(reg, net, c, w.(toClient := w.toClient[1..], open := false));
    match OnPacketOnConnector(reg, ClientEsi(net, c), it.bytes)
    case Deliver(svc, ev) =>
      ReplyArrives(reg, net, c, it);
      GiveKeeps(reg, net.(wires := net.wires[c := w.(toClient := w.toClient[1..])]), net.ends[c].client,
                Delivery(svc, ev, Return(it.history, Station(net.ends[c].client, svc))));
    case _ =>
  }

  lemma ReplyArrives(reg: Registry, net: Net, c: nat, it: Item)
    requires EndsOk(net) && c < |net.ends| && PassOk(reg, net.ends, net.ends[c].server, net.ends[c].serverId, it)
    requires OnPacketOnConnector(reg, ClientEsi(net, c), it.bytes).Deliver?
    ensures var r := OnPacketOnConnector(reg, ClientEsi(net, c), it.bytes);
            DeliveryOk(net.ends, net.ends[c].client,
                       Delivery(r.service, r.ev, Return(it.history, Station(net.ends[c].client, r.service))))
  {
    var h := it.history;
    if h.Homeward? {
      var j := |h.trail| - 1 - |h.back|;
      UnpackPackPacket(reg, it.packet);
      OnlyOneConnection(net, c, h);
      LastHop(h.base, h.trail[..j]);
      HomewardArrives(net.ends, net.ends[c].client, h, it.packet.ev.(route := Popped(it.packet.ev.route)));
    }
  }

  /** Ids are not reused, so the socket a request came in on leads back to the node it came from. */
  lemma OnlyOneConnection(net: Net, c: nat, h: History)
    requires EndsOk(net) && c < |net.ends| && h.Homeward? && Linked(net.ends, h.base, h.trail) && |h.back| + 1 < |h.trail|
    requires var v := h.trail[|h.trail| - 1 - |h.back|];
             v.at.node == net.ends[c].server && v.via == Some(net.ends[c].serverId)
    ensures h.trail[|h.trail| - 2 - |h.back|].at.node == net.ends[c].client
  {
    var j := |h.trail| - 1 - |h.back|;
    assert Leg(net.ends, h.trail[j - 1], h.trail[j]);
  }

  lemma OriginateKeeps(reg: Registry, net: Net, s: Step)
    requires Inv(reg, net) && Enabled(reg, net, s) && s.Originate?
    ensures Inv(reg, Next(reg, net, s))
  {
    hide PassBack, SendOut;
    var trail := [Visit(Station(s.n, s.service), None)];
    assert trail[..0] == [];
    SendOutKeeps(reg, net, s.n, s.to, s.dst, Opening(s), Outward(trail, s.base));
  }

  lemma ForwardKeeps(reg: Registry, net: Net, s: Step)
    requires Inv(reg, net) && Enabled(reg, net, s) && s.Forward?
    ensures Inv(reg, Next(reg, net, s))
  {
    hide PassBack, SendOut;
    var d := net.sites[s.n].inbox[s.k];
    assert SiteOk(reg, net.ends, s.n, net.sites[s.n]) && DeliveryOk(net.ends, s.n, d);
    SendOutKeeps(reg, net, s.n, s.to, s.dst, Event(s.id, d.ev.route, s.body), d.history);
  }

  /** A service may answer a request it has received. */
  lemma AnswerIsDue(reg: Registry, net: Net, s: Step)
    requires Inv(reg, net) && Enabled(reg, net, s) && s.Answer?
    ensures var d := net.sites[s.n].inbox[s.k];
            ToPass(reg, net.ends, s.n, Event(s.id, Popped(d.ev.route), s.body), StillHomeward(Homeward(d.history.trail, d.history.base, [])))
  {
    hide RouteOf, Linked;
    var d := net.sites[s.n].inbox[s.k];
    assert SiteOk(reg, net.ends, s.n, net.sites[s.n]) && DeliveryOk(net.ends, s.n, d);
    var t := d.history.trail;
    assert t[..|t|] == t;
  }

  lemma AnswerKeeps(reg: Registry, net: Net, s: Step)
    requires Inv(reg, net) && Enabled(reg, net, s) && s.Answer?
    ensures Inv(reg, Next(reg, net, s))
  {
    hide PassBack, SendOut, Inv, ToPass;
    var d := net.sites[s.n].inbox[s.k];
    AnswerIsDue(reg, net, s);
    PassBackKeeps(reg, net, s.n, Event(s.id, Popped(d.ev.route), s.body), StillHomeward(Homeward(d.history.trail, d.history.base, [])));
  }

  /** A service may hand on a reply it has received. */
  lemma HandBackIsDue(reg: Registry, net: Net, s: Step)
    requires Inv(reg, net) && Enabled(reg, net, s) && s.HandBack?
    ensures var d := net.sites[s.n].inbox[s.k];
            ToPass(reg, net.ends, s.n, Event(s.id, d.ev.route, s.body), StillHomeward(d.history))
  {
    hide RouteOf, Linked;
    var d := net.sites[s.n].inbox[s.k];
    assert SiteOk(reg, net.ends, s.n, net.sites[s.n]) && DeliveryOk(net.ends, s.n, d);
  }

  lemma HandBackKeeps(reg: Registry, net: Net, s: Step)
    requires Inv(reg, net) && Enabled(reg, net, s) && s.HandBack?
    ensures Inv(reg, Next(reg, net, s))
  {
    hide PassBack, SendOut, Inv, ToPass;
    var d := net.sites[s.n].inbox[s.k];
    HandBackIsDue(reg, net, s);
    PassBackKeeps(reg, net, s.n, Event(s.id, d.ev.route, s.body), StillHomeward(d.history));
  }

  lemma StepKeeps(reg: Registry, net: Net, s: Step)
    requires Inv(reg, net) && Enabled(reg, net, s)
    ensures Inv(reg, Next(reg, net, s))
  {
    hide PassBack, SendOut, Handled, ServerReadsNext, ClientReadsNext, Inv;
    match s
    case OtherSend(n, to, dst, ev) => SendOutKeeps(reg, net, n, to, dst, ev, Untraced);
    case OtherPass(n, ev) => PassBackKeeps(reg, net, n, ev, Untraced);
    case Establish(_, _, _) => EstablishKeeps(reg, net, s);
    case ServerReads(c) => ServerReadsKeeps(reg, net, c);
    case ClientReads(c) => ClientReadsKeeps(reg, net, c);
    case ConnectFails(n, id, addr) => ConnectFailsKeeps(reg, net, n, id, addr);
    case Announce(c) => AnnounceKeeps(reg, net, c);
    case ClientUp(c) => ClientUpKeeps(reg, net, c);
    case Cut(_, _, _) => CutKeeps(reg, net, s);
    case ClientGone(_) => GoneKeeps(reg, net, s);
    case ServerGone(_) => GoneKeeps(reg, net, s);
    case Originate(_, _, _, _, _, _, _) => OriginateKeeps(reg, net, s);
    case Forward(_, _, _, _, _, _) => ForwardKeeps(reg, net, s);
    case Answer(_, _, _, _) => AnswerKeeps(reg, net, s);
    case HandBack(_, _, _, _) => HandBackKeeps(reg, net, s);
  }

  lemma AnnounceKeeps(reg: Registry, net: Net, c: nat)
    requires Inv(reg, net) && Enabled(reg, net, Announce(c))
    ensures Inv(reg, Next(reg, net, Announce(c)))
  {
    var e := net.ends[c];
    assert WireOk(reg, net.ends, e, net.wires[c]);
    WireReplaced(reg, net, c, net.wires[c].(announced := true));
    OnAcceptedOk(reg, net.ends, e.server, net.sites[e.server].rpc, ServerEsi(net, c));
    HandledKeeps(reg, net.(wires := net.wires[c := net.wires[c].(announced := true)]), e.server,
                 OnAccepted(net.sites[e.server].rpc, ServerEsi(net, c)));
  }

  lemma ClientUpKeeps(reg: Registry, net: Net, c: nat)
    requires Inv(reg, net) && Enabled(reg, net, ClientUp(c))
    ensures Inv(reg, Next(reg, net, ClientUp(c)))
  {
    var e := net.ends[c];
    OnConnectedOk(reg, net.ends, e.client, net.sites[e.client].rpc, e.addr, ClientEsi(net, c));
    HandledKeeps(reg, net, e.client, OnConnected(net.sites[e.client].rpc, ClientEsi(net, c)));
  }

  lemma ConnectFailsKeeps(reg: Registry, net: Net, n: nat, id: int64, addr: Addr)
    requires Inv(reg, net) && Enabled(reg, net, ConnectFails(n, id, addr))
    ensures Inv(reg, Next(reg, net, ConnectFails(n, id, addr)))
  {
    var net1 := net.(sites := net.sites[n := net.sites[n].(connecting := net.sites[n].connecting - {(id, addr)})]);
    assert Inv(reg, net1);
    HandledKeeps(reg, net1, n, (OnGone(net.sites[n].rpc, Esi(id, Some(addr), 0)), []));
  }

  lemma CutKeeps(reg: Registry, net: Net, s: Step)
    requires Inv(reg, net) && Enabled(reg, net, s) && s.Cut?
    ensures Inv(reg, Next(reg, net, s))
  {
    var w := net.wires[s.c];
    assert WireOk(reg, net.ends, net.ends[s.c], w);
    WireReplaced(reg, net, s.c, w.(open := false, toServer := w.toServer[..s.keepToServer], toClient := w.toClient[..s.keepToClient]));
  }

  lemma GoneKeeps(reg: Registry, net: Net, s: Step)
    requires Inv(reg, net) && Enabled(reg, net, s) && (s.ClientGone? || s.ServerGone?)
    ensures Inv(reg, Next(reg, net, s))
  {
    var e := net.ends[s.c];
    if s.ClientGone? {
      HandledKeeps(reg, net, e.client, (OnGone(net.sites[e.client].rpc, ClientEsi(net, s.c)), []));
    } else {
      HandledKeeps(reg, net, e.server, (OnDisaccepted(net.sites[e.server].rpc, ServerEsi(net, s.c)), []));
    }
  }

  // ---------------------------------------------------------------- runs

  /** A run: the states of the network and the steps between them. */
  datatype Behaviour = Behaviour(states: seq<Net>, steps: seq<Step>)

  ghost predicate StepAt(reg: Registry, b: Behaviour, i: nat)
    requires i < |b.steps| && |b.states| == |b.steps| + 1
  {
    Enabled(reg, b.states[i], b.steps[i]) && b.states[i + 1] == Next(reg, b.states[i], b.steps[i])
  }

  ghost predicate IsRun(reg: Registry, b: Behaviour)
  {
    && |b.states| == |b.steps| + 1
    && forall i: nat {:trigger StepAt(reg, b, i)} :: i < |b.steps| ==> StepAt(reg, b, i)
  }

  /** Nodes with nothing in their tables and no connection between them. */
  ghost predicate Start(net: Net)
  {
    && net.ends == [] && net.wires == []
    && forall n :: 0 <= n < |net.sites| ==> net.sites[n] == Site(State(map[], map[], map[]), 0, {}, [], net.sites[n].limit)
  }

  lemma {:induction false} RunKeeps(reg: Registry, b: Behaviour, t: nat)
    requires IsRun(reg, b) && Inv(reg, b.states[0]) && t < |b.states|
    ensures Inv(reg, b.states[t])
  {
    if t > 0 {
      RunKeeps(reg, b, t - 1);
      assert StepAt(reg, b, t - 1);
      StepKeeps(reg, b.states[t - 1], b.steps[t - 1]);
    }
  }

  /** The state of a run from the start, at any time. */
  ghost predicate Reached(reg: Registry, b: Behaviour, t: nat)
  {
    IsRun(reg, b) && Start(b.states[0]) && t < |b.states|
  }

  lemma ReachedIsOk(reg: Registry, b: Behaviour, t: nat)
    requires Reached(reg, b, t)
    ensures Inv(reg, b.states[t])
  {
    RunKeeps(reg, b, t);
  }

  // ---------------------------------------------------------------- results

  /** The stations of a trail, the last one left out, last first. */
  function WayBack(trail: seq<Visit>): seq<Station>
  {
    if |trail| <= 1 then [] else [trail[|trail| - 2].at] + WayBack(trail[..|trail| - 1])
  }

  lemma {:induction false} WayBackAt(trail: seq<Visit>, k: nat)
    requires k + 1 < |trail|
    ensures |WayBack(trail)| == |trail| - 1 && WayBack(trail)[k] == trail[|trail| - 2 - k].at
  {
    if |trail| > 2 {
      WayBackAt(trail[..|trail| - 1], if k == 0 then 0 else k - 1);
    }
  }

  lemma BackIsWayBack(trail: seq<Visit>, back: seq<Station>)
    requires BackOk(trail, back)
    ensures back <= WayBack(trail)
  {
    if |trail| > 1 {
      WayBackAt(trail, 0);
      forall k | 0 <= k < |back|
        ensures back[k] == WayBack(trail)[k]
      {
        WayBackAt(trail, k);
      }
    }
  }

  /**
   At any time of any run, however connections break and come back: a reply is only ever delivered
   to the services its request passed, in the exact reverse order, starting next to the one that
   answered; and where it has been to all of them, it is at the origin, with the origin's own route
   restored.
   */
  lemma RepliesRetraceTheirPath(reg: Registry, b: Behaviour, t: nat, n: nat, k: nat)
    requires Reached(reg, b, t)
    requires n < |b.states[t].sites| && k < |b.states[t].sites[n].inbox| && b.states[t].sites[n].inbox[k].history.Homeward?
    ensures var d := b.states[t].sites[n].inbox[k];
            var h := d.history;
            && h.back != [] && h.back <= WayBack(h.trail)
            && h.back[|h.back| - 1] == Station(n, d.service)
            && (|h.back| == |h.trail| - 1 ==> h.trail[0].at == Station(n, d.service) && d.ev.route == h.base)
  {
    ReachedIsOk(reg, b, t);
    var net := b.states[t];
    var d := net.sites[n].inbox[k];
    assert SiteOk(reg, net.ends, n, net.sites[n]) && DeliveryOk(net.ends, n, d);
    var h := d.history;
    BackIsWayBack(h.trail, h.back);
    if |h.back| == |h.trail| - 1 {
      LastHop(h.base, h.trail[..1]);
      assert h.trail[..1][..0] == [];
    }
  }

  /**
   A packet passed to socket `id` of a node waits in the cache of that id, or travels on the one
   connection that the node accepted under that id; it is never on another.
   */
  lemma RepliesStayOnTheirConnection(reg: Registry, b: Behaviour, t: nat, c: nat, i: nat, d: nat)
    requires Reached(reg, b, t)
    requires c < |b.states[t].ends| && d < |b.states[t].ends| && c < |b.states[t].wires| && i < |b.states[t].wires[c].toClient|
    ensures var net := b.states[t];
            && net.wires[c].toClient[i].target == ToSocket(net.ends[c].server, net.ends[c].serverId)
            && (net.wires[c].toClient[i].target == ToSocket(net.ends[d].server, net.ends[d].serverId) ==> c == d)
  {
    ReachedIsOk(reg, b, t);
    var net := b.states[t];
    assert WireOk(reg, net.ends, net.ends[c], net.wires[c]);
    assert PassOk(reg, net.ends, net.ends[c].server, net.ends[c].serverId, net.wires[c].toClient[i]);
  }

  lemma CachedRepliesWait(reg: Registry, b: Behaviour, t: nat, n: nat, id: int64, i: nat)
    requires Reached(reg, b, t)
    requires n < |b.states[t].sites| && i < |Cached(b.states[t].sites[n].rpc, id)|
    ensures Cached(b.states[t].sites[n].rpc, id)[i].target == ToSocket(n, id)
  {
    ReachedIsOk(reg, b, t);
    var net := b.states[t];
    assert SiteOk(reg, net.ends, n, net.sites[n]);
    assert AllPass(reg, net.ends, n, id, Cached(net.sites[n].rpc, id));
  }

  /** Requests travel to the node that owns the address they were sent to, and to no other. */
  lemma RequestsReachTheirAddress(reg: Registry, b: Behaviour, t: nat, c: nat, i: nat)
    requires Reached(reg, b, t)
    requires c < |b.states[t].ends| && c < |b.states[t].wires| && i < |b.states[t].wires[c].toServer|
    ensures var net := b.states[t];
            var to := net.wires[c].toServer[i].target;
            to == ToAddr(net.ends[c].client, net.ends[c].addr) &&
            to.addr in net.owner && net.owner[to.addr] == net.ends[c].server
  {
    ReachedIsOk(reg, b, t);
    var net := b.states[t];
    assert WireOk(reg, net.ends, net.ends[c], net.wires[c]);
    assert SendOk(reg, net.ends, net.ends[c].client, net.ends[c].addr, net.wires[c].toServer[i]);
  }

  /** The number a buffer starts with. */
  function Direction(s: Bytes): Option<nat>
  {
    match Unpack(s)
    case None => None
    case Some((d, _)) => Some(d)
  }

  lemma PacketDirection(p: Packet)
    ensures Direction(PackPacket(p)) == Some(if p.Send? then DIRECTION_SEND else DIRECTION_PASS)
  {
    if p.Pass? {
      UnpackPack(DIRECTION_PASS, PackEvent(p.ev));
    } else {
      SendHeader(p);
    }
  }

  /** An accepted socket only ever receives 's' packets, a connecting socket only 'p' packets. */
  lemma DirectionsAreFixed(reg: Registry, b: Behaviour, t: nat, c: nat, i: nat)
    requires Reached(reg, b, t)
    requires c < |b.states[t].ends| && c < |b.states[t].wires|
    ensures var w := b.states[t].wires[c];
            && (i < |w.toServer| ==> Direction(w.toServer[i].bytes) == Some(DIRECTION_SEND))
            && (i < |w.toClient| ==> Direction(w.toClient[i].bytes) == Some(DIRECTION_PASS))
  {
    ReachedIsOk(reg, b, t);
    var net := b.states[t];
    var w, e := net.wires[c], net.ends[c];
    assert WireOk(reg, net.ends, e, w);
    if i < |w.toServer| {
      assert SendOk(reg, net.ends, e.client, e.addr, w.toServer[i]);
      PacketDirection(w.toServer[i].packet);
    }
    if i < |w.toClient| {
      assert PassOk(reg, net.ends, e.server, e.serverId, w.toClient[i]);
      PacketDirection(w.toClient[i].packet);
    }
  }
}
