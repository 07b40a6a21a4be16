/**
 Any number of nodes running RPC::Service, joined by connections that come up, carry packets both
 ways and break, in any order. Every event carries a history that no handler looks at: where its
 request has been, and where its reply has been. The histories only record; what they must satisfy
 is proved.
 */
module RpcNet {
  import opened Prelude
  import opened TypedCodec
  import opened Routes
  import opened Dispatch
  import opened EventCodec
  import opened Rpc

  // ---------------------------------------------------------------- histories

  datatype Station = Station(node: nat, service: int32)

  /** A request reached a service, over the accepted socket `via` or from the same node. */
  datatype Visit = Visit(at: Station, via: Option<int64>)

  /** Untraced, a request with the services it was at, or a reply with the ones it came back to. */
  datatype History =
    | Untraced
    | Outward(trail: seq<Visit>, base: Route)
    | Homeward(trail: seq<Visit>, base: Route, back: seq<Station>)

  function Extend(h: History, v: Visit): History
  {
    if h.Outward? then Outward(h.trail + [v], h.base) else Untraced
  }

  function Return(h: History, at: Station): History
  {
    if h.Homeward? then h.(back := h.back + [at]) else Untraced
  }

  // ---------------------------------------------------------------- the network

  /** Where a packet was meant to go when RPC was given it. */
  datatype Goal = ToAddr(node: nat, addr: Addr) | ToSocket(node: nat, socket: int64)

  datatype Item = Item(bytes: Bytes, packet: Packet, target: Goal, history: History)

  datatype Delivery = Delivery(service: int32, ev: Event, history: History)

  /** The two ends of a connection; they never change. */
  datatype End = End(client: nat, clientId: int64, addr: Addr, server: nat, serverId: int64)

  /** What moves on it; `announced` once on_Accepted has run. */
  datatype Wire = Wire(open: bool, announced: bool, toServer: seq<Item>, toClient: seq<Item>)

  /** A node; `limit` is the maxPacketSize of its Oscar service. */
  datatype Site =
    Site(rpc: State<Item>, gen: int64, connecting: set<(int64, Addr)>, inbox: seq<Delivery>, limit: nat)

  datatype Net = Net(owner: map<Addr, nat>, sites: seq<Site>, ends: seq<End>, wires: seq<Wire>)

  /** Bytes written to an open socket end up on its connection, in the direction of its other end. */
  function Write(w: Wire, esi: Esi, it: Item): Wire
  {
    if !w.open then w
    else if esi.request.Some? then w.(toServer := w.toServer + [it])
    else w.(toClient := w.toClient + [it])
  }

  function Emit(net: Net, n: nat, outs: seq<Output<Item>>): Net
    requires n < |net.sites|
    decreases outs
  {
    if outs == [] then net
    else
      match outs[0]
      case SendTo(_, esi, it) =>
        Emit(if esi.fd < |net.wires| then net.(wires := net.wires[esi.fd := Write(net.wires[esi.fd], esi, it)]) else net,
             n, outs[1..])
      case ConnectTo(id, addr) =>
        Emit(net.(sites := net.sites[n := net.sites[n].(connecting := net.sites[n].connecting + {(id, addr)})]),
             n, outs[1..])
  }

  /** A handler ran at node `n`. */
  function Handled(net: Net, n: nat, r: (State<Item>, seq<Output<Item>>)): Net
    requires n < |net.sites|
  {
    Emit(net.(sites := net.sites[n := net.sites[n].(rpc := r.0)]), n, r.1)
  }

  function Give(net: Net, n: nat, d: Delivery): Net
    requires n < |net.sites|
  {
    net.(sites := net.sites[n := net.sites[n].(inbox := net.sites[n].inbox + [d])])
  }

  function NextId(net: Net, n: nat): Net
    requires n < |net.sites| && net.sites[n].gen < MAX_ID
  {
    net.(sites := net.sites[n := net.sites[n].(gen := net.sites[n].gen + 1)])
  }

  /** sendEvent, to a service of this node or of the node at an address. */
  function SendOut(net: Net, n: nat, to: Option<Addr>, dst: int32, ev: Event, h: History): Net
    requires n < |net.sites| && net.sites[n].gen < MAX_ID
  {
    match to
    case None => Give(net, n, Delivery(dst, ev.(route := ev.route + [LocalService(dst)]), Extend(h, Visit(Station(n, dst), None))))
    case Some(addr) =>
      var it := Item(PackPacket(Send(dst, ev)), Send(dst, ev), ToAddr(n, addr), h);
      Handled(if addr in net.sites[n].rpc.sa2sess then net else NextId(net, n), n,
              OnSend(net.sites[n].rpc, addr, it, net.sites[n].gen + 1))
  }

  /** passEvent: the last hop says where the event goes next. */
  function PassBack(net: Net, n: nat, ev: Event, h: History): Net
    requires n < |net.sites|
  {
    var (to, rest) := PassTo(ev.route);
    var popped := ev.(route := rest);
    match to
    case ToService(s) => Give(net, n, Delivery(s, popped, Return(h, Station(n, s))))
    case ToRpc(id) =>
      Handled(net, n, OnPass(net.sites[n].rpc, id, Item(PackPacket(Pass(popped)), Pass(popped), ToSocket(n, id), h)))
    case _ => net
  }

  // ---------------------------------------------------------------- steps

  datatype Step =
    | Originate(n: nat, service: int32, to: Option<Addr>, dst: int32, base: Route, id: int32, body: seq<Value>)
    | Forward(n: nat, k: nat, to: Option<Addr>, dst: int32, id: int32, body: seq<Value>)
    | Answer(n: nat, k: nat, id: int32, body: seq<Value>)
    | HandBack(n: nat, k: nat, id: int32, body: seq<Value>)
    | OtherSend(n: nat, to: Option<Addr>, dst: int32, ev: Event)
    | OtherPass(n: nat, ev: Event)
    | Establish(n: nat, socketId: int64, addr: Addr)
    | ConnectFails(n: nat, socketId: int64, addr: Addr)
    | Announce(c: nat)
    | ClientUp(c: nat)
    | ServerReads(c: nat)
    | ClientReads(c: nat)
    | Cut(c: nat, keepToServer: nat, keepToClient: nat)
    | ClientGone(c: nat)
    | ServerGone(c: nat)

  /** A request with the route its sender names itself by: the service, on top of whatever it had. */
  function Opening(s: Step): Event
    requires s.Originate?
  {
    Event(s.id, s.base + [LocalService(s.service)], s.body)
  }

  predicate Enabled(reg: Registry, net: Net, s: Step)
  {
    match s
    case Originate(n, _, _, _, _, _, _) => n < |net.sites| && net.sites[n].gen < MAX_ID && Registered(reg, Opening(s))
    case Forward(n, k, _, _, id, body) =>
      n < |net.sites| && net.sites[n].gen < MAX_ID && k < |net.sites[n].inbox| &&
      net.sites[n].inbox[k].history.Outward? && Registered(reg, Event(id, net.sites[n].inbox[k].ev.route, body))
    case Answer(n, k, id, body) =>
      n < |net.sites| && k < |net.sites[n].inbox| && net.sites[n].inbox[k].history.Outward? &&
      Registered(reg, Event(id, net.sites[n].inbox[k].ev.route, body))
    case HandBack(n, k, id, body) =>
      n < |net.sites| && k < |net.sites[n].inbox| && net.sites[n].inbox[k].history.Homeward? &&
      Registered(reg, Event(id, net.sites[n].inbox[k].ev.route, body))
    case OtherSend(n, _, _, _) => n < |net.sites| && net.sites[n].gen < MAX_ID
    case OtherPass(n, _) => n < |net.sites|
    case Establish(n, id, addr) =>
      n < |net.sites| && (id, addr) in net.sites[n].connecting && addr in net.owner &&
      net.owner[addr] < |net.sites| && net.sites[net.owner[addr]].gen < MAX_ID
    case ConnectFails(n, id, addr) => n < |net.sites| && (id, addr) in net.sites[n].connecting
    case Announce(c) => OnWire(net, c) && !net.wires[c].announced
    case ClientUp(c) => OnWire(net, c)
    case ServerReads(c) => OnWire(net, c) && Passes(net.sites[net.ends[c].server], net.wires[c].toServer)
    case ClientReads(c) => OnWire(net, c) && Passes(net.sites[net.ends[c].client], net.wires[c].toClient)
    case Cut(c, i, j) => OnWire(net, c) && i <= |net.wires[c].toServer| && j <= |net.wires[c].toClient|
    case ClientGone(c) => OnWire(net, c)
    case ServerGone(c) => OnWire(net, c)
  }

  /** The frame in front is passed on if it is not too long; if it is, it stays and so does all behind it. */
  predicate Passes(s: Site, items: seq<Item>)
  {
    items != [] && |items[0].bytes| <= s.limit
  }

  predicate OnWire(net: Net, c: nat)
  {
    c < |net.ends| && c < |net.wires| && net.ends[c].client < |net.sites| && net.ends[c].server < |net.sites|
  }

  function ServerEsi(net: Net, c: nat): Esi
    requires c < |net.ends|
  {
    Esi(net.ends[c].serverId, None, c)
  }

  function ClientEsi(net: Net, c: nat): Esi
    requires c < |net.ends|
  {
    Esi(net.ends[c].clientId, Some(net.ends[c].addr), c)
  }

  /** A reply of which nothing is left to retrace is no longer followed. */
  function StillHomeward(h: History): History
  {
    if h.Homeward? && |h.back| + 1 < |h.trail| then h else Untraced
  }

  function Next(reg: Registry, net: Net, s: Step): Net
    requires Enabled(reg, net, s)
  {
    match s
    case Originate(n, svc, to, dst, base, id, body) =>
      SendOut(net, n, to, dst, Opening(s), Outward([Visit(Station(n, svc), None)], base))
    case Forward(n, k, to, dst, id, body) =>
      var d := net.sites[n].inbox[k];
      SendOut(net, n, to, dst, Event(id, d.ev.route, body), d.history)
    case Answer(n, k, id, body) =>
      var d := net.sites[n].inbox[k];
      if d.ev.route == [] then net
      else PassBack(net, n, Event(id, d.ev.route[..|d.ev.route| - 1], body),
                     StillHomeward(Homeward(d.history.trail, d.history.base, [])))
    case HandBack(n, k, id, body) =>
      var d := net.sites[n].inbox[k];
      PassBack(net, n, Event(id, d.ev.route, body), StillHomeward(d.history))
    case OtherSend(n, to, dst, ev) => SendOut(net, n, to, dst, ev, Untraced)
    case OtherPass(n, ev) => PassBack(net, n, ev, Untraced)
    case Establish(n, id, addr) =>
      var m := net.owner[addr];
      var net1 := NextId(net, m);
      net1.(sites := net1.sites[n := net1.sites[n].(connecting := net1.sites[n].connecting - {(id, addr)})],
            ends := net.ends + [End(n, id, addr, m, net.sites[m].gen + 1)],
            wires := net.wires + [Wire(true, false, [], [])])
    case ConnectFails(n, id, addr) =>
      var net1 := net.(sites := net.sites[n := net.sites[n].(connecting := net.sites[n].connecting - {(id, addr)})]);
      Handled(net1, n, (OnGone(net.sites[n].rpc, Esi(id, Some(addr), 0)), []))
    case Announce(c) =>
      Handled(net.(wires := net.wires[c := net.wires[c].(announced := true)]), net.ends[c].server,
              OnAccepted(net.sites[net.ends[c].server].rpc, ServerEsi(net, c)))
    case ClientUp(c) =>
      Handled(net, net.ends[c].client, OnConnected(net.sites[net.ends[c].client].rpc, ClientEsi(net, c)))
    case ServerReads(c) => ServerReadsNext(reg, net, c)
    case ClientReads(c) => ClientReadsNext(reg, net, c)
    case Cut(c, i, j) =>
      net.(wires := net.wires[c := net.wires[c].(open := false, toServer := net.wires[c].toServer[..i],
                                                 toClient := net.wires[c].toClient[..j])])
    case ClientGone(c) =>
      Handled(net, net.ends[c].client, (OnGone(net.sites[net.ends[c].client].rpc, ClientEsi(net, c)), []))
    case ServerGone(c) =>
      Handled(net, net.ends[c].server, (OnDisaccepted(net.sites[net.ends[c].server].rpc, ServerEsi(net, c)), []))
  }

  function ServerReadsNext(reg: Registry, net: Net, c: nat): Net
    requires OnWire(net, c) && net.wires[c].toServer != []
  {
    var w := net.wires[c];
    var it := w.toServer[0];
    var net1 := net.(wires := net.wires[c := w.(toServer := w.toServer[1..])]);
    match OnPacketOnAcceptor(reg, ServerEsi(net, c), it.bytes)
    case Ignored => net1
    case CloseSocket => net.(wires := net.wires[c := w.(toServer := w.toServer[1..], open := false)])
    case Deliver(svc, ev) =>
      var at := Station(net.ends[c].server, svc);
      Give(net1, at.node, Delivery(svc, ev, Extend(it.history, Visit(at, Some(net.ends[c].serverId)))))
  }

  function ClientReadsNext(reg: Registry, net: Net, c: nat): Net
    requires OnWire(net, c) && net.wires[c].toClient != []
  {
    var w := net.wires[c];
    var it := w.toClient[0];
    var net1 := net.(wires := net.wires[c := w.(toClient := w.toClient[1..])]);
    match OnPacketOnConnector(reg, ClientEsi(net, c), it.bytes)
    case Ignored => net1
    case CloseSocket => net.(wires := net.wires[c := w.(toClient := w.toClient[1..], open := false)])
    case Deliver(svc, ev) =>
      var at := Station(net.ends[c].client, svc);
      Give(net1, at.node, Delivery(svc, ev, Return(it.history, at)))
  }
}
