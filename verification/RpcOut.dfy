/** From a network at its start: a request carried out along a chain of nodes of any length, and its answer home. */
module RpcOut {
  import opened Prelude
  import opened TypedCodec
  import opened Routes
  import opened EventCodec
  import opened Rpc
  import opened RpcNet
  import opened RpcRetrace
  import opened RpcFits
  import opened RpcHome

  // ---------------------------------------------------------------- one hop out

  /** Node `n` may send to `addr`, which no one has connected to yet: node `m` is there. */
  ghost predicate Free(net: Net, n: nat, addr: Addr, m: nat)
  {
    && n < |net.sites| && m < |net.sites| && n != m && |net.wires| == |net.ends|
    && addr in net.owner && net.owner[addr] == m && addr !in net.sites[n].rpc.sa2sess
    && net.sites[n].gen < MAX_ID && net.sites[m].gen < MAX_ID
    && net.sites[m].gen + 1 !in net.sites[m].rpc.sock2sess && net.sites[m].gen + 1 !in net.sites[m].rpc.passCache
  }

  /** The connection that is made. */
  function NewEnd(net: Net, n: nat, addr: Addr, m: nat): End
    requires n < |net.sites| && m < |net.sites| && net.sites[n].gen < MAX_ID && net.sites[m].gen < MAX_ID
  {
    End(n, net.sites[n].gen + 1, addr, m, net.sites[m].gen + 1)
  }

  function Request(n: nat, addr: Addr, dst: int32, ev: Event, h: History): Item
  {
    Item(PackPacket(Send(dst, ev)), Send(dst, ev), ToAddr(n, addr), h)
  }

  /** The session at the client, waiting or up. */
  function Waiting(net: Net, n: nat, it: Item): Sess<Item>
    requires n < |net.sites| && net.sites[n].gen < MAX_ID
  {
    Sess(net.sites[n].gen + 1, None, [it], [it])
  }

  /** Sent: the packet waits for a connection that is asked for. */
  function Sent(net: Net, n: nat, addr: Addr, it: Item): Net
    requires n < |net.sites| && net.sites[n].gen < MAX_ID
  {
    var s := net.sites[n];
    net.(sites := net.sites[n := s.(rpc := s.rpc.(sa2sess := s.rpc.sa2sess[addr := Waiting(net, n, it)]),
                                    gen := s.gen + 1, connecting := s.connecting + {(s.gen + 1, addr)})])
  }

  lemma EmitConnect(net: Net, n: nat, id: int64, addr: Addr)
    requires n < |net.sites|
    ensures Emit(net, n, [ConnectTo(id, addr)]) ==
            net.(sites := net.sites[n := net.sites[n].(connecting := net.sites[n].connecting + {(id, addr)})])
  {
    var outs: seq<Output<Item>> := [ConnectTo(id, addr)];
    assert outs[1..] == [];
  }

  lemma EmitSend(net: Net, n: nat, owner: int64, esi: Esi, it: Item)
    requires n < |net.sites| && esi.fd < |net.wires|
    ensures Emit(net, n, [SendTo(owner, esi, it)]) == net.(wires := net.wires[esi.fd := RpcNet.Write(net.wires[esi.fd], esi, it)])
  {
    var outs := [SendTo(owner, esi, it)];
    assert outs[1..] == [];
  }

  lemma SendStep(net: Net, n: nat, addr: Addr, m: nat, dst: int32, ev: Event, h: History)
    requires Free(net, n, addr, m)
    ensures SendOut(net, n, Some(addr), dst, ev, h) == Sent(net, n, addr, Request(n, addr, dst, ev, h))
  {
    hide PackPacket, Emit;
    var it := Request(n, addr, dst, ev, h);
    var id := net.sites[n].gen + 1;
    var r := OnSend(net.sites[n].rpc, addr, it, id);
    assert [] + [it] == [it];
    assert r.1 == [ConnectTo(id, addr)];
    var net1 := NextId(net, n);
    var net2 := net1.(sites := net1.sites[n := net1.sites[n].(rpc := r.0)]);
    EmitConnect(net2, n, id, addr);
    assert SendOut(net, n, Some(addr), dst, ev, h) == Emit(net2, n, [ConnectTo(id, addr)]);
    assert SendOut(net, n, Some(addr), dst, ev, h).sites == Sent(net, n, addr, it).sites;
  }

  /** Connected: both ends exist, and nobody was told. */
  function Connected(net: Net, n: nat, addr: Addr, m: nat, it: Item): Net
    requires Free(net, n, addr, m)
  {
    var net1 := Sent(net, n, addr, it);
    net1.(sites := net1.sites[m := net1.sites[m].(gen := net1.sites[m].gen + 1)]
                             [n := net1.sites[n].(connecting := net1.sites[n].connecting - {(net1.sites[n].gen, addr)})],
          ends := net.ends + [NewEnd(net, n, addr, m)],
          wires := net.wires + [Wire(true, false, [], [])])
  }

  lemma EstablishStep(reg: Registry, net: Net, n: nat, addr: Addr, m: nat, it: Item)
    requires Free(net, n, addr, m)
    ensures var s := Establish(n, net.sites[n].gen + 1, addr);
            Enabled(reg, Sent(net, n, addr, it), s) && Next(reg, Sent(net, n, addr, it), s) == Connected(net, n, addr, m, it)
  {
  }

  /** Announced: the server has its session. */
  function Announced(net: Net, n: nat, addr: Addr, m: nat, it: Item): Net
    requires Free(net, n, addr, m)
  {
    var net2 := Connected(net, n, addr, m, it);
    var id := net.sites[m].gen + 1;
    var rpc := net2.sites[m].rpc;
    net2.(sites := net2.sites[m := net2.sites[m].(rpc :=
                     rpc.(sock2sess := rpc.sock2sess[id := Sess(id, Some(Esi(id, None, |net.ends|)), [], [])],
                          passCache := rpc.passCache - {id}))],
          wires := net.wires + [Wire(true, true, [], [])])
  }

  lemma AnnounceStep(reg: Registry, net: Net, n: nat, addr: Addr, m: nat, it: Item)
    requires Free(net, n, addr, m)
    ensures var net2 := Connected(net, n, addr, m, it);
            Enabled(reg, net2, Announce(|net.ends|)) && Next(reg, net2, Announce(|net.ends|)) == Announced(net, n, addr, m, it)
  {
    var net2 := Connected(net, n, addr, m, it);
    var c := |net.ends|;
    assert net2.ends[c] == NewEnd(net, n, addr, m);
    var id := net.sites[m].gen + 1;
    var r := OnAccepted(net2.sites[m].rpc, Esi(id, None, c));
    assert r.1 == [];
    assert net2.wires[c := net2.wires[c].(announced := true)] == net.wires + [Wire(true, true, [], [])];
  }

  /** Up: the packet is on the connection. */
  function Up(net: Net, n: nat, addr: Addr, m: nat, it: Item): Net
    requires Free(net, n, addr, m)
  {
    var net3 := Announced(net, n, addr, m, it);
    var rpc := net3.sites[n].rpc;
    var esi := Esi(net.sites[n].gen + 1, Some(addr), |net.ends|);
    net3.(sites := net3.sites[n := net3.sites[n].(rpc :=
                     rpc.(sa2sess := rpc.sa2sess[addr := Sess(net.sites[n].gen + 1, Some(esi), [], [it])]))],
          wires := net.wires + [Wire(true, true, [it], [])])
  }

  lemma UpStep(reg: Registry, net: Net, n: nat, addr: Addr, m: nat, it: Item)
    requires Free(net, n, addr, m)
    ensures var net3 := Announced(net, n, addr, m, it);
            Enabled(reg, net3, ClientUp(|net.ends|)) && Next(reg, net3, ClientUp(|net.ends|)) == Up(net, n, addr, m, it)
  {
    hide Emit;
    var net3 := Announced(net, n, addr, m, it);
    var c := |net.ends|;
    assert net3.ends[c] == NewEnd(net, n, addr, m);
    var esi := Esi(net.sites[n].gen + 1, Some(addr), c);
    var r := OnConnected(net3.sites[n].rpc, esi);
    assert r.1 == [SendTo(net.sites[n].gen + 1, esi, it)];
    assert [] + [it] == [it];
    EmitSend(net3.(sites := net3.sites[n := net3.sites[n].(rpc := r.0)]), n, net.sites[n].gen + 1, esi, it);
    assert net3.wires[c := net3.wires[c].(toServer := [it])] == net.wires + [Wire(true, true, [it], [])];
  }

  /** Read: the request is in the inbox of the service. */
  function Arrived(net: Net, n: nat, addr: Addr, m: nat, it: Item, d: Delivery): Net
    requires Free(net, n, addr, m)
  {
    var net4 := Up(net, n, addr, m, it);
    net4.(sites := net4.sites[m := net4.sites[m].(inbox := net.sites[m].inbox + [d])],
          wires := net.wires + [Wire(true, true, [], [])])
  }

  /** What arrives at node `m`. */
  function Arrival(net: Net, m: nat, dst: int32, ev: Event, h: History): Delivery
    requires m < |net.sites| && net.sites[m].gen < MAX_ID
  {
    var id := net.sites[m].gen + 1;
    Delivery(dst, ev.(route := ev.route + [RemoteAddr(id), LocalService(dst)]), Extend(h, Visit(Station(m, dst), Some(id))))
  }

  lemma ReadStep(reg: Registry, net: Net, n: nat, addr: Addr, m: nat, dst: int32, ev: Event, h: History)
    requires Free(net, n, addr, m) && Registered(reg, ev) && ListenerFree(ev.route)
    requires |PackPacket(Send(dst, ev))| <= net.sites[m].limit
    ensures var it := Request(n, addr, dst, ev, h);
            var net4 := Up(net, n, addr, m, it);
            && Enabled(reg, net4, ServerReads(|net.ends|))
            && Next(reg, net4, ServerReads(|net.ends|)) == Arrived(net, n, addr, m, it, Arrival(net, m, dst, ev, h))
  {
    hide PackPacket, UnpackPacket;
    var it := Request(n, addr, dst, ev, h);
    var net4 := Up(net, n, addr, m, it);
    var c := |net.ends|;
    assert net4.ends[c] == NewEnd(net, n, addr, m);
    UnpackPackPacket(reg, it.packet);
    assert [it][1..] == [];
    assert net4.wires[c := net4.wires[c].(toServer := [])] == net.wires + [Wire(true, true, [], [])];
  }

  /** Sending, connecting, both reports and reading: five steps carry a request to the node it is sent to. */
  lemma Carry(reg: Registry, net: Net, s: Step, n: nat, addr: Addr, m: nat, dst: int32, ev: Event, h: History) returns (b: Behaviour)
    requires Free(net, n, addr, m) && Registered(reg, ev) && ListenerFree(ev.route)
    requires |PackPacket(Send(dst, ev))| <= net.sites[m].limit
    requires Enabled(reg, net, s) && Next(reg, net, s) == SendOut(net, n, Some(addr), dst, ev, h)
    ensures FromTo(reg, b, net, Arrived(net, n, addr, m, Request(n, addr, dst, ev, h), Arrival(net, m, dst, ev, h)))
  {
    hide Next, Enabled, FromTo, SendOut, Sent, Connected, Announced, Up, Arrived, Arrival, PackPacket, Registered;
    var it := Request(n, addr, dst, ev, h);
    SendStep(net, n, addr, m, dst, ev, h);
    EstablishStep(reg, net, n, addr, m, it);
    AnnounceStep(reg, net, n, addr, m, it);
    UpStep(reg, net, n, addr, m, it);
    ReadStep(reg, net, n, addr, m, dst, ev, h);
    var c := |net.ends|;
    StillIsRun(reg, net);
    b := Then(reg, Still(net), net, net, s, Sent(net, n, addr, it));
    b := Then(reg, b, net, Sent(net, n, addr, it), Establish(n, net.sites[n].gen + 1, addr), Connected(net, n, addr, m, it));
    b := Then(reg, b, net, Connected(net, n, addr, m, it), Announce(c), Announced(net, n, addr, m, it));
    b := Then(reg, b, net, Announced(net, n, addr, m, it), ClientUp(c), Up(net, n, addr, m, it));
    b := Then(reg, b, net, Up(net, n, addr, m, it), ServerReads(c), Arrived(net, n, addr, m, it, Arrival(net, m, dst, ev, h)));
  }

  // ---------------------------------------------------------------- what a hop leaves as it was

  lemma ArrivedSites(net: Net, n: nat, addr: Addr, m: nat, it: Item, d: Delivery)
    requires Free(net, n, addr, m)
    ensures var net' := Arrived(net, n, addr, m, it, d);
            && net'.owner == net.owner && |net'.sites| == |net.sites|
            && net'.ends == net.ends + [NewEnd(net, n, addr, m)] && net'.wires == net.wires + [Wire(true, true, [], [])]
            && (forall p: nat :: p < |net.sites| && p != n && p != m ==> net'.sites[p] == net.sites[p])
            && net'.sites[n].rpc.sock2sess == net.sites[n].rpc.sock2sess && net'.sites[n].limit == net.sites[n].limit
            && net'.sites[m].rpc.sa2sess == net.sites[m].rpc.sa2sess && net'.sites[m].limit == net.sites[m].limit
            && net'.sites[m].gen == net.sites[m].gen + 1 && net'.sites[m].inbox == net.sites[m].inbox + [d]
            && var id := net.sites[m].gen + 1;
               net'.sites[m].rpc.sock2sess == net.sites[m].rpc.sock2sess[id := Sess(id, Some(Esi(id, None, |net.ends|)), [], [])]
  {
  }

  /** The connections there were are as good as before, and the new one is good. */
  lemma ArrivedStaysUp(reg: Registry, net: Net, n: nat, addr: Addr, m: nat, it: Item, d: Delivery, c: nat)
    requires Free(net, n, addr, m)
    ensures var net' := Arrived(net, n, addr, m, it, d);
            (Intact(reg, net, c) ==> Intact(reg, net', c) && net'.ends[c] == net.ends[c]) && Intact(reg, net', |net.ends|)
  {
    hide Arrived, OnPacketOnConnector;
    ArrivedSites(net, n, addr, m, it, d);
    var net' := Arrived(net, n, addr, m, it, d);
    assert Pending(net', |net.ends|) == [];
    if Intact(reg, net, c) {
      OldStaysUp(reg, net, net', c);
    }
  }

  lemma OldStaysUp(reg: Registry, net: Net, net': Net, c: nat)
    requires Intact(reg, net, c) && |net.wires| == |net.ends| && net.ends <= net'.ends && net.wires <= net'.wires
    requires SameLimits(net, net')
    requires forall p: nat, id: int64 :: p < |net.sites| && id in net.sites[p].rpc.sock2sess ==>
               id in net'.sites[p].rpc.sock2sess && net'.sites[p].rpc.sock2sess[id] == net.sites[p].rpc.sock2sess[id]
    ensures Intact(reg, net', c) && net'.ends[c] == net.ends[c]
  {
    hide OnPacketOnConnector;
    assert net'.ends[c] == net.ends[c] && net'.wires[c] == net.wires[c];
    assert Pending(net', c) == Pending(net, c);
    forall i: nat | i < |Pending(net, c)| ensures Harmless(reg, net', c, Pending(net, c)[i]) {
      assert Harmless(reg, net, c, Pending(net, c)[i]);
    }
  }

  // ---------------------------------------------------------------- along a chain

  /** A service on the way, and the address of its node. */
  datatype Place = Place(node: nat, service: int32, addr: Addr)

  /** The visits of a request that goes through these places, each node accepting its first connection. */
  function TrailOf(chain: seq<Place>): (t: seq<Visit>)
    ensures |t| == |chain|
  {
    if chain == [] then []
    else
      var p := chain[|chain| - 1];
      TrailOf(chain[..|chain| - 1]) + [Visit(Station(p.node, p.service), if |chain| == 1 then None else Some(1))]
  }

  lemma TrailOneMore(chain: seq<Place>, i: nat)
    requires i < |chain|
    ensures TrailOf(chain[..i + 1]) ==
            TrailOf(chain[..i]) + [Visit(Station(chain[i].node, chain[i].service), if i == 0 then None else Some(1))]
  {
    assert chain[..i + 1][..i] == chain[..i];
  }

  /** The route of the request when it has been at the first `i` places. */
  function RouteAt(chain: seq<Place>, base: Route, i: nat): Route
    requires i <= |chain|
  {
    RouteOf(base, TrailOf(chain[..i]))
  }

  lemma RouteOneMore(chain: seq<Place>, base: Route, i: nat)
    requires 0 < i < |chain|
    ensures RouteAt(chain, base, i + 1) == RouteAt(chain, base, i) + [RemoteAddr(1), LocalService(chain[i].service)]
  {
    hide RouteOf, TrailOf;
    TrailOneMore(chain, i);
    RouteExtends(base, TrailOf(chain[..i]), Visit(Station(chain[i].node, chain[i].service), Some(1)));
  }

  lemma {:induction false} RoutesGrow(chain: seq<Place>, base: Route, i: nat)
    requires 0 < i <= |chain|
    ensures |RouteAt(chain, base, i)| <= |RouteOf(base, TrailOf(chain))|
    decreases |chain| - i
  {
    hide RouteOf, TrailOf;
    if i == |chain| {
      assert chain[..i] == chain;
    } else {
      RouteOneMore(chain, base, i);
      RoutesGrow(chain, base, i + 1);
    }
  }

  /** Different nodes, each behind its address. */
  ghost predicate IsChain(net: Net, chain: seq<Place>)
  {
    && (forall i: nat :: i < |chain| ==> chain[i].node < |net.sites|)
    && (forall i: nat :: 0 < i < |chain| ==> chain[i].addr in net.owner && net.owner[chain[i].addr] == chain[i].node)
    && (forall i: nat, j: nat :: i < j < |chain| ==> chain[i].node != chain[j].node)
  }

  /** No packet of the request is longer than its reader allows. */
  ghost predicate RequestFits(net: Net, chain: seq<Place>, base: Route, id: int32, body: seq<Value>)
  {
    forall i: nat :: 0 < i < |chain| && chain[i].node < |net.sites| ==>
      |PackPacket(Send(chain[i].service, Event(id, RouteAt(chain, base, i), body)))| <= net.sites[chain[i].node].limit
  }

  /** What is asked of the chain, the request and the route of the sender. */
  ghost predicate CanGoOut(reg: Registry, net: Net, chain: seq<Place>, base: Route, id: int32, body: seq<Value>)
  {
    && IsChain(net, chain) && ListenerFree(base) && RequestFits(net, chain, base, id, body)
    && Registered(reg, Event(id, RouteOf(base, TrailOf(chain)), body))
  }

  /** Nothing has reached the places from `i` on, and the one before has not sent anything. */
  ghost predicate Untouched(net: Net, chain: seq<Place>, i: nat)
    requires 0 < i <= |chain| && IsChain(net, chain)
  {
    && net.sites[chain[i - 1].node].rpc.sa2sess == map[] && 0 <= net.sites[chain[i - 1].node].gen <= 1
    && forall j: nat :: i <= j < |chain| ==>
         net.sites[chain[j].node].rpc == State(map[], map[], map[]) && net.sites[chain[j].node].gen == 0
  }

  /** The request has been at the first `i` places, and the connections between them are up. */
  ghost predicate GoneTo(reg: Registry, net0: Net, net: Net, chain: seq<Place>, base: Route, i: nat)
  {
    && 0 < i <= |chain| && Inv(reg, net) && SameLimits(net0, net) && net.owner == net0.owner
    && IsChain(net, chain) && Untouched(net, chain, i) && TrailUp(reg, net, TrailOf(chain[..i]))
  }

  /** It is in the inbox there. */
  ghost predicate WithLast(net: Net, chain: seq<Place>, base: Route, id: int32, body: seq<Value>, i: nat, k: nat)
    requires 0 < i <= |chain|
  {
    && chain[i - 1].node < |net.sites| && k < |net.sites[chain[i - 1].node].inbox|
    && net.sites[chain[i - 1].node].inbox[k] ==
       Delivery(chain[i - 1].service, Event(id, RouteAt(chain, base, i), body), Outward(TrailOf(chain[..i]), base))
  }

  /** One hop further, by any step that sends the request there. */
  lemma HopOut(reg: Registry, net0: Net, net: Net, s: Step, chain: seq<Place>, base: Route, id: int32, body: seq<Value>, i: nat)
      returns (b: Behaviour, net': Net, k: nat)
    requires i < |chain| && GoneTo(reg, net0, net, chain, base, i) && CanGoOut(reg, net0, chain, base, id, body)
    requires Enabled(reg, net, s)
    requires net.sites[chain[i - 1].node].gen < MAX_ID
    requires Next(reg, net, s) == SendOut(net, chain[i - 1].node, Some(chain[i].addr), chain[i].service,
                                          Event(id, RouteAt(chain, base, i), body), Outward(TrailOf(chain[..i]), base))
    ensures FromTo(reg, b, net, net') && GoneTo(reg, net0, net', chain, base, i + 1)
    ensures WithLast(net', chain, base, id, body, i + 1, k)
  {
    hide Next, Enabled, SendOut, RouteAt, TrailOf, FromTo, Arrived, Inv, PackPacket, Registered, SameLimits;
    var n, m := chain[i - 1].node, chain[i].node;
    var ev := Event(id, RouteAt(chain, base, i), body);
    var h := Outward(TrailOf(chain[..i]), base);
    HopIsFree(reg, net0, net, chain, base, id, body, i);
    b := Carry(reg, net, s, n, chain[i].addr, m, chain[i].service, ev, h);
    var d := Arrival(net, m, chain[i].service, ev, h);
    net' := Arrived(net, n, chain[i].addr, m, Request(n, chain[i].addr, chain[i].service, ev, h), d);
    ArrivedSites(net, n, chain[i].addr, m, Request(n, chain[i].addr, chain[i].service, ev, h), d);
    RunKeepsInv(reg, b, net, net');
    HopKeeps(reg, net0, net, net', chain, base, i, d, Request(n, chain[i].addr, chain[i].service, ev, h));
    k := |net.sites[m].inbox|;
    RouteOneMore(chain, base, i);
    TrailOneMore(chain, i);
  }

  /** What the hop needs. */
  lemma HopIsFree(reg: Registry, net0: Net, net: Net, chain: seq<Place>, base: Route, id: int32, body: seq<Value>, i: nat)
    requires i < |chain| && GoneTo(reg, net0, net, chain, base, i) && CanGoOut(reg, net0, chain, base, id, body)
    ensures Free(net, chain[i - 1].node, chain[i].addr, chain[i].node)
    ensures var ev := Event(id, RouteAt(chain, base, i), body);
            && Registered(reg, ev) && ListenerFree(ev.route)
            && |PackPacket(Send(chain[i].service, ev))| <= net.sites[chain[i].node].limit
  {
    hide RouteOf, TrailOf, PackPacket, TrailUp;
    RoutesGrow(chain, base, i);
    RouteIsListenerFree(base, TrailOf(chain[..i]));
  }

  lemma HopKeeps(reg: Registry, net0: Net, net: Net, net': Net, chain: seq<Place>, base: Route, i: nat, d: Delivery, it: Item)
    requires i < |chain| && GoneTo(reg, net0, net, chain, base, i) && Inv(reg, net')
    requires Free(net, chain[i - 1].node, chain[i].addr, chain[i].node)
    requires net' == Arrived(net, chain[i - 1].node, chain[i].addr, chain[i].node, it, d)
    ensures GoneTo(reg, net0, net', chain, base, i + 1)
  {
    hide Arrived, Inv, TrailOf, TrailUp;
    ArrivedSites(net, chain[i - 1].node, chain[i].addr, chain[i].node, it, d);
    HopStaysUp(reg, net, chain, i, d, it);
  }

  lemma HopStaysUp(reg: Registry, net: Net, chain: seq<Place>, i: nat, d: Delivery, it: Item)
    requires 0 < i < |chain| && IsChain(net, chain) && TrailUp(reg, net, TrailOf(chain[..i]))
    requires Free(net, chain[i - 1].node, chain[i].addr, chain[i].node) && net.sites[chain[i].node].gen == 0
    ensures TrailUp(reg, Arrived(net, chain[i - 1].node, chain[i].addr, chain[i].node, it, d), TrailOf(chain[..i + 1]))
  {
    hide Arrived, Intact, TrailOf;
    var n, m := chain[i - 1].node, chain[i].node;
    var net' := Arrived(net, n, chain[i].addr, m, it, d);
    var t, t' := TrailOf(chain[..i]), TrailOf(chain[..i + 1]);
    TrailOneMore(chain, i - 1);
    TrailOneMore(chain, i);
    ArrivedSites(net, n, chain[i].addr, m, it, d);
    forall j | 0 < j < |t'| ensures LegUp(reg, net', t'[j - 1], t'[j]) {
      if j == i {
        ArrivedStaysUp(reg, net, n, chain[i].addr, m, it, d, 0);
        assert net'.ends[|net.ends|] == NewEnd(net, n, chain[i].addr, m);
      } else {
        assert LegUp(reg, net, t[j - 1], t[j]);
        LegStaysUp(reg, net, n, chain[i].addr, m, it, d, t[j - 1], t[j]);
      }
    }
  }

  lemma LegStaysUp(reg: Registry, net: Net, n: nat, addr: Addr, m: nat, it: Item, d: Delivery, v: Visit, w: Visit)
    requires Free(net, n, addr, m) && LegUp(reg, net, v, w)
    ensures LegUp(reg, Arrived(net, n, addr, m, it, d), v, w)
  {
    hide Arrived, AllHarmless;
    if w.via.Some? {
      var c: nat :| Intact(reg, net, c) &&
        net.ends[c] == End(v.at.node, net.ends[c].clientId, net.ends[c].addr, w.at.node, w.via.value);
      ArrivedStaysUp(reg, net, n, addr, m, it, d, c);
    }
  }

  // ---------------------------------------------------------------- out and home

  lemma StartIsOk(reg: Registry, net: Net, chain: seq<Place>, base: Route)
    requires Start(net) && chain != [] && IsChain(net, chain)
    ensures GoneTo(reg, net, net, chain, base, 1)
  {
    hide Next, Enabled, Inv;
    StillIsRun(reg, net);
    ReachedIsOk(reg, Still(net), 0);
  }

  /** The sender opens the request with its own service on top of its route. */
  lemma FirstHop(reg: Registry, net: Net, chain: seq<Place>, base: Route, id: int32, body: seq<Value>)
      returns (b: Behaviour, net': Net, k: nat)
    requires Start(net) && |chain| >= 2 && CanGoOut(reg, net, chain, base, id, body)
    ensures FromTo(reg, b, net, net') && GoneTo(reg, net, net', chain, base, 2) && WithLast(net', chain, base, id, body, 2, k)
  {
    hide SendOut, FromTo, GoneTo, TrailOf, RouteOf, PackPacket;
    var p := chain[0];
    StartIsOk(reg, net, chain, base);
    var s := Originate(p.node, p.service, Some(chain[1].addr), chain[1].service, base, id, body);
    FirstRoute(chain, base);
    RoutesGrow(chain, base, 1);
    b, net', k := HopOut(reg, net, net, s, chain, base, id, body, 1);
  }

  lemma FirstRoute(chain: seq<Place>, base: Route)
    requires chain != []
    ensures TrailOf(chain[..1]) == [Visit(Station(chain[0].node, chain[0].service), None)]
    ensures RouteAt(chain, base, 1) == base + [LocalService(chain[0].service)]
  {
    TrailOneMore(chain, 0);
    assert chain[..0] == [];
    var v := Visit(Station(chain[0].node, chain[0].service), None);
    assert TrailOf(chain[..1]) == [] + [v];
    RouteExtends(base, [], v);
  }

  /** The service it has reached forwards it, by the route it came with. */
  lemma NextHop(reg: Registry, net0: Net, net: Net, chain: seq<Place>, base: Route, id: int32, body: seq<Value>, i: nat, k: nat)
      returns (b: Behaviour, net': Net, k': nat)
    requires 0 < i < |chain| && GoneTo(reg, net0, net, chain, base, i) && WithLast(net, chain, base, id, body, i, k)
    requires CanGoOut(reg, net0, chain, base, id, body)
    ensures FromTo(reg, b, net, net') && GoneTo(reg, net0, net', chain, base, i + 1)
    ensures WithLast(net', chain, base, id, body, i + 1, k')
  {
    hide SendOut, FromTo, TrailOf, RouteAt, PackPacket, CanGoOut, Registered, Inv, TrailUp, SameLimits;
    var s := Forward(chain[i - 1].node, k, Some(chain[i].addr), chain[i].service, id, body);
    HopIsFree(reg, net0, net, chain, base, id, body, i);
    b, net', k' := HopOut(reg, net0, net, s, chain, base, id, body, i);
  }

  /** And so on to the end of the chain. */
  lemma {:induction false} GoesOut(reg: Registry, net0: Net, net: Net, chain: seq<Place>, base: Route, id: int32, body: seq<Value>, i: nat, k: nat)
      returns (b: Behaviour, net': Net, k': nat)
    requires 0 < i <= |chain| && GoneTo(reg, net0, net, chain, base, i) && WithLast(net, chain, base, id, body, i, k)
    requires CanGoOut(reg, net0, chain, base, id, body)
    ensures FromTo(reg, b, net, net') && GoneTo(reg, net0, net', chain, base, |chain|)
    ensures WithLast(net', chain, base, id, body, |chain|, k')
    decreases |chain| - i
  {
    hide FromTo, CanGoOut, GoneTo, WithLast;
    if i == |chain| {
      StillIsRun(reg, net);
      b, net', k' := Still(net), net, k;
    } else {
      var a, net1, k1 := NextHop(reg, net0, net, chain, base, id, body, i, k);
      var rest: Behaviour;
      rest, net', k' := GoesOut(reg, net0, net1, chain, base, id, body, i + 1, k1);
      b := Compose(reg, a, rest, net, net1, net');
    }
  }

  /**
   From the start of a network: a request can be carried along any chain of services on different
   nodes, however long, and the answer of the last one be brought home to the first, in one run.
   */
  lemma OutAndHome(reg: Registry, net: Net, chain: seq<Place>, base: Route, id: int32, body: seq<Value>, answer: int32, content: seq<Value>)
      returns (b: Behaviour, net': Net)
    requires Start(net) && |chain| >= 2 && CanGoOut(reg, net, chain, base, id, body)
    requires Registered(reg, Event(answer, RouteOf(base, TrailOf(chain)), content))
    requires Fits(net, TrailOf(chain), base, answer, content)
    ensures FromTo(reg, b, net, net') && Home(net', TrailOf(chain), base, answer, content)
  {
    hide FromTo, CanGoOut, GoneTo, WithLast, Registered, Fits, Home;
    var first, net1, k1 := FirstHop(reg, net, chain, base, id, body);
    var out, net2, k2 := GoesOut(reg, net, net1, chain, base, id, body, 2, k1);
    b := Compose(reg, first, out, net, net1, net2);
    var home: Behaviour;
    home, net' := AnswerFromLast(reg, net, net2, chain, base, id, body, k2, answer, content);
    b := Compose(reg, b, home, net, net2, net');
  }

  /** The last one answers. */
  lemma AnswerFromLast(reg: Registry, net0: Net, net: Net, chain: seq<Place>, base: Route, id: int32, body: seq<Value>, k: nat,
                       answer: int32, content: seq<Value>) returns (b: Behaviour, net': Net)
    requires |chain| >= 2 && GoneTo(reg, net0, net, chain, base, |chain|) && WithLast(net, chain, base, id, body, |chain|, k)
    requires Registered(reg, Event(answer, RouteOf(base, TrailOf(chain)), content))
    requires Fits(net0, TrailOf(chain), base, answer, content)
    ensures FromTo(reg, b, net, net') && Home(net', TrailOf(chain), base, answer, content)
  {
    hide FromTo, TrailOf, RouteOf, LegBytes, Registered, Home, Inv, Untouched, TrailUp;
    assert chain[..|chain|] == chain;
    b, net' := ReplyComesHome(reg, net, chain[|chain| - 1].node, k, answer, content);
  }
}
