/** Replies that are passed before their socket is announced: they wait in passCache, and are delivered after it. */
module RpcEarly {
  import opened Prelude
  import opened TypedCodec
  import opened Routes
  import opened EventCodec
  import opened Dispatch
  import opened Rpc
  import opened RpcNet
  import opened RpcRetrace
  import opened RpcHome
  import opened RpcOut

  // ---------------------------------------------------------------- the announcement

  /** A session that has its socket and holds nothing sends each packet as it comes. */
  lemma {:induction false} AddSendsUp(s: Sess<Item>, ps: seq<Item>)
    requires s.esi.Some? && s.outCache == []
    ensures AddSends(s, ps).1 == Sends(s.socketId, s.esi.value, ps)
    ensures AddSends(s, ps).0.esi == s.esi && AddSends(s, ps).0.outCache == []
    decreases ps
  {
    if ps != [] {
      var t := AddSend(s, ps[0]).0;
      AddSendsUp(t, ps[1..]);
      assert Sends<Item>(s.socketId, s.esi.value, []) == [];
    }
  }

  /** Connection `c` is up and its server has not been told yet. */
  ghost predicate Unannounced(net: Net, c: nat)
  {
    && OnWire(net, c) && net.wires[c].open && !net.wires[c].announced
    && net.ends[c].serverId !in net.sites[net.ends[c].server].rpc.sock2sess
  }

  /** What waits for the socket of `c` in the cache of its server. */
  function WaitingFor(net: Net, c: nat): seq<Item>
    requires OnWire(net, c)
  {
    Cached(net.sites[net.ends[c].server].rpc, net.ends[c].serverId)
  }

  /** on_Accepted puts all that waited on the connection, in order, and the cache is empty. */
  lemma AnnouncedFlushes(reg: Registry, net: Net, c: nat)
    requires Unannounced(net, c)
    ensures Enabled(reg, net, Announce(c))
    ensures var net' := Next(reg, net, Announce(c));
            && net'.ends == net.ends && net'.owner == net.owner && |net'.sites| == |net.sites|
            && net'.wires == net.wires[c := Wire(true, true, net.wires[c].toServer, net.wires[c].toClient + WaitingFor(net, c))]
            && (forall m: nat :: m < |net.sites| ==>
                  net'.sites[m].limit == net.sites[m].limit && net'.sites[m].inbox == net.sites[m].inbox)
            && WaitingFor(net', c) == [] && net.ends[c].serverId in net'.sites[net.ends[c].server].rpc.sock2sess
  {
    hide AddSends, Emit;
    var n, esi := net.ends[c].server, ServerEsi(net, c);
    var q := WaitingFor(net, c);
    AddSendsUp(Sess(esi.id, Some(esi), [], []), q);
    var r := OnAccepted(net.sites[n].rpc, esi);
    var net1 := net.(wires := net.wires[c := net.wires[c].(announced := true)]);
    var net2 := net1.(sites := net1.sites[n := net1.sites[n].(rpc := r.0)]);
    EmitToClient(net2, n, r.1, c, esi, q);
  }

  /** So a reply that waited there is delivered, once its client has read what is before it. */
  lemma WaitingReplyIsDelivered(reg: Registry, net: Net, c: nat) returns (b: Behaviour, net': Net)
    requires Unannounced(net, c) && WaitingFor(net, c) != []
    requires AllHarmless(reg, net, c, net.wires[c].toClient + WaitingFor(net, c))
    ensures FromTo(reg, b, net, net') && b.steps != [] && b.steps[0] == Announce(c)
    ensures |net'.sites| == |net.sites| && net.ends[c].client < |net'.sites|
    ensures var q := WaitingFor(net, c);
            var r := OnPacketOnConnector(reg, ClientEsi(net, c), q[|q| - 1].bytes);
            r.Deliver? ==>
              var at := Station(net.ends[c].client, r.service);
              var inbox := net'.sites[at.node].inbox;
              inbox != [] && inbox[|inbox| - 1] == Delivery(r.service, r.ev, Return(q[|q| - 1].history, at))
  {
    hide Next, Enabled, WaitingFor, OnPacketOnConnector;
    AnnouncedFlushes(reg, net, c);
    var net1 := Next(reg, net, Announce(c));
    forall i: nat | i < |net1.wires[c].toClient| ensures Harmless(reg, net1, c, net1.wires[c].toClient[i]) {
      assert Harmless(reg, net, c, net1.wires[c].toClient[i]);
    }
    var rest, last := Drain(reg, net1, c);
    OneStep(reg, net, Announce(c));
    var first := Behaviour([net, net1], [Announce(c)]);
    JoinRuns(reg, first, rest, net, net1, last);
    b, net' := Joined(first, rest), last;
  }

  // ---------------------------------------------------------------- a run in which that happens

  /** The client is told first, and the packet is on the connection. */
  function EarlyUp(net: Net, n: nat, addr: Addr, m: nat, it: Item): Net
    requires Free(net, n, addr, m)
  {
    var net2 := Connected(net, n, addr, m, it);
    var rpc := net2.sites[n].rpc;
    var esi := Esi(net.sites[n].gen + 1, Some(addr), |net.ends|);
    net2.(sites := net2.sites[n := net2.sites[n].(rpc :=
                     rpc.(sa2sess := rpc.sa2sess[addr := Sess(net.sites[n].gen + 1, Some(esi), [], [it])]))],
          wires := net.wires + [Wire(true, false, [it], [])])
  }

  lemma EarlyUpStep(reg: Registry, net: Net, n: nat, addr: Addr, m: nat, it: Item)
    requires Free(net, n, addr, m)
    ensures var net2 := Connected(net, n, addr, m, it);
            Enabled(reg, net2, ClientUp(|net.ends|)) && Next(reg, net2, ClientUp(|net.ends|)) == EarlyUp(net, n, addr, m, it)
  {
    hide Emit;
    var net2 := Connected(net, n, addr, m, it);
    var c := |net.ends|;
    assert net2.ends[c] == NewEnd(net, n, addr, m);
    var esi := Esi(net.sites[n].gen + 1, Some(addr), c);
    var r := OnConnected(net2.sites[n].rpc, esi);
    assert r.1 == [SendTo(net.sites[n].gen + 1, esi, it)];
    EmitSend(net2.(sites := net2.sites[n := net2.sites[n].(rpc := r.0)]), n, net.sites[n].gen + 1, esi, it);
    assert [] + [it] == [it];
    assert net2.wires[c := net2.wires[c].(toServer := [it])] == net.wires + [Wire(true, false, [it], [])];
  }

  function EarlyArrived(net: Net, n: nat, addr: Addr, m: nat, it: Item, d: Delivery): Net
    requires Free(net, n, addr, m)
  {
    var net3 := EarlyUp(net, n, addr, m, it);
    net3.(sites := net3.sites[m := net3.sites[m].(inbox := net.sites[m].inbox + [d])],
          wires := net.wires + [Wire(true, false, [], [])])
  }

  lemma EarlyReadStep(reg: Registry, net: Net, n: nat, addr: Addr, m: nat, dst: int32, ev: Event, h: History)
    requires Free(net, n, addr, m) && Registered(reg, ev) && ListenerFree(ev.route)
    requires |PackPacket(Send(dst, ev))| <= net.sites[m].limit
    ensures var it := Request(n, addr, dst, ev, h);
            var net3 := EarlyUp(net, n, addr, m, it);
            && Enabled(reg, net3, ServerReads(|net.ends|))
            && Next(reg, net3, ServerReads(|net.ends|)) == EarlyArrived(net, n, addr, m, it, Arrival(net, m, dst, ev, h))
  {
    hide PackPacket, UnpackPacket;
    var it := Request(n, addr, dst, ev, h);
    var net3 := EarlyUp(net, n, addr, m, it);
    var c := |net.ends|;
    assert net3.ends[c] == NewEnd(net, n, addr, m);
    UnpackPackPacket(reg, it.packet);
    assert [it][1..] == [];
    assert net3.wires[c := net3.wires[c].(toServer := [])] == net.wires + [Wire(true, false, [], [])];
  }

  /** The reply waits in the cache. */
  lemma EarlyPass(net: Net, m: nat, id: int64, ev: Event, h: History)
    requires m < |net.sites| && ev.route != [] && ev.route[|ev.route| - 1] == RemoteAddr(id)
    requires id !in net.sites[m].rpc.sock2sess && id !in net.sites[m].rpc.passCache
    ensures var popped := ev.(route := Popped(ev.route));
            var it := Item(PackPacket(Pass(popped)), Pass(popped), ToSocket(m, id), h);
            PassBack(net, m, ev, h) ==
            net.(sites := net.sites[m := net.sites[m].(rpc := net.sites[m].rpc.(passCache := net.sites[m].rpc.passCache[id := [it]]))])
  {
    hide PackPacket;
    var popped := ev.(route := Popped(ev.route));
    var it := Item(PackPacket(Pass(popped)), Pass(popped), ToSocket(m, id), h);
    assert [] + [it] == [it];
    assert OnPass(net.sites[m].rpc, id, it).1 == [];
  }

  /** A service of node `n` sends, and one of node `m` answers, under these conditions. */
  datatype Exchange = Exchange(n: nat, service: int32, addr: Addr, m: nat, dst: int32, base: Route,
                               id: int32, body: seq<Value>, answer: int32, content: seq<Value>)

  function Asking(x: Exchange): Event
  {
    Event(x.id, x.base + [LocalService(x.service)], x.body)
  }

  function Answering(x: Exchange): Event
  {
    Event(x.answer, x.base + [LocalService(x.service)], x.content)
  }

  ghost predicate CanExchange(reg: Registry, net: Net, x: Exchange)
  {
    && Free(net, x.n, x.addr, x.m) && ListenerFree(x.base) && |x.base| + 3 < TWO_64
    && Registered(reg, Asking(x)) && Registered(reg, Answering(x))
    && |PackPacket(Send(x.dst, Asking(x)))| <= net.sites[x.m].limit
    && |PackPacket(Pass(Answering(x)))| <= net.sites[x.n].limit
  }

  function FirstTrail(x: Exchange): seq<Visit>
  {
    [Visit(Station(x.n, x.service), None)]
  }

  function WholeTrail(net: Net, x: Exchange): seq<Visit>
    requires x.m < |net.sites| && net.sites[x.m].gen < MAX_ID
  {
    FirstTrail(x) + [Visit(Station(x.m, x.dst), Some(net.sites[x.m].gen + 1))]
  }

  function ReplyItem(net: Net, x: Exchange): Item
    requires x.m < |net.sites| && net.sites[x.m].gen < MAX_ID
  {
    Item(PackPacket(Pass(Answering(x))), Pass(Answering(x)), ToSocket(x.m, net.sites[x.m].gen + 1),
         Homeward(WholeTrail(net, x), x.base, []))
  }

  /** Sending, connecting, the report to the client, reading: the request is answered before its socket is announced. */
  lemma AnsweredEarly(reg: Registry, net: Net, x: Exchange) returns (b: Behaviour, net': Net)
    requires CanExchange(reg, net, x)
    ensures FromTo(reg, b, net, net') && Unannounced(net', |net.ends|) && net'.ends == net.ends + [NewEnd(net, x.n, x.addr, x.m)]
    ensures net'.wires[|net.ends|].toClient == [] && WaitingFor(net', |net.ends|) == [ReplyItem(net, x)]
    ensures |net'.sites| == |net.sites| && net'.sites[x.n].limit == net.sites[x.n].limit
  {
    hide FromTo, PackPacket, SendOut, PassBack;
    var h := Outward(FirstTrail(x), x.base);
    var it := Request(x.n, x.addr, x.dst, Asking(x), h);
    var d := Arrival(net, x.m, x.dst, Asking(x), h);
    b := CarriedEarly(reg, net, x);
    var net1 := EarlyArrived(net, x.n, x.addr, x.m, it, d);
    var k := |net.sites[x.m].inbox|;
    var s := Answer(x.m, k, x.answer, x.content);
    var id := net.sites[x.m].gen + 1;
    var ev := Event(x.answer, x.base + [LocalService(x.service), RemoteAddr(id)], x.content);
    AnswerStep(reg, net, x, net1, k);
    EarlyPass(net1, x.m, id, ev, Homeward(WholeTrail(net, x), x.base, []));
    assert Popped(ev.route) == x.base + [LocalService(x.service)];
    net' := Next(reg, net1, s);
    b := Then(reg, b, net, net1, s, net');
  }

  lemma CarriedEarly(reg: Registry, net: Net, x: Exchange) returns (b: Behaviour)
    requires CanExchange(reg, net, x)
    ensures var h := Outward(FirstTrail(x), x.base);
            FromTo(reg, b, net, EarlyArrived(net, x.n, x.addr, x.m, Request(x.n, x.addr, x.dst, Asking(x), h),
                                             Arrival(net, x.m, x.dst, Asking(x), h)))
  {
    hide FromTo, Next, Enabled, PackPacket, SendOut, Sent, Connected, EarlyUp, EarlyArrived, Arrival, Registered;
    var h := Outward(FirstTrail(x), x.base);
    var it := Request(x.n, x.addr, x.dst, Asking(x), h);
    var s := Originate(x.n, x.service, Some(x.addr), x.dst, x.base, x.id, x.body);
    OriginateStep(reg, net, x);
    SendStep(net, x.n, x.addr, x.m, x.dst, Asking(x), h);
    EstablishStep(reg, net, x.n, x.addr, x.m, it);
    EarlyUpStep(reg, net, x.n, x.addr, x.m, it);
    EarlyReadStep(reg, net, x.n, x.addr, x.m, x.dst, Asking(x), h);
    var c := |net.ends|;
    StillIsRun(reg, net);
    b := Then(reg, Still(net), net, net, s, Sent(net, x.n, x.addr, it));
    b := Then(reg, b, net, Sent(net, x.n, x.addr, it), Establish(x.n, net.sites[x.n].gen + 1, x.addr), Connected(net, x.n, x.addr, x.m, it));
    b := Then(reg, b, net, Connected(net, x.n, x.addr, x.m, it), ClientUp(c), EarlyUp(net, x.n, x.addr, x.m, it));
    b := Then(reg, b, net, EarlyUp(net, x.n, x.addr, x.m, it), ServerReads(c),
              EarlyArrived(net, x.n, x.addr, x.m, it, Arrival(net, x.m, x.dst, Asking(x), h)));
  }

  lemma OriginateStep(reg: Registry, net: Net, x: Exchange)
    requires CanExchange(reg, net, x)
    ensures var s := Originate(x.n, x.service, Some(x.addr), x.dst, x.base, x.id, x.body);
            && Enabled(reg, net, s)
            && Next(reg, net, s) == SendOut(net, x.n, Some(x.addr), x.dst, Asking(x), Outward(FirstTrail(x), x.base))
  {
    hide SendOut, PackPacket;
  }

  lemma AnswerStep(reg: Registry, net: Net, x: Exchange, net1: Net, k: nat)
    requires CanExchange(reg, net, x) && x.m < |net1.sites| && k < |net1.sites[x.m].inbox|
    requires net1.sites[x.m].inbox[k] == Arrival(net, x.m, x.dst, Asking(x), Outward(FirstTrail(x), x.base))
    ensures var s := Answer(x.m, k, x.answer, x.content);
            var ev := Event(x.answer, x.base + [LocalService(x.service), RemoteAddr(net.sites[x.m].gen + 1)], x.content);
            && Enabled(reg, net1, s)
            && Next(reg, net1, s) == PassBack(net1, x.m, ev, Homeward(WholeTrail(net, x), x.base, []))
  {
    hide PassBack, PackPacket;
    var r := net1.sites[x.m].inbox[k].ev.route;
    assert r[..|r| - 1] == x.base + [LocalService(x.service), RemoteAddr(net.sites[x.m].gen + 1)];
  }

  /**
   A reply that is passed before on_Accepted has run for its socket is cached, is on no connection, and
   comes home in the run in which the announcement follows.
   */
  lemma EarlyReplyComesHome(reg: Registry, net: Net, x: Exchange) returns (a: Behaviour, net1: Net, b: Behaviour, net2: Net)
    requires CanExchange(reg, net, x)
    ensures FromTo(reg, a, net, net1) && Unannounced(net1, |net.ends|) && WaitingFor(net1, |net.ends|) == [ReplyItem(net, x)]
    ensures FromTo(reg, b, net1, net2) && b.steps != [] && b.steps[0] == Announce(|net.ends|)
    ensures Home(net2, WholeTrail(net, x), x.base, x.answer, x.content)
  {
    hide FromTo, PackPacket, Next, Enabled, OnPacketOnConnector, WaitingFor;
    a, net1 := AnsweredEarly(reg, net, x);
    var c := |net.ends|;
    var it := ReplyItem(net, x);
    var r := Answering(x).route;
    assert net1.ends[c] == NewEnd(net, x.n, x.addr, x.m);
    ReadIsDelivered(reg, net1, c, it);
    assert net1.wires[c].toClient + WaitingFor(net1, c) == [it];
    b, net2 := WaitingReplyIsDelivered(reg, net1, c);
    TwoVisits(net, x);
    assert Popped(r) == x.base && r[|r| - 1] == LocalService(x.service);
    var at := Station(x.n, x.service);
    assert Return(it.history, at) == Homeward(WholeTrail(net, x), x.base, [at]);
    var inbox := net2.sites[x.n].inbox;
    assert inbox[|inbox| - 1] == Delivery(x.service, Event(x.answer, x.base, x.content), Homeward(WholeTrail(net, x), x.base, [at]));
  }

  lemma TwoVisits(net: Net, x: Exchange)
    requires x.m < |net.sites| && net.sites[x.m].gen < MAX_ID
    ensures WayBack(WholeTrail(net, x)) == [Station(x.n, x.service)]
  {
    var t := WholeTrail(net, x);
    assert WayBack(t[..1]) == [];
  }
}
