/** The other half of the retrace: while the connections of its trail are up, a reply does come home. */
module RpcHome {
  import opened Prelude
  import opened PackedNumber
  import opened Routes
  import opened TypedCodec
  import opened EventCodec
  import opened Rpc
  import opened RpcNet
  import opened RpcRetrace
  import opened RpcFits
  import RpcStall

  // ---------------------------------------------------------------- runs put together

  ghost predicate FromTo(reg: Registry, b: Behaviour, net: Net, net': Net)
  {
    IsRun(reg, b) && b.states[0] == net && b.states[|b.steps|] == net'
  }

  function Still(net: Net): Behaviour
  {
    Behaviour([net], [])
  }

  function Joined(a: Behaviour, b: Behaviour): Behaviour
    requires b.states != []
  {
    Behaviour(a.states + b.states[1..], a.steps + b.steps)
  }

  lemma OneStep(reg: Registry, net: Net, s: Step)
    requires Enabled(reg, net, s)
    ensures FromTo(reg, Behaviour([net, Next(reg, net, s)], [s]), net, Next(reg, net, s))
  {
  }

  lemma JoinRuns(reg: Registry, a: Behaviour, b: Behaviour, x: Net, y: Net, z: Net)
    requires FromTo(reg, a, x, y) && FromTo(reg, b, y, z)
    ensures FromTo(reg, Joined(a, b), x, z)
  {
    var j := Joined(a, b);
    forall i: nat | i < |j.steps|
      ensures StepAt(reg, j, i)
    {
      if i < |a.steps| {
        SameStep(reg, a, i, j, i);
      } else {
        SameStep(reg, b, i - |a.steps|, j, i);
      }
    }
  }

  lemma SameStep(reg: Registry, a: Behaviour, i: nat, b: Behaviour, k: nat)
    requires IsRun(reg, a) && i < |a.steps| && k < |b.steps| && |b.states| == |b.steps| + 1
    requires a.states[i] == b.states[k] && a.steps[i] == b.steps[k] && a.states[i + 1] == b.states[k + 1]
    ensures StepAt(reg, b, k)
  {
    assert StepAt(reg, a, i);
  }

  lemma StillIsRun(reg: Registry, net: Net)
    ensures FromTo(reg, Still(net), net, net)
  {
  }

  /** One run after another. */
  lemma Compose(reg: Registry, a: Behaviour, b: Behaviour, net: Net, net1: Net, net2: Net) returns (c: Behaviour)
    requires FromTo(reg, a, net, net1) && FromTo(reg, b, net1, net2)
    ensures FromTo(reg, c, net, net2)
  {
    JoinRuns(reg, a, b, net, net1, net2);
    c := Joined(a, b);
  }

  /** One more step at the end of a run. */
  lemma Then(reg: Registry, b: Behaviour, net: Net, net1: Net, s: Step, net2: Net) returns (b': Behaviour)
    requires FromTo(reg, b, net, net1) && Enabled(reg, net1, s) && Next(reg, net1, s) == net2
    ensures FromTo(reg, b', net, net2)
  {
    hide Next, Enabled;
    OneStep(reg, net1, s);
    var step := Behaviour([net1, net2], [s]);
    JoinRuns(reg, b, step, net, net1, net2);
    b' := Joined(b, step);
  }

  lemma RunKeepsInv(reg: Registry, b: Behaviour, net: Net, net': Net)
    requires FromTo(reg, b, net, net') && Inv(reg, net)
    ensures Inv(reg, net')
  {
    hide Next, Enabled, Inv;
    RunKeeps(reg, b, |b.steps|);
  }

  /** A packet the client takes without closing the socket. */
  ghost predicate Harmless(reg: Registry, net: Net, c: nat, it: Item)
    requires OnWire(net, c)
  {
    |it.bytes| <= net.sites[net.ends[c].client].limit &&
    OnPacketOnConnector(reg, ClientEsi(net, c), it.bytes) != CloseSocket
  }

  ghost predicate AllHarmless(reg: Registry, net: Net, c: nat, items: seq<Item>)
    requires OnWire(net, c)
  {
    forall i: nat :: i < |items| ==> Harmless(reg, net, c, items[i])
  }

  /** The packets that are on their way to the client of `c`, or about to be. */
  function Pending(net: Net, c: nat): seq<Item>
    requires OnWire(net, c)
  {
    var st := net.sites[net.ends[c].server].rpc;
    net.wires[c].toClient + if net.ends[c].serverId in st.sock2sess then st.sock2sess[net.ends[c].serverId].outCache else []
  }

  /** Connection `c` is up, its session at the server is in place and nothing before us will bring it down. */
  ghost predicate Intact(reg: Registry, net: Net, c: nat)
  {
    && OnWire(net, c) && net.wires[c].open && AllHarmless(reg, net, c, Pending(net, c))
    && var st := net.sites[net.ends[c].server].rpc;
       && net.ends[c].serverId in st.sock2sess
       && st.sock2sess[net.ends[c].serverId].esi == Some(ServerEsi(net, c))
  }

  ghost predicate LegUp(reg: Registry, net: Net, a: Visit, b: Visit)
  {
    b.via.Some? ==>
      exists c: nat :: Intact(reg, net, c) &&
        net.ends[c] == End(a.at.node, net.ends[c].clientId, net.ends[c].addr, b.at.node, b.via.value)
  }

  ghost predicate TrailUp(reg: Registry, net: Net, trail: seq<Visit>)
  {
    forall i :: 0 < i < |trail| ==> LegUp(reg, net, trail[i - 1], trail[i])
  }

  ghost predicate SameLimits(net: Net, net': Net)
  {
    |net'.sites| == |net.sites| && forall m: nat :: m < |net.sites| ==> net'.sites[m].limit == net.sites[m].limit
  }

  /** Same connections, in a condition as good. */
  ghost predicate SameUp(reg: Registry, net: Net, net': Net)
  {
    net'.ends == net.ends && SameLimits(net, net') && forall c: nat :: Intact(reg, net, c) ==> Intact(reg, net', c)
  }

  lemma TrailStaysUp(reg: Registry, net: Net, net': Net, trail: seq<Visit>)
    requires TrailUp(reg, net, trail) && SameUp(reg, net, net')
    ensures TrailUp(reg, net', trail)
  {
    hide Intact, SameLimits;
    forall i | 0 < i < |trail|
      ensures LegUp(reg, net', trail[i - 1], trail[i])
    {
      assert LegUp(reg, net, trail[i - 1], trail[i]);
    }
  }

  /** Node `n` has just received `d`, and the connections are as good as before. */
  ghost predicate JustGot(reg: Registry, net: Net, net': Net, n: nat, d: Delivery)
  {
    && SameUp(reg, net, net') && n < |net'.sites|
    && net'.sites[n].inbox != [] && net'.sites[n].inbox[|net'.sites[n].inbox| - 1] == d
  }

  lemma GivenUp(reg: Registry, net: Net, n: nat, d: Delivery)
    requires n < |net.sites|
    ensures JustGot(reg, net, Give(net, n, d), n, d)
  {
    var net' := Give(net, n, d);
    forall c: nat | Intact(reg, net, c)
      ensures Intact(reg, net', c)
    {
      assert net'.sites[net.ends[c].server].rpc == net.sites[net.ends[c].server].rpc;
      assert Pending(net', c) == Pending(net, c);
      assert forall it :: Harmless(reg, net, c, it) ==> Harmless(reg, net', c, it);
    }
  }

  // ---------------------------------------------------------------- onto the wire

  /** The wires with these packets added to those for the client of `c`. */
  function Added(wires: seq<Wire>, c: nat, items: seq<Item>): seq<Wire>
    requires c < |wires|
  {
    wires[c := wires[c].(toClient := wires[c].toClient + items)]
  }

  lemma {:induction false} EmitToClient(net: Net, n: nat, outs: seq<Output<Item>>, c: nat, esi: Esi, items: seq<Item>)
    requires n < |net.sites| && c < |net.wires| && net.wires[c].open && esi.fd == c && esi.request.None?
    requires |outs| == |items| && forall i: nat :: i < |outs| ==>
               outs[i].SendTo? && outs[i].esi == esi && outs[i].packet == items[i]
    ensures Emit(net, n, outs) == net.(wires := Added(net.wires, c, items))
    decreases |outs|
  {
    if outs == [] {
      assert net.wires[c].toClient + items == net.wires[c].toClient;
      assert Added(net.wires, c, items) == net.wires;
    } else {
      assert outs[0].SendTo?;
      var net1 := net.(wires := Added(net.wires, c, [items[0]]));
      EmitToClient(net1, n, outs[1..], c, esi, items[1..]);
      assert items == [items[0]] + items[1..];
      Assoc(net.wires[c].toClient, [items[0]], items[1..]);
      assert Added(Added(net.wires, c, [items[0]]), c, items[1..]) == Added(net.wires, c, items);
    }
  }

  /** Passing to the socket of an intact connection puts the packet on it, behind all that is pending. */
  lemma PassedOnWire(reg: Registry, net: Net, c: nat, it: Item)
    requires Intact(reg, net, c)
    ensures var n := net.ends[c].server;
            var r := OnPass(net.sites[n].rpc, net.ends[c].serverId, it);
            var net' := Handled(net, n, r);
            && net'.ends == net.ends
            && net'.wires == net.wires[c := net.wires[c].(toClient := Pending(net, c) + [it])]
            && net'.sites == net.sites[n := net.sites[n].(rpc := r.0)]
  {
    hide AllHarmless;
    var n := net.ends[c].server;
    var id := net.ends[c].serverId;
    var (st, outs) := OnPass(net.sites[n].rpc, id, it);
    var s := net.sites[n].rpc.sock2sess[id];
    var net1 := net.(sites := net.sites[n := net.sites[n].(rpc := st)]);
    EmitToClient(net1, n, outs, c, ServerEsi(net, c), s.outCache + [it]);
    Assoc(net.wires[c].toClient, s.outCache, [it]);
  }

  // ---------------------------------------------------------------- off the wire

  /** The client has taken everything; elsewhere only its inbox is different. */
  ghost predicate Drained(net: Net, net': Net, c: nat)
    requires OnWire(net, c)
  {
    && net'.owner == net.owner && net'.ends == net.ends
    && net'.wires == net.wires[c := net.wires[c].(toClient := [])]
    && |net'.sites| == |net.sites|
    && forall m: nat :: m < |net.sites| ==>
         net'.sites[m].rpc == net.sites[m].rpc && net'.sites[m].limit == net.sites[m].limit
  }

  lemma TakeOne(reg: Registry, net: Net, c: nat)
    requires OnWire(net, c) && net.wires[c].toClient != [] && Harmless(reg, net, c, net.wires[c].toClient[0])
    ensures Enabled(reg, net, ClientReads(c))
    ensures var net' := Next(reg, net, ClientReads(c));
            var q := net.wires[c].toClient;
            && net'.owner == net.owner && net'.ends == net.ends
            && net'.wires == net.wires[c := net.wires[c].(toClient := q[1..])]
            && |net'.sites| == |net.sites|
            && (forall m: nat :: m < |net.sites| ==>
                  net'.sites[m].rpc == net.sites[m].rpc && net'.sites[m].limit == net.sites[m].limit)
            && (OnPacketOnConnector(reg, ClientEsi(net, c), q[0].bytes).Deliver? ==>
                  var r := OnPacketOnConnector(reg, ClientEsi(net, c), q[0].bytes);
                  var at := Station(net.ends[c].client, r.service);
                  var inbox := net'.sites[at.node].inbox;
                  inbox != [] && inbox[|inbox| - 1] == Delivery(r.service, r.ev, Return(q[0].history, at)))
  {
    hide OnPacketOnConnector;
  }

  /** A queue of harmless packets can be read to its end; what the last one delivers is the last to arrive. */
  lemma {:induction false} Drain(reg: Registry, net: Net, c: nat) returns (b: Behaviour, net': Net)
    requires OnWire(net, c) && net.wires[c].toClient != [] && AllHarmless(reg, net, c, net.wires[c].toClient)
    ensures FromTo(reg, b, net, net') && Drained(net, net', c)
    ensures var q := net.wires[c].toClient;
            var r := OnPacketOnConnector(reg, ClientEsi(net, c), q[|q| - 1].bytes);
            r.Deliver? ==>
              var at := Station(net.ends[c].client, r.service);
              var inbox := net'.sites[at.node].inbox;
              inbox != [] && inbox[|inbox| - 1] == Delivery(r.service, r.ev, Return(q[|q| - 1].history, at))
    decreases |net.wires[c].toClient|
  {
    hide Next, Enabled, OnPacketOnConnector;
    var q := net.wires[c].toClient;
    assert Harmless(reg, net, c, q[0]);
    TakeOne(reg, net, c);
    OneStep(reg, net, ClientReads(c));
    var net1 := Next(reg, net, ClientReads(c));
    var first := Behaviour([net, net1], [ClientReads(c)]);
    if |q| == 1 {
      b, net' := first, net1;
      assert q[1..] == [];
    } else {
      forall i: nat | i < |q[1..]| ensures Harmless(reg, net1, c, q[1..][i]) {
        assert Harmless(reg, net, c, q[i + 1]);
      }
      var rest, last := Drain(reg, net1, c);
      JoinRuns(reg, first, rest, net, net1, last);
      b, net' := Joined(first, rest), last;
    }
  }

  /** Once drained, a connection is as good as it was, and so are the others. */
  lemma DrainedStaysUp(reg: Registry, net: Net, c: nat, it: Item, net1: Net, net': Net)
    requires Intact(reg, net, c) && net1.ends == net.ends && OnWire(net1, c) && Drained(net1, net', c)
    requires var n := net.ends[c].server;
             && net1.wires == net.wires[c := net.wires[c].(toClient := Pending(net, c) + [it])]
             && net1.sites == net.sites[n := net.sites[n].(rpc := OnPass(net.sites[n].rpc, net.ends[c].serverId, it).0)]
    ensures SameUp(reg, net, net')
  {
    forall e: nat | Intact(reg, net, e)
      ensures Intact(reg, net', e)
    {
      StillIntact(reg, net, c, it, net', e);
    }
  }

  lemma StillIntact(reg: Registry, net: Net, c: nat, it: Item, net': Net, e: nat)
    requires Intact(reg, net, c) && Intact(reg, net, e) && net'.ends == net.ends && SameLimits(net, net')
    requires net'.wires == net.wires[c := net.wires[c].(toClient := [])]
    requires var n := net.ends[c].server;
             && net'.sites[n].rpc == OnPass(net.sites[n].rpc, net.ends[c].serverId, it).0
             && forall m: nat :: m < |net.sites| && m != n ==> net'.sites[m].rpc == net.sites[m].rpc
    ensures Intact(reg, net', e)
  {
    hide OnPacketOnConnector;
    assert ServerEsi(net', e) == ServerEsi(net, e) && ClientEsi(net', e) == ClientEsi(net, e);
    if e == c {
      assert Pending(net', e) == [];
    } else {
      assert Pending(net', e) == Pending(net, e);
      forall i: nat | i < |Pending(net, e)| ensures Harmless(reg, net', e, Pending(net, e)[i]) {
        assert Harmless(reg, net, e, Pending(net, e)[i]);
      }
    }
  }

  /** The client takes what is pending, then the packet, and hands it to the service it names. */
  lemma ReadBack(reg: Registry, net: Net, c: nat, it: Item) returns (b: Behaviour, net': Net)
    requires Intact(reg, net, c) && it.packet.Pass? && it.bytes == PackPacket(it.packet)
    requires |it.bytes| <= net.sites[net.ends[c].client].limit
    requires Registered(reg, it.packet.ev) && ListenerFree(it.packet.ev.route)
    requires var r := it.packet.ev.route; r != [] && r[|r| - 1].LocalService?
    ensures var n := net.ends[c].server;
            FromTo(reg, b, Handled(net, n, OnPass(net.sites[n].rpc, net.ends[c].serverId, it)), net')
    ensures var r := it.packet.ev.route;
            var svc := r[|r| - 1].service;
            JustGot(reg, net, net', net.ends[c].client,
                    Delivery(svc, it.packet.ev.(route := Popped(r)), Return(it.history, Station(net.ends[c].client, svc))))
  {
    hide Handled, OnPass, FromTo, SameUp, AllHarmless, Harmless, OnPacketOnConnector, Pending, Registered, PackPacket;
    var n := net.ends[c].server;
    var net1 := Handled(net, n, OnPass(net.sites[n].rpc, net.ends[c].serverId, it));
    PassedOnWire(reg, net, c, it);
    ReadIsDelivered(reg, net, c, it);
    var q := net1.wires[c].toClient;
    assert q[|q| - 1] == it;
    assert AllHarmless(reg, net1, c, q) by { StillHarmless(reg, net, net1, c, it); }
    b, net' := Drain(reg, net1, c);
    DrainedStaysUp(reg, net, c, it, net1, net');
  }

  lemma StillHarmless(reg: Registry, net: Net, net1: Net, c: nat, it: Item)
    requires Intact(reg, net, c) && Harmless(reg, net, c, it) && net1.ends == net.ends && OnWire(net1, c)
    requires net1.sites[net.ends[c].client].limit == net.sites[net.ends[c].client].limit
    ensures AllHarmless(reg, net1, c, Pending(net, c) + [it])
  {
    hide OnPacketOnConnector, Pending;
    var q := Pending(net, c);
    forall i: nat | i < |q + [it]| ensures Harmless(reg, net1, c, (q + [it])[i]) {
      if i < |q| {
        assert Harmless(reg, net, c, q[i]);
      }
    }
  }

  /** What the connector makes of the bytes of a reply. */
  lemma ReadIsDelivered(reg: Registry, net: Net, c: nat, it: Item)
    requires OnWire(net, c) && it.packet.Pass? && it.bytes == PackPacket(it.packet)
    requires |it.bytes| <= net.sites[net.ends[c].client].limit
    requires Registered(reg, it.packet.ev) && ListenerFree(it.packet.ev.route)
    requires var r := it.packet.ev.route; r != [] && r[|r| - 1].LocalService?
    ensures var r := it.packet.ev.route;
            OnPacketOnConnector(reg, ClientEsi(net, c), it.bytes) ==
            Deliver(r[|r| - 1].service, it.packet.ev.(route := Popped(r)))
    ensures Harmless(reg, net, c, it)
  {
    hide PackPacket, UnpackPacket;
    UnpackPackPacket(reg, it.packet);
  }

  // ---------------------------------------------------------------- one leg after another

  /** Where a reply that left visit `j` is received. */
  function Received(ev: Event, h: History): Delivery
    requires h.Homeward? && |h.back| + 1 < |h.trail|
  {
    var j := |h.trail| - 1 - |h.back|;
    Delivery(h.trail[j - 1].at.service, ev.(route := Popped(RouteOf(h.base, h.trail[..j]))), Return(h, h.trail[j - 1].at))
  }

  /** The delivery a passed reply leads to, told from its route alone. */
  lemma ReceivedByRoute(reg: Registry, ends: seq<End>, n: nat, ev: Event, h: History)
    requires h.Homeward? && ToPass(reg, ends, n, ev, h)
    ensures var v := h.trail[|h.trail| - 2 - |h.back|];
            var via := h.trail[|h.trail| - 1 - |h.back|].via;
            var r := if via.None? then ev.route else Popped(ev.route);
            && ev.route != [] && ev.route[|ev.route| - 1] == (if via.None? then LocalService(v.at.service) else RemoteAddr(via.value))
            && r != [] && r[|r| - 1] == LocalService(v.at.service)
            && Received(ev, h) == Delivery(v.at.service, ev.(route := Popped(r)), Return(h, v.at))
            && (via.None? ==> v.at.node == n)
  {
    hide RouteOf, Registered, CameFrom, Readable, BackOk;
    var j := |h.trail| - 1 - |h.back|;
    HopBack(h.base, h.trail, j);
    assert Leg(ends, h.trail[j - 1], h.trail[j]);
  }

  /** No packet of the reply is longer than the Oscar service that reads it allows. */
  ghost predicate Fits(net: Net, trail: seq<Visit>, base: Route, id: int32, body: seq<Value>)
  {
    forall j: nat :: 0 < j < |trail| && trail[j].via.Some? && trail[j - 1].at.node < |net.sites| ==>
      |LegBytes(trail, base, id, body, j)| <= net.sites[trail[j - 1].at.node].limit
  }

  /** One leg of the way back: from the node of visit `j` to that of visit j - 1. */
  lemma OneLeg(reg: Registry, net: Net, n: nat, ev: Event, h: History) returns (b: Behaviour, net': Net)
    requires n < |net.sites| && h.Homeward? && ToPass(reg, net.ends, n, ev, h)
    requires TrailUp(reg, net, h.trail) && Fits(net, h.trail, h.base, ev.id, ev.body)
    ensures FromTo(reg, b, PassBack(net, n, ev, h), net')
    ensures JustGot(reg, net, net', h.trail[|h.trail| - 2 - |h.back|].at.node, Received(ev, h))
  {
    hide Handled, OnPass, Next, Enabled;
    var j := |h.trail| - 1 - |h.back|;
    var v := h.trail[j - 1];
    if h.trail[j].via.None? {
      net' := LocalLeg(reg, net, n, ev, h);
      b := Still(net');
    } else {
      hide PassBack, LegBytes;
      ReceivedByRoute(reg, net.ends, n, ev, h);
      assert LegUp(reg, net, v, h.trail[j]);
      var id := h.trail[j].via.value;
      var c: nat :| Intact(reg, net, c) && net.ends[c] == End(v.at.node, net.ends[c].clientId, net.ends[c].addr, n, id);
      LegIsPacked(reg, net.ends, n, ev, h);
      LegIsReadable(reg, net.ends, n, ev, h);
      b, net' := RemoteLeg(reg, net, c, ev, h);
    }
  }

  lemma LegIsPacked(reg: Registry, ends: seq<End>, n: nat, ev: Event, h: History)
    requires h.Homeward? && ToPass(reg, ends, n, ev, h) && h.trail[|h.trail| - 1 - |h.back|].via.Some?
    ensures LegBytes(h.trail, h.base, ev.id, ev.body, |h.trail| - 1 - |h.back|) ==
            PackPacket(Pass(ev.(route := Popped(ev.route))))
  {
    hide PackPacket;
    HopBack(h.base, h.trail, |h.trail| - 1 - |h.back|);
  }

  /** The request was read on its way, so the reply can be. */
  lemma LegIsReadable(reg: Registry, ends: seq<End>, n: nat, ev: Event, h: History)
    requires h.Homeward? && ToPass(reg, ends, n, ev, h) && h.trail[|h.trail| - 1 - |h.back|].via.Some?
    ensures ListenerFree(ev.route)
  {
    RouteIsListenerFree(h.base, h.trail[..|h.trail| - |h.back|]);
  }

  lemma LocalLeg(reg: Registry, net: Net, n: nat, ev: Event, h: History) returns (net': Net)
    requires n < |net.sites| && h.Homeward? && ToPass(reg, net.ends, n, ev, h)
    requires h.trail[|h.trail| - 1 - |h.back|].via.None?
    ensures net' == PassBack(net, n, ev, h)
    ensures JustGot(reg, net, net', h.trail[|h.trail| - 2 - |h.back|].at.node, Received(ev, h))
  {
    hide Handled, OnPass, SameUp;
    ReceivedByRoute(reg, net.ends, n, ev, h);
    net' := Give(net, n, Received(ev, h));
    GivenUp(reg, net, n, Received(ev, h));
  }

  lemma RemoteLeg(reg: Registry, net: Net, c: nat, ev: Event, h: History) returns (b: Behaviour, net': Net)
    requires Intact(reg, net, c) && ev.route != [] && ev.route[|ev.route| - 1] == RemoteAddr(net.ends[c].serverId)
    requires Registered(reg, ev) && ListenerFree(ev.route)
    requires |PackPacket(Pass(ev.(route := Popped(ev.route))))| <= net.sites[net.ends[c].client].limit
    requires var r := Popped(ev.route); r != [] && r[|r| - 1].LocalService?
    ensures FromTo(reg, b, PassBack(net, net.ends[c].server, ev, h), net')
    ensures var r := Popped(ev.route);
            var svc := r[|r| - 1].service;
            JustGot(reg, net, net', net.ends[c].client,
                    Delivery(svc, ev.(route := Popped(r)), Return(h, Station(net.ends[c].client, svc))))
  {
    hide FromTo, SameUp, Handled, OnPass, PackPacket;
    var n, id := net.ends[c].server, net.ends[c].serverId;
    var popped := ev.(route := Popped(ev.route));
    var it := Item(PackPacket(Pass(popped)), Pass(popped), ToSocket(n, id), h);
    b, net' := ReadBack(reg, net, c, it);
    assert PassBack(net, n, ev, h) == Handled(net, n, OnPass(net.sites[n].rpc, id, it));
  }

  /** A packet over the limit, passed to an intact connection, is stuck behind all that is pending. */
  lemma TooLongStalls(reg: Registry, net: Net, c: nat, it: Item)
    requires Intact(reg, net, c) && |it.bytes| > net.sites[net.ends[c].client].limit
    ensures var n := net.ends[c].server;
            var net' := Handled(net, n, OnPass(net.sites[n].rpc, net.ends[c].serverId, it));
            RpcStall.StalledAt(net', c, true, [it], |Pending(net, c)|) && RpcStall.Barred(net', c, true, |Pending(net, c)|)
  {
    hide Handled, OnPass, Pending;
    PassedOnWire(reg, net, c, it);
    var q := Pending(net, c) + [it];
    assert q[|q| - 1..] == [it];
    var n := net.ends[c].server;
    RpcStall.StalledIsBarred(Handled(net, n, OnPass(net.sites[n].rpc, net.ends[c].serverId, it)), c, true, [it], |Pending(net, c)|);
  }

  // ---------------------------------------------------------------- which leg decides

  lemma {:induction false} PackHopsAppend(r: Route, h: Hop)
    ensures PackHops(r + [h]) == PackHops(r) + PackHop(h)
  {
    if r == [] {
      assert r + [h] == [h];
      assert PackHops([h]) == PackHop(h) + PackHops([]);
    } else {
      PackHopsAppend(r[1..], h);
      assert (r + [h])[1..] == r[1..] + [h];
      Assoc(PackHop(r[0]), PackHops(r[1..]), PackHop(h));
    }
  }

  lemma {:induction false} HighGroupsGrow(m: nat, n: nat)
    requires m <= n
    ensures |HighGroups(m)| <= |HighGroups(n)|
  {
    if m > 0 {
      HighGroupsGrow(m / 128, n / 128);
    }
  }

  lemma PackGrows(n: nat)
    ensures |Pack(n)| <= |Pack(n + 1)|
  {
    HighGroupsGrow(n / 128, (n + 1) / 128);
  }

  lemma LongerRoute(r: Route, h: Hop)
    requires |r| + 1 < TWO_64
    ensures |PackRoute(r)| <= |PackRoute(r + [h])|
  {
    hide Pack, PackHop, PackHops;
    PackHopsAppend(r, h);
    PackGrows(|r|);
    assert |r| % TWO_64 == |r| && |r + [h]| % TWO_64 == |r| + 1;
  }

  lemma RouteShrinks(base: Route, trail: seq<Visit>)
    requires trail != [] && |RouteOf(base, trail)| < TWO_64
    ensures var before := RouteOf(base, trail[..|trail| - 1]);
            |before| < |RouteOf(base, trail)| && |PackRoute(before)| <= |PackRoute(RouteOf(base, trail))|
  {
    hide PackRoute;
    var r, v := RouteOf(base, trail[..|trail| - 1]), trail[|trail| - 1];
    if v.via.Some? {
      LongerRoute(r, RemoteAddr(v.via.value));
      LongerRoute(r + [RemoteAddr(v.via.value)], LocalService(v.at.service));
      assert r + HopsOf(v) == r + [RemoteAddr(v.via.value)] + [LocalService(v.at.service)];
    } else {
      LongerRoute(r, LocalService(v.at.service));
    }
  }

  /** The way back only takes hops off, so no packet of it is longer than the first. */
  lemma {:induction false} LegsShrink(trail: seq<Visit>, base: Route, id: int32, body: seq<Value>, j: nat, k: nat)
    requires j <= k <= |trail| && |RouteOf(base, trail[..k])| < TWO_64
    ensures |LegBytes(trail, base, id, body, j)| <= |LegBytes(trail, base, id, body, k)|
    decreases k
  {
    hide RouteOf, PackRoute, EncodeAll, Pack;
    if j < k {
      RouteShrinks(base, trail[..k]);
      assert trail[..k][..k - 1] == trail[..k - 1];
      LegsShrink(trail, base, id, body, j, k - 1);
    }
  }

  /** If the first packet of the way back is within every limit, all are. */
  lemma FirstLegDecides(net: Net, trail: seq<Visit>, base: Route, id: int32, body: seq<Value>, limit: nat)
    requires trail != [] && |RouteOf(base, trail)| < TWO_64
    requires forall m: nat :: m < |net.sites| ==> limit <= net.sites[m].limit
    requires |LegBytes(trail, base, id, body, |trail| - 1)| <= limit
    ensures Fits(net, trail, base, id, body)
  {
    hide LegBytes;
    RouteShrinks(base, trail);
    forall j: nat | 0 < j < |trail| && trail[j].via.Some? && trail[j - 1].at.node < |net.sites|
      ensures |LegBytes(trail, base, id, body, j)| <= net.sites[trail[j - 1].at.node].limit
    {
      LegsShrink(trail, base, id, body, j, |trail| - 1);
    }
  }

  // ---------------------------------------------------------------- all the way

  /** The sender of the request has the reply, with the route it sent the request under. */
  ghost predicate Home(net: Net, trail: seq<Visit>, base: Route, id: int32, body: seq<Value>)
  {
    trail != [] && trail[0].at.node < |net.sites| &&
    Delivery(trail[0].at.service, Event(id, base, body), Homeward(trail, base, WayBack(trail))) in
      net.sites[trail[0].at.node].inbox
  }

  lemma FullyBack(trail: seq<Visit>, back: seq<Station>)
    requires BackOk(trail, back) && |back| == |trail| - 1
    ensures back == WayBack(trail)
  {
    BackIsWayBack(trail, back);
    if |trail| > 1 {
      WayBackAt(trail, 0);
    }
  }

  /** A reply that is somewhere on its way back. */
  ghost predicate OnItsWay(reg: Registry, net: Net, n: nat, k: nat)
  {
    && Inv(reg, net) && n < |net.sites| && k < |net.sites[n].inbox|
    && var d := net.sites[n].inbox[k];
       d.history.Homeward? && TrailUp(reg, net, d.history.trail) && Registered(reg, d.ev) &&
       Fits(net, d.history.trail, d.history.base, d.ev.id, d.ev.body)
  }

  lemma {:induction false} HomeFrom(reg: Registry, net: Net, n: nat, k: nat) returns (b: Behaviour, net': Net)
    requires OnItsWay(reg, net, n, k)
    ensures FromTo(reg, b, net, net')
    ensures var d := net.sites[n].inbox[k];
            Home(net', d.history.trail, d.history.base, d.ev.id, d.ev.body)
    decreases |net.sites[n].inbox[k].history.trail| - |net.sites[n].inbox[k].history.back|
  {
    hide FromTo, TrailUp, Fits, Registered, Home, RouteOf;
    var d := net.sites[n].inbox[k];
    var h := d.history;
    assert SiteOk(reg, net.ends, n, net.sites[n]) && DeliveryOk(net.ends, n, d);
    if |h.back| == |h.trail| - 1 {
      b, net' := Still(net), net;
      StillIsRun(reg, net);
      FullyHome(reg, net, n, k);
    } else {
      hide OnItsWay;
      var a, net2, m, k2 := Closer(reg, net, n, k);
      var rest: Behaviour;
      rest, net' := HomeFrom(reg, net2, m, k2);
      b := Compose(reg, a, rest, net, net2, net');
    }
  }

  lemma FullyHome(reg: Registry, net: Net, n: nat, k: nat)
    requires Inv(reg, net) && n < |net.sites| && k < |net.sites[n].inbox|
    requires var h := net.sites[n].inbox[k].history; h.Homeward? && |h.back| == |h.trail| - 1
    ensures var d := net.sites[n].inbox[k];
            Home(net, d.history.trail, d.history.base, d.ev.id, d.ev.body)
  {
    var d := net.sites[n].inbox[k];
    var h := d.history;
    assert SiteOk(reg, net.ends, n, net.sites[n]) && DeliveryOk(net.ends, n, d);
    FullyBack(h.trail, h.back);
    LastHop(h.base, h.trail[..1]);
    assert h.trail[..1][..0] == [];
  }

  /** The service a reply has reached hands it back, and it is one service closer. */
  lemma Closer(reg: Registry, net: Net, n: nat, k: nat) returns (a: Behaviour, net': Net, m: nat, k': nat)
    requires OnItsWay(reg, net, n, k)
    requires var h := net.sites[n].inbox[k].history; |h.back| + 1 < |h.trail|
    ensures FromTo(reg, a, net, net') && OnItsWay(reg, net', m, k')
    ensures var d, d' := net.sites[n].inbox[k], net'.sites[m].inbox[k'];
            d'.history == d.history.(back := d'.history.back) && |d'.history.back| == |d.history.back| + 1 &&
            d'.ev.id == d.ev.id && d'.ev.body == d.ev.body
  {
    hide PassBack, Inv, ToPass, FromTo, TrailUp, Fits, Registered, RouteOf;
    var d := net.sites[n].inbox[k];
    var s := HandBack(n, k, d.ev.id, d.ev.body);
    assert Enabled(reg, net, s);
    HandBackIsDue(reg, net, s);
    assert Next(reg, net, s) == PassBack(net, n, d.ev, d.history);
    a, net', m, k' := LegAfter(reg, net, s, n, d.ev, d.history);
  }

  /** A step that passes the event, then the leg it opens. */
  lemma LegAfter(reg: Registry, net: Net, s: Step, n: nat, ev: Event, h: History)
      returns (a: Behaviour, net': Net, m: nat, k': nat)
    requires Inv(reg, net) && Enabled(reg, net, s) && n < |net.sites|
    requires h.Homeward? && ToPass(reg, net.ends, n, ev, h) && TrailUp(reg, net, h.trail)
    requires Fits(net, h.trail, h.base, ev.id, ev.body)
    requires Next(reg, net, s) == PassBack(net, n, ev, h)
    ensures FromTo(reg, a, net, net') && OnItsWay(reg, net', m, k')
    ensures net'.sites[m].inbox[k'] == Received(ev, h)
  {
    hide Next, PassBack, Enabled, Inv, FromTo, TrailUp, Fits, SameUp, Received, OnItsWay, Registered, RouteOf;
    var net1 := PassBack(net, n, ev, h);
    StillIsRun(reg, net);
    a := Then(reg, Still(net), net, net, s, net1);
    var leg: Behaviour;
    leg, net' := OneLeg(reg, net, n, ev, h);
    a := Compose(reg, a, leg, net, net1, net');
    RunKeepsInv(reg, a, net, net');
    m := h.trail[|h.trail| - 2 - |h.back|].at.node;
    k' := |net'.sites[m].inbox| - 1;
    StillOnItsWay(reg, net, net', n, ev, h);
  }

  /** What is received is the reply with a shorter route, one service closer. */
  lemma ReceivedFacts(reg: Registry, ends: seq<End>, n: nat, ev: Event, h: History)
    requires h.Homeward? && ToPass(reg, ends, n, ev, h)
    ensures var d := Received(ev, h);
            && d.history.Homeward? && d.history.trail == h.trail && d.history.base == h.base && |d.history.back| == |h.back| + 1
            && d.ev.id == ev.id && d.ev.body == ev.body && Registered(reg, d.ev)
  {
    hide RouteOf;
    ReceivedByRoute(reg, ends, n, ev, h);
  }

  lemma FitsStays(net: Net, net': Net, trail: seq<Visit>, base: Route, id: int32, body: seq<Value>)
    requires Fits(net, trail, base, id, body) && SameLimits(net, net')
    ensures Fits(net', trail, base, id, body)
  {
    hide LegBytes;
  }

  lemma StillOnItsWay(reg: Registry, net: Net, net': Net, n: nat, ev: Event, h: History)
    requires h.Homeward? && ToPass(reg, net.ends, n, ev, h) && TrailUp(reg, net, h.trail)
    requires Fits(net, h.trail, h.base, ev.id, ev.body)
    requires Inv(reg, net') && JustGot(reg, net, net', h.trail[|h.trail| - 2 - |h.back|].at.node, Received(ev, h))
    ensures var m := h.trail[|h.trail| - 2 - |h.back|].at.node;
            OnItsWay(reg, net', m, |net'.sites[m].inbox| - 1)
  {
    hide Inv, Intact, TrailUp, Fits, Registered, Received, RouteOf;
    TrailStaysUp(reg, net, net', h.trail);
    FitsStays(net, net', h.trail, h.base, ev.id, ev.body);
    ReceivedFacts(reg, net.ends, n, ev, h);
  }

  /** The last service answers: the answer is to be passed, by the route without its last hop. */
  lemma AnswerIsPassedBack(reg: Registry, net: Net, n: nat, k: nat, id: int32, body: seq<Value>)
    requires Inv(reg, net) && Enabled(reg, net, Answer(n, k, id, body)) && |net.sites[n].inbox[k].history.trail| > 1
    ensures var d := net.sites[n].inbox[k];
            var ev, h := Event(id, Popped(d.ev.route), body), Homeward(d.history.trail, d.history.base, []);
            ToPass(reg, net.ends, n, ev, h) && Next(reg, net, Answer(n, k, id, body)) == PassBack(net, n, ev, h)
  {
    hide PassBack, Linked, Registered, RouteOf;
    var d := net.sites[n].inbox[k];
    AnswerIsDue(reg, net, Answer(n, k, id, body));
    assert SiteOk(reg, net.ends, n, net.sites[n]) && DeliveryOk(net.ends, n, d);
    LastHop(d.history.base, d.history.trail);
  }

  /**
   Whatever chain of services a request went through, on any number of nodes: when the last one
   answers it, the connections in between are up, with nothing on them that brings them down, and no
   packet of the answer is too long for its reader, there is a run that brings the answer back to the
   first, through all the services in reverse order, with the route of the first restored.
   */
  lemma ReplyComesHome(reg: Registry, net: Net, n: nat, k: nat, id: int32, body: seq<Value>)
      returns (b: Behaviour, net': Net)
    requires Inv(reg, net) && n < |net.sites| && k < |net.sites[n].inbox|
    requires var d := net.sites[n].inbox[k];
             && d.history.Outward? && |d.history.trail| > 1 && TrailUp(reg, net, d.history.trail)
             && Registered(reg, Event(id, d.ev.route, body))
             && Fits(net, d.history.trail, d.history.base, id, body)
    ensures FromTo(reg, b, net, net')
    ensures var d := net.sites[n].inbox[k];
            Home(net', d.history.trail, d.history.base, id, body)
  {
    hide PassBack, Next, Inv, FromTo, TrailUp, Fits, Registered, Home, OnItsWay, Received;
    var d := net.sites[n].inbox[k];
    var s := Answer(n, k, id, body);
    assert Enabled(reg, net, s);
    hide Enabled;
    var ev, h := Event(id, Popped(d.ev.route), body), Homeward(d.history.trail, d.history.base, []);
    AnswerIsPassedBack(reg, net, n, k, id, body);
    var a, net2, m, k2 := LegAfter(reg, net, s, n, ev, h);
    ReceivedFacts(reg, net.ends, n, ev, h);
    var rest: Behaviour;
    rest, net' := HomeFrom(reg, net2, m, k2);
    b := Compose(reg, a, rest, net, net2, net');
  }
}
