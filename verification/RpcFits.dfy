/** Replies cross a connection only in packets that their reader takes. */
module RpcFits {
  import opened Prelude
  import opened TypedCodec
  import opened Routes
  import opened EventCodec
  import opened Dispatch
  import opened Rpc
  import opened RpcNet
  import opened RpcRetrace

  /** The packet of the reply that takes leg `j`, from visit `j` to the one before. */
  function LegBytes(trail: seq<Visit>, base: Route, id: int32, body: seq<Value>, j: nat): Bytes
    requires j <= |trail|
  {
    PackPacket(Pass(Event(id, RouteOf(base, trail[..j]), body)))
  }

  /** If a reply came over a connection last, its packet was within the limit of the node. */
  ghost predicate CameFitting(limit: nat, d: Delivery)
  {
    d.history.Homeward? && 0 < |d.history.back| < |d.history.trail| ==>
      var h := d.history;
      var j := |h.trail| - |h.back|;
      h.trail[j].via.Some? ==> |LegBytes(h.trail, h.base, d.ev.id, d.ev.body, j)| <= limit
  }

  ghost predicate AllCame(limit: nat, inbox: seq<Delivery>)
  {
    forall k: nat :: k < |inbox| ==> CameFitting(limit, inbox[k])
  }

  ghost predicate NetCame(net: Net)
  {
    forall n: nat :: n < |net.sites| ==> AllCame(net.sites[n].limit, net.sites[n].inbox)
  }

  /** No inbox changed. */
  ghost predicate Quiet(net: Net, net': Net)
  {
    |net'.sites| == |net.sites| &&
    forall n: nat :: n < |net.sites| ==>
      net'.sites[n].limit == net.sites[n].limit && net'.sites[n].inbox == net.sites[n].inbox
  }

  lemma QuietKeeps(net: Net, net': Net)
    requires NetCame(net) && Quiet(net, net')
    ensures NetCame(net')
  {
    hide AllCame;
  }

  lemma GiveCame(net: Net, n: nat, d: Delivery)
    requires NetCame(net) && n < |net.sites| && CameFitting(net.sites[n].limit, d)
    ensures NetCame(Give(net, n, d))
  {
    hide CameFitting;
  }

  lemma {:induction false} EmitIsQuiet(net: Net, n: nat, outs: seq<Output<Item>>)
    requires n < |net.sites|
    ensures Quiet(net, Emit(net, n, outs))
    decreases outs
  {
    hide RpcNet.Write;
    if outs != [] {
      match outs[0]
      case SendTo(_, esi, it) =>
        EmitIsQuiet(if esi.fd < |net.wires| then net.(wires := net.wires[esi.fd := RpcNet.Write(net.wires[esi.fd], esi, it)]) else net,
                    n, outs[1..]);
      case ConnectTo(id, addr) =>
        EmitIsQuiet(net.(sites := net.sites[n := net.sites[n].(connecting := net.sites[n].connecting + {(id, addr)})]), n, outs[1..]);
    }
  }

  lemma HandledIsQuiet(net: Net, n: nat, r: (State<Item>, seq<Output<Item>>))
    requires n < |net.sites|
    ensures Quiet(net, Handled(net, n, r))
  {
    hide Emit;
    EmitIsQuiet(net.(sites := net.sites[n := net.sites[n].(rpc := r.0)]), n, r.1);
  }

  lemma SendOutCame(net: Net, n: nat, to: Option<Addr>, dst: int32, ev: Event, h: History)
    requires NetCame(net) && n < |net.sites| && net.sites[n].gen < MAX_ID
    ensures NetCame(SendOut(net, n, to, dst, ev, h))
  {
    hide Handled, OnSend, PackPacket, NetCame, Give;
    match to
    case None =>
      GiveCame(net, n, Delivery(dst, ev.(route := ev.route + [LocalService(dst)]), Extend(h, Visit(Station(n, dst), None))));
    case Some(addr) =>
      var it := Item(PackPacket(Send(dst, ev)), Send(dst, ev), ToAddr(n, addr), h);
      var net1 := if addr in net.sites[n].rpc.sa2sess then net else NextId(net, n);
      HandledIsQuiet(net1, n, OnSend(net.sites[n].rpc, addr, it, net.sites[n].gen + 1));
      QuietKeeps(net, SendOut(net, n, to, dst, ev, h));
  }

  /** A reply that is handed to a service of the same node came from this node. */
  lemma PassBackCame(reg: Registry, net: Net, n: nat, ev: Event, h: History)
    requires NetCame(net) && n < |net.sites| && !h.Outward? && ToPass(reg, net.ends, n, ev, h)
    ensures NetCame(PassBack(net, n, ev, h))
  {
    hide Handled, OnPass, PackPacket, NetCame, Give, LegBytes, RouteOf, Linked, Registered;
    if ev.route != [] {
      var last := ev.route[|ev.route| - 1];
      var popped := ev.(route := Popped(ev.route));
      if last.LocalService? {
        if h.Homeward? {
          HopBack(h.base, h.trail, |h.trail| - 1 - |h.back|);
        }
        GiveCame(net, n, Delivery(last.service, popped, Return(h, Station(n, last.service))));
      } else if last.RemoteAddr? {
        var it := Item(PackPacket(Pass(popped)), Pass(popped), ToSocket(n, last.socket), h);
        HandledIsQuiet(net, n, OnPass(net.sites[n].rpc, last.socket, it));
        QuietKeeps(net, PassBack(net, n, ev, h));
      }
    }
  }

  lemma ServerReadsCame(reg: Registry, net: Net, c: nat)
    requires NetCame(net) && OnWire(net, c) && net.wires[c].toServer != []
    ensures NetCame(ServerReadsNext(reg, net, c))
  {
    hide OnPacketOnAcceptor, NetCame, Give;
    var w := net.wires[c];
    var it := w.toServer[0];
    var net1 := net.(wires := net.wires[c := w.(toServer := w.toServer[1..])]);
    QuietKeeps(net, net1);
    match OnPacketOnAcceptor(reg, ServerEsi(net, c), it.bytes)
    case Deliver(svc, ev) =>
      var at := Station(net.ends[c].server, svc);
      GiveCame(net1, at.node, Delivery(svc, ev, Extend(it.history, Visit(at, Some(net.ends[c].serverId)))));
    case CloseSocket =>
      QuietKeeps(net, ServerReadsNext(reg, net, c));
    case Ignored =>
  }

  /** What the client makes of a packet that it takes. */
  lemma TakenCame(reg: Registry, net: Net, c: nat, it: Item)
    requires OnWire(net, c) && PassOk(reg, net.ends, net.ends[c].server, net.ends[c].serverId, it)
    requires |it.bytes| <= net.sites[net.ends[c].client].limit && OnPacketOnConnector(reg, ClientEsi(net, c), it.bytes).Deliver?
    ensures var r := OnPacketOnConnector(reg, ClientEsi(net, c), it.bytes);
            CameFitting(net.sites[net.ends[c].client].limit,
                        Delivery(r.service, r.ev, Return(it.history, Station(net.ends[c].client, r.service))))
  {
    hide PackPacket, UnpackPacket, RouteOf, Linked;
    if it.history.Homeward? {
      UnpackPackPacket(reg, it.packet);
    }
  }

  lemma ClientReadsCame(reg: Registry, net: Net, c: nat)
    requires Inv(reg, net) && NetCame(net) && OnWire(net, c) && Passes(net.sites[net.ends[c].client], net.wires[c].toClient)
    ensures NetCame(ClientReadsNext(reg, net, c))
  {
    hide OnPacketOnConnector, NetCame, Give, PassOk;
    var w := net.wires[c];
    var it := w.toClient[0];
    assert WireOk(reg, net.ends, net.ends[c], w);
    var net1 := net.(wires := net.wires[c := w.(toClient := w.toClient[1..])]);
    QuietKeeps(net, net1);
    match OnPacketOnConnector(reg, ClientEsi(net, c), it.bytes)
    case Deliver(svc, ev) =>
      TakenCame(reg, net, c, it);
      GiveCame(net1, net.ends[c].client, Delivery(svc, ev, Return(it.history, Station(net.ends[c].client, svc))));
    case CloseSocket =>
      QuietKeeps(net, ClientReadsNext(reg, net, c));
    case Ignored =>
  }

  /** Steps that hand an event back. */
  lemma AnswerCame(reg: Registry, net: Net, s: Step)
    requires Inv(reg, net) && NetCame(net) && Enabled(reg, net, s) && (s.Answer? || s.HandBack?)
    ensures NetCame(Next(reg, net, s))
  {
    hide PassBack, NetCame;
    if s.Answer? {
      var d := net.sites[s.n].inbox[s.k];
      if d.ev.route != [] {
        AnswerIsDue(reg, net, s);
        PassBackCame(reg, net, s.n, Event(s.id, Popped(d.ev.route), s.body), StillHomeward(Homeward(d.history.trail, d.history.base, [])));
      }
    } else {
      HandBackIsDue(reg, net, s);
      var d := net.sites[s.n].inbox[s.k];
      PassBackCame(reg, net, s.n, Event(s.id, d.ev.route, s.body), StillHomeward(d.history));
    }
  }

  lemma StepCame(reg: Registry, net: Net, s: Step)
    requires Inv(reg, net) && NetCame(net) && Enabled(reg, net, s)
    ensures NetCame(Next(reg, net, s))
  {
    hide NetCame, Inv, SendOut, PassBack, Handled, ServerReadsNext, ClientReadsNext;
    match s
    case Originate(n, svc, to, dst, base, id, body) =>
      SendOutCame(net, n, to, dst, Opening(s), Outward([Visit(Station(n, svc), None)], base));
    case Forward(n, k, to, dst, id, body) =>
      var d := net.sites[n].inbox[k];
      SendOutCame(net, n, to, dst, Event(id, d.ev.route, body), d.history);
    case Answer(_, _, _, _) => AnswerCame(reg, net, s);
    case HandBack(_, _, _, _) => AnswerCame(reg, net, s);
    case OtherSend(n, to, dst, ev) => SendOutCame(net, n, to, dst, ev, Untraced);
    case OtherPass(n, ev) => PassBackCame(reg, net, n, ev, Untraced);
    case ServerReads(c) => ServerReadsCame(reg, net, c);
    case ClientReads(c) => ClientReadsCame(reg, net, c);
    case _ =>
      OtherIsQuiet(reg, net, s);
      QuietKeeps(net, Next(reg, net, s));
  }

  lemma OtherIsQuiet(reg: Registry, net: Net, s: Step)
    requires Enabled(reg, net, s)
    requires s.Establish? || s.ConnectFails? || s.Announce? || s.ClientUp? || s.Cut? || s.ClientGone? || s.ServerGone?
    ensures Quiet(net, Next(reg, net, s))
  {
    hide Handled, OnConnected, OnAccepted, OnGone, OnDisaccepted, SendOut, PassBack, ServerReadsNext, ClientReadsNext;
    match s
    case ConnectFails(n, id, addr) =>
      var net1 := net.(sites := net.sites[n := net.sites[n].(connecting := net.sites[n].connecting - {(id, addr)})]);
      HandledIsQuiet(net1, n, (OnGone(net.sites[n].rpc, Esi(id, Some(addr), 0)), []));
    case Announce(e) =>
      var net1 := net.(wires := net.wires[e := net.wires[e].(announced := true)]);
      HandledIsQuiet(net1, net.ends[e].server, OnAccepted(net.sites[net.ends[e].server].rpc, ServerEsi(net, e)));
    case ClientUp(e) =>
      HandledIsQuiet(net, net.ends[e].client, OnConnected(net.sites[net.ends[e].client].rpc, ClientEsi(net, e)));
    case ClientGone(e) =>
      HandledIsQuiet(net, net.ends[e].client, (OnGone(net.sites[net.ends[e].client].rpc, ClientEsi(net, e)), []));
    case ServerGone(e) =>
      HandledIsQuiet(net, net.ends[e].server, (OnDisaccepted(net.sites[net.ends[e].server].rpc, ServerEsi(net, e)), []));
    case _ =>
  }

  lemma {:induction false} RunCame(reg: Registry, b: Behaviour, t: nat)
    requires Reached(reg, b, t)
    ensures NetCame(b.states[t])
  {
    hide Next, Enabled, NetCame, Inv;
    if t == 0 {
      StartCame(b.states[0]);
    } else {
      RunCame(reg, b, t - 1);
      ReachedIsOk(reg, b, t - 1);
      assert StepAt(reg, b, t - 1);
      StepCame(reg, b.states[t - 1], b.steps[t - 1]);
    }
  }

  lemma StartCame(net: Net)
    requires Start(net)
    ensures NetCame(net)
  {
  }

  /**
   At any time of any run, cuts and all: an answer whose packet is over the limit of the node of visit
   j - 1 has not been delivered there over the connection on which visit `j` came in.
   */
  lemma NeverDelivered(reg: Registry, b: Behaviour, t: nat, trail: seq<Visit>, base: Route, id: int32, body: seq<Value>, j: nat, k: nat)
    requires Reached(reg, b, t) && 0 < j < |trail| && trail[j].via.Some? && trail[j - 1].at.node < |b.states[t].sites|
    requires |LegBytes(trail, base, id, body, j)| > b.states[t].sites[trail[j - 1].at.node].limit
    requires k < |b.states[t].sites[trail[j - 1].at.node].inbox|
    ensures var d := b.states[t].sites[trail[j - 1].at.node].inbox[k];
            !(d.history.Homeward? && d.history.trail == trail && d.history.base == base && |d.history.back| == |trail| - j &&
              d.ev.id == id && d.ev.body == body)
  {
    hide LegBytes, Next, Enabled;
    RunCame(reg, b, t);
    var s := b.states[t].sites[trail[j - 1].at.node];
    assert AllCame(s.limit, s.inbox);
    assert CameFitting(s.limit, s.inbox[k]);
  }
}
