/** What a packet over the limit of its reader does: it stays in front, and nothing behind it arrives. */
module RpcStall {
  import opened Prelude
  import opened EventCodec
  import opened Dispatch
  import opened Rpc
  import opened RpcNet
  import opened RpcRetrace
  import Oscar

  // ---------------------------------------------------------------- reading, as Oscar does it

  function Payloads(items: seq<Item>): (r: seq<Bytes>)
    ensures |r| == |items| && forall i :: 0 <= i < |r| ==> r[i] == items[i].bytes
  {
    if items == [] then [] else [items[0].bytes] + Payloads(items[1..])
  }

  /** A node reads the packet in front exactly when its Oscar takes it from the frames of all that is queued. */
  lemma PassesLikeOscar(s: Site, items: seq<Item>)
    requires Oscar.AllWithin(TWO_64 - 1, Payloads(items))
    ensures var taken := Oscar.Extract(s.limit, Oscar.Frames(Payloads(items))).packets;
            && (Passes(s, items) <==> taken != [])
            && (taken != [] ==> taken[0] == items[0].bytes)
  {
    hide Oscar.Extract, Oscar.Frames;
    Oscar.ExtractFrames(s.limit, Payloads(items));
    assert Oscar.Clear(s.limit, Payloads(items)) > 0 <==> Passes(s, items);
  }

  /** The socket that asked for the connection is the connected one, the other the accepted one. */
  function TypeOf(esi: Esi): Oscar.StreamType
  {
    if esi.request.Some? then Oscar.Connected else Oscar.Accepted
  }

  /** RPC::Service::handleEvent, on what Oscar passes up. */
  function HandleEvent(reg: Registry, esi: Esi, e: Oscar.OscarEvent): Incoming
  {
    match e
    case PacketOnAcceptor(buf) => OnPacketOnAcceptor(reg, esi, buf)
    case PacketOnConnector(buf) => OnPacketOnConnector(reg, esi, buf)
  }

  /** All that the Oscar of a node passes up once the frames of `items` have come in. */
  function HandedUp(s: Site, esi: Esi, items: seq<Item>): seq<Oscar.OscarEvent>
  {
    Oscar.Events(TypeOf(esi), Oscar.Extract(s.limit, Oscar.Frames(Payloads(items))).packets)
  }

  /** The packet in front is gone; it was handled with the answer `r`. */
  ghost predicate TookOne(net: Net, net': Net, c: nat, back: bool, r: Incoming)
    requires OnWire(net, c) && Queue(net, c, back) != []
  {
    var n := Reader(net, c, back);
    && |net'.wires| == |net.wires| && |net'.sites| == |net.sites|
    && Queue(net', c, back) == Queue(net, c, back)[1..] && Queue(net', c, !back) == Queue(net, c, !back)
    && net'.wires[c].open == (net.wires[c].open && !r.CloseSocket?)
    && (!r.Deliver? ==> net'.sites == net.sites)
    && (r.Deliver? ==>
          && |net'.sites[n].inbox| == |net.sites[n].inbox| + 1
          && net'.sites[n].inbox[..|net.sites[n].inbox|] == net.sites[n].inbox
          && net'.sites[n].inbox[|net.sites[n].inbox|].service == r.service
          && net'.sites[n].inbox[|net.sites[n].inbox|].ev == r.ev)
  }

  lemma ServerTakes(reg: Registry, net: Net, c: nat)
    requires OnWire(net, c) && net.wires[c].toServer != []
    ensures TookOne(net, ServerReadsNext(reg, net, c), c, false,
                    OnPacketOnAcceptor(reg, ServerEsi(net, c), net.wires[c].toServer[0].bytes))
  {
    hide OnPacketOnAcceptor;
  }

  lemma ClientTakes(reg: Registry, net: Net, c: nat)
    requires OnWire(net, c) && net.wires[c].toClient != []
    ensures TookOne(net, ClientReadsNext(reg, net, c), c, true,
                    OnPacketOnConnector(reg, ClientEsi(net, c), net.wires[c].toClient[0].bytes))
  {
    hide OnPacketOnConnector;
  }

  /**
   A node reads when its Oscar passes an event up, and it handles the first of them: at the end that
   asked for the connection by on_PacketOnConnector, at the other by on_PacketOnAcceptor.
   */
  lemma ReadsAreOscarEvents(reg: Registry, net: Net, c: nat, back: bool)
    requires OnWire(net, c) && Oscar.AllWithin(TWO_64 - 1, Payloads(Queue(net, c, back)))
    ensures var esi := if back then ClientEsi(net, c) else ServerEsi(net, c);
            var q := Queue(net, c, back);
            var up := HandedUp(net.sites[Reader(net, c, back)], esi, q);
            && (Enabled(reg, net, ReadOf(c, back)) <==> up != [])
            && (up != [] ==>
                  && up[0] == (if back then Oscar.PacketOnConnector(q[0].bytes) else Oscar.PacketOnAcceptor(q[0].bytes))
                  && HandleEvent(reg, esi, up[0]) ==
                     (if back then OnPacketOnConnector(reg, esi, q[0].bytes) else OnPacketOnAcceptor(reg, esi, q[0].bytes))
                  && TookOne(net, Next(reg, net, ReadOf(c, back)), c, back, HandleEvent(reg, esi, up[0])))
  {
    hide Oscar.Extract, Oscar.Frames, Oscar.Events, OnPacketOnConnector, OnPacketOnAcceptor, TookOne;
    var esi := if back then ClientEsi(net, c) else ServerEsi(net, c);
    var q := Queue(net, c, back);
    Oscar.EventsMean(TypeOf(esi), Oscar.Extract(net.sites[Reader(net, c, back)].limit, Oscar.Frames(Payloads(q))).packets);
    PassesLikeOscar(net.sites[Reader(net, c, back)], q);
    if Passes(net.sites[Reader(net, c, back)], q) {
      if back {
        ClientTakes(reg, net, c);
      } else {
        ServerTakes(reg, net, c);
      }
    }
  }

  // ---------------------------------------------------------------- a packet that is not read

  /** What waits for the client of `c`, or for its server. */
  function Queue(net: Net, c: nat, back: bool): seq<Item>
    requires c < |net.wires|
  {
    if back then net.wires[c].toClient else net.wires[c].toServer
  }

  function Reader(net: Net, c: nat, back: bool): nat
    requires c < |net.ends|
  {
    if back then net.ends[c].client else net.ends[c].server
  }

  /** From place `k` on the queue goes `q`, and the first of these packets is too long for the reader. */
  ghost predicate StalledAt(net: Net, c: nat, back: bool, q: seq<Item>, k: nat)
  {
    && OnWire(net, c) && q != [] && k <= |Queue(net, c, back)| && q <= Queue(net, c, back)[k..]
    && |q[0].bytes| > net.sites[Reader(net, c, back)].limit
  }

  /** The step adds to what was there, and nothing once the connection is closed. */
  ghost predicate Adds(net: Net, net': Net, c: nat, back: bool)
  {
    && c < |net.wires| && c < |net'.wires| && Queue(net, c, back) <= Queue(net', c, back)
    && (!net.wires[c].open ==> !net'.wires[c].open && Queue(net', c, back) == Queue(net, c, back))
    && net.ends <= net'.ends && |net'.sites| == |net.sites|
    && forall m: nat :: m < |net.sites| ==> net'.sites[m].limit == net.sites[m].limit
  }

  lemma {:induction false} EmitAdds(net: Net, n: nat, outs: seq<Output<Item>>, c: nat, back: bool)
    requires n < |net.sites| && c < |net.wires|
    ensures Adds(net, Emit(net, n, outs), c, back)
    decreases outs
  {
    if outs != [] {
      match outs[0]
      case SendTo(_, esi, it) =>
        var net1 := if esi.fd < |net.wires| then net.(wires := net.wires[esi.fd := Write(net.wires[esi.fd], esi, it)]) else net;
        EmitAdds(net1, n, outs[1..], c, back);
      case ConnectTo(id, addr) =>
        var net1 := net.(sites := net.sites[n := net.sites[n].(connecting := net.sites[n].connecting + {(id, addr)})]);
        EmitAdds(net1, n, outs[1..], c, back);
    }
  }

  lemma HandledAdds(net: Net, n: nat, r: (State<Item>, seq<Output<Item>>), c: nat, back: bool)
    requires n < |net.sites| && c < |net.wires|
    ensures Adds(net, Handled(net, n, r), c, back)
  {
    hide Emit;
    EmitAdds(net.(sites := net.sites[n := net.sites[n].(rpc := r.0)]), n, r.1, c, back);
  }

  lemma SendOutAdds(net: Net, n: nat, to: Option<Addr>, dst: int32, ev: Event, h: History, c: nat, back: bool)
    requires n < |net.sites| && net.sites[n].gen < MAX_ID && c < |net.wires|
    ensures Adds(net, SendOut(net, n, to, dst, ev, h), c, back)
  {
    hide Handled, OnSend, PackPacket;
    if to.Some? {
      var it := Item(PackPacket(Send(dst, ev)), Send(dst, ev), ToAddr(n, to.value), h);
      var net1 := if to.value in net.sites[n].rpc.sa2sess then net else NextId(net, n);
      HandledAdds(net1, n, OnSend(net.sites[n].rpc, to.value, it, net.sites[n].gen + 1), c, back);
    }
  }

  lemma PassBackAdds(net: Net, n: nat, ev: Event, h: History, c: nat, back: bool)
    requires n < |net.sites| && c < |net.wires|
    ensures Adds(net, PassBack(net, n, ev, h), c, back)
  {
    hide Handled, OnPass, PackPacket, PassTo;
    var (to, rest) := PassTo(ev.route);
    if to.ToRpc? {
      var it := Item(PackPacket(Pass(ev.(route := rest))), Pass(ev.(route := rest)), ToSocket(n, to.socket), h);
      HandledAdds(net, n, OnPass(net.sites[n].rpc, to.socket, it), c, back);
    }
  }

  function ReadOf(c: nat, back: bool): Step
  {
    if back then ClientReads(c) else ServerReads(c)
  }

  /** Steps of services. */
  predicate ByService(s: Step)
  {
    s.Originate? || s.Forward? || s.Answer? || s.HandBack? || s.OtherSend? || s.OtherPass?
  }

  lemma ServiceStepAdds(reg: Registry, net: Net, s: Step, c: nat, back: bool)
    requires Enabled(reg, net, s) && c < |net.wires| && ByService(s)
    ensures Adds(net, Next(reg, net, s), c, back)
  {
    hide SendOut, PassBack;
    match s
    case Originate(n, svc, to, dst, base, id, body) =>
      SendOutAdds(net, n, to, dst, Opening(s), Outward([Visit(Station(n, svc), None)], base), c, back);
    case Forward(n, k, to, dst, id, body) =>
      var d := net.sites[n].inbox[k];
      SendOutAdds(net, n, to, dst, Event(id, d.ev.route, body), d.history, c, back);
    case Answer(n, k, id, body) =>
      var d := net.sites[n].inbox[k];
      if d.ev.route != [] {
        PassBackAdds(net, n, Event(id, d.ev.route[..|d.ev.route| - 1], body),
                     StillHomeward(Homeward(d.history.trail, d.history.base, [])), c, back);
      }
    case HandBack(n, k, id, body) =>
      var d := net.sites[n].inbox[k];
      PassBackAdds(net, n, Event(id, d.ev.route, body), StillHomeward(d.history), c, back);
    case OtherSend(n, to, dst, ev) =>
      SendOutAdds(net, n, to, dst, ev, Untraced, c, back);
    case OtherPass(n, ev) =>
      PassBackAdds(net, n, ev, Untraced, c, back);
    case _ =>
  }

  lemma ServerReadAdds(reg: Registry, net: Net, e: nat, c: nat, back: bool)
    requires OnWire(net, e) && net.wires[e].toServer != [] && c < |net.wires| && (back || e != c)
    ensures Adds(net, ServerReadsNext(reg, net, e), c, back)
  {
    hide OnPacketOnAcceptor;
  }

  lemma ClientReadAdds(reg: Registry, net: Net, e: nat, c: nat, back: bool)
    requires OnWire(net, e) && net.wires[e].toClient != [] && c < |net.wires| && (!back || e != c)
    ensures Adds(net, ClientReadsNext(reg, net, e), c, back)
  {
    hide OnPacketOnConnector;
  }

  /** Steps in which the socket layer reports to RPC::Service. */
  predicate Reports(s: Step)
  {
    s.ConnectFails? || s.Announce? || s.ClientUp? || s.ClientGone? || s.ServerGone?
  }

  lemma ReportAdds(reg: Registry, net: Net, s: Step, c: nat, back: bool)
    requires Enabled(reg, net, s) && c < |net.wires| && Reports(s)
    ensures Adds(net, Next(reg, net, s), c, back)
  {
    hide Handled, OnConnected, OnAccepted, OnGone, OnDisaccepted;
    match s
    case ConnectFails(n, id, addr) =>
      var net1 := net.(sites := net.sites[n := net.sites[n].(connecting := net.sites[n].connecting - {(id, addr)})]);
      HandledAdds(net1, n, (OnGone(net.sites[n].rpc, Esi(id, Some(addr), 0)), []), c, back);
    case Announce(e) =>
      var net1 := net.(wires := net.wires[e := net.wires[e].(announced := true)]);
      HandledAdds(net1, net.ends[e].server, OnAccepted(net.sites[net.ends[e].server].rpc, ServerEsi(net, e)), c, back);
    case ClientUp(e) =>
      HandledAdds(net, net.ends[e].client, OnConnected(net.sites[net.ends[e].client].rpc, ClientEsi(net, e)), c, back);
    case ClientGone(e) =>
      HandledAdds(net, net.ends[e].client, (OnGone(net.sites[net.ends[e].client].rpc, ClientEsi(net, e)), []), c, back);
    case ServerGone(e) =>
      HandledAdds(net, net.ends[e].server, (OnDisaccepted(net.sites[net.ends[e].server].rpc, ServerEsi(net, e)), []), c, back);
  }

  /** Steps of the network, other than cutting `c` and reading what is asked about. */
  lemma WireStepAdds(reg: Registry, net: Net, s: Step, c: nat, back: bool)
    requires Enabled(reg, net, s) && c < |net.wires| && !ByService(s)
    requires s != ReadOf(c, back) && !(s.Cut? && s.c == c)
    ensures Adds(net, Next(reg, net, s), c, back)
  {
    if Reports(s) {
      hide Next;
      ReportAdds(reg, net, s, c, back);
    } else {
      hide ServerReadsNext, ClientReadsNext;
      match s
      case ServerReads(e) =>
        ServerReadAdds(reg, net, e, c, back);
      case ClientReads(e) =>
        ClientReadAdds(reg, net, e, c, back);
      case _ =>
    }
  }

  /** A read takes the packet in front, and nothing else. */
  lemma ReadTakesOne(reg: Registry, net: Net, c: nat, back: bool)
    requires Enabled(reg, net, ReadOf(c, back))
    ensures OnWire(net, c) && Queue(net, c, back) != [] && |Queue(net, c, back)[0].bytes| <= net.sites[Reader(net, c, back)].limit
    ensures var net' := Next(reg, net, ReadOf(c, back));
            && OnWire(net', c) && Queue(net', c, back) == Queue(net, c, back)[1..]
            && net'.sites[Reader(net', c, back)].limit == net.sites[Reader(net, c, back)].limit
            && (!net.wires[c].open ==> !net'.wires[c].open)
  {
    if back {
      ClientTakesOne(reg, net, c);
    } else {
      ServerTakesOne(reg, net, c);
    }
  }

  lemma ServerTakesOne(reg: Registry, net: Net, c: nat)
    requires OnWire(net, c) && net.wires[c].toServer != []
    ensures var net' := ServerReadsNext(reg, net, c);
            && net'.ends == net.ends && |net'.wires| == |net.wires| && |net'.sites| == |net.sites|
            && net'.wires[c].toServer == net.wires[c].toServer[1..] && (!net.wires[c].open ==> !net'.wires[c].open)
            && net'.sites[net.ends[c].server].limit == net.sites[net.ends[c].server].limit
  {
    hide OnPacketOnAcceptor;
  }

  lemma ClientTakesOne(reg: Registry, net: Net, c: nat)
    requires OnWire(net, c) && net.wires[c].toClient != []
    ensures var net' := ClientReadsNext(reg, net, c);
            && net'.ends == net.ends && |net'.wires| == |net.wires| && |net'.sites| == |net.sites|
            && net'.wires[c].toClient == net.wires[c].toClient[1..] && (!net.wires[c].open ==> !net'.wires[c].open)
            && net'.sites[net.ends[c].client].limit == net.sites[net.ends[c].client].limit
  {
    hide OnPacketOnConnector;
  }

  /** Only what is in front of it is read. */
  lemma ReadMovesUp(reg: Registry, net: Net, c: nat, back: bool, q: seq<Item>, k: nat)
    requires StalledAt(net, c, back, q, k) && Enabled(reg, net, ReadOf(c, back))
    ensures k > 0 && StalledAt(Next(reg, net, ReadOf(c, back)), c, back, q, k - 1)
  {
    hide Next, Enabled, Queue, Reader;
    ReadTakesOne(reg, net, c, back);
    var queue := Queue(net, c, back);
    assert queue[k..][0] == queue[k];
    if k > 0 {
      assert queue[1..][k - 1..] == queue[k..];
    }
  }

  lemma StaysWhenAdded(net: Net, net': Net, c: nat, back: bool, q: seq<Item>, k: nat)
    requires StalledAt(net, c, back, q, k) && Adds(net, net', c, back)
    ensures StalledAt(net', c, back, q, k)
  {
    hide Queue;
    assert Queue(net, c, back)[k..] <= Queue(net', c, back)[k..];
  }

  lemma StepStays(reg: Registry, net: Net, s: Step, c: nat, back: bool, q: seq<Item>, k: nat) returns (k': nat)
    requires Enabled(reg, net, s) && StalledAt(net, c, back, q, k) && !(s.Cut? && s.c == c)
    ensures k' <= k && StalledAt(Next(reg, net, s), c, back, q, k')
  {
    hide Next, Enabled, Adds;
    k' := k;
    if s == ReadOf(c, back) {
      ReadMovesUp(reg, net, c, back, q, k);
      k' := k - 1;
    } else {
      if ByService(s) {
        ServiceStepAdds(reg, net, s, c, back);
      } else {
        WireStepAdds(reg, net, s, c, back);
      }
      StaysWhenAdded(net, Next(reg, net, s), c, back, q, k);
    }
  }

  /**
   A packet over the limit of its reader, and everything queued behind it, stays on its connection
   in every run that does not cut it.
   */
  lemma {:induction false} OversizeStays(reg: Registry, b: Behaviour, c: nat, back: bool, q: seq<Item>, k: nat, i: nat)
      returns (k': nat)
    requires IsRun(reg, b) && i <= |b.steps| && StalledAt(b.states[0], c, back, q, k)
    requires forall t :: 0 <= t < |b.steps| ==> !(b.steps[t].Cut? && b.steps[t].c == c)
    ensures k' <= k && StalledAt(b.states[i], c, back, q, k')
  {
    hide Next, Enabled, StalledAt;
    k' := k;
    if i > 0 {
      k' := OversizeStays(reg, b, c, back, q, k, i - 1);
      assert StepAt(reg, b, i - 1);
      k' := StepStays(reg, b.states[i - 1], b.steps[i - 1], c, back, q, k');
    }
  }

  // ---------------------------------------------------------------- nor after a cut

  /** At place `k` is a packet too long for the reader, or nothing, and nothing will come there. */
  ghost predicate Barred(net: Net, c: nat, back: bool, k: nat)
  {
    OnWire(net, c) &&
    if k < |Queue(net, c, back)| then |Queue(net, c, back)[k].bytes| > net.sites[Reader(net, c, back)].limit
    else !net.wires[c].open
  }

  lemma StalledIsBarred(net: Net, c: nat, back: bool, q: seq<Item>, k: nat)
    requires StalledAt(net, c, back, q, k)
    ensures Barred(net, c, back, k)
  {
    assert Queue(net, c, back)[k..][0] == Queue(net, c, back)[k];
  }

  /** What a cut keeps is a beginning of the queue. */
  lemma CutStaysBarred(reg: Registry, net: Net, s: Step, c: nat, back: bool, k: nat)
    requires Barred(net, c, back, k) && s.Cut? && s.c == c && Enabled(reg, net, s)
    ensures Barred(Next(reg, net, s), c, back, k)
  {
  }

  lemma ReadStaysBarred(reg: Registry, net: Net, c: nat, back: bool, k: nat)
    requires Barred(net, c, back, k) && Enabled(reg, net, ReadOf(c, back))
    ensures k > 0 && Barred(Next(reg, net, ReadOf(c, back)), c, back, k - 1)
  {
    hide Next, Enabled, Queue, Reader;
    ReadTakesOne(reg, net, c, back);
  }

  lemma StepStaysBarred(reg: Registry, net: Net, s: Step, c: nat, back: bool, k: nat)
    requires Barred(net, c, back, k) && Enabled(reg, net, s)
    ensures s == ReadOf(c, back) ==> k > 0
    ensures Barred(Next(reg, net, s), c, back, if s == ReadOf(c, back) then k - 1 else k)
  {
    hide Next;
    if s == ReadOf(c, back) {
      ReadStaysBarred(reg, net, c, back, k);
    } else if s.Cut? && s.c == c {
      CutStaysBarred(reg, net, s, c, back, k);
    } else if ByService(s) {
      ServiceStepAdds(reg, net, s, c, back);
    } else {
      WireStepAdds(reg, net, s, c, back);
    }
  }

  /** How often one direction of a connection is read. */
  function Reads(steps: seq<Step>, c: nat, back: bool): nat
  {
    if steps == [] then 0
    else Reads(steps[..|steps| - 1], c, back) + if steps[|steps| - 1] == ReadOf(c, back) then 1 else 0
  }

  /**
   In every run, cuts and all: with a packet over the limit at place `k`, no more than the `k` packets
   before it are ever read from that direction of the connection.
   */
  lemma {:induction false} OversizeIsNeverRead(reg: Registry, b: Behaviour, c: nat, back: bool, k: nat, i: nat)
    requires IsRun(reg, b) && i <= |b.steps| && Barred(b.states[0], c, back, k)
    ensures Reads(b.steps[..i], c, back) <= k && Barred(b.states[i], c, back, k - Reads(b.steps[..i], c, back))
  {
    hide Next, Enabled, Barred;
    if i > 0 {
      OversizeIsNeverRead(reg, b, c, back, k, i - 1);
      assert StepAt(reg, b, i - 1);
      assert b.steps[..i][..i - 1] == b.steps[..i - 1];
      StepStaysBarred(reg, b.states[i - 1], b.steps[i - 1], c, back, k - Reads(b.steps[..i - 1], c, back));
    }
  }
}
