/**
 RPC::Service: sessions that hold packets back until a connection is up, the cache for replies
 whose socket is not known yet, and the handlers of the two kinds of packet. The functions are the
 specification, over any type of packet; the class does the same by updating its fields in place.
 */
module Rpc {
  import opened Prelude
  import opened Routes
  import opened EventCodec

  type Addr = nat

  /** epoll_socket_info as RPC sees it; `request` is set on a connecting socket only. */
  datatype Esi = Esi(id: int64, request: Option<Addr>, fd: nat)

  /** Session. `submitted` records, for the proofs only, every packet it was ever given. */
  datatype Sess<P> = Sess(socketId: int64, esi: Option<Esi>, outCache: seq<P>, submitted: seq<P>)

  datatype State<P> = State(
    sa2sess: map<Addr, Sess<P>>,
    sock2sess: map<int64, Sess<P>>,
    passCache: map<int64, seq<P>>)

  /** What goes to Oscar; `owner` records the session that sent the packet. */
  datatype Output<P> = SendTo(owner: int64, esi: Esi, packet: P) | ConnectTo(socketId: int64, addr: Addr)

  // ---------------------------------------------------------------- handlers, as functions

  function Sends<P>(owner: int64, esi: Esi, packets: seq<P>): (r: seq<Output<P>>)
    ensures |r| == |packets|
    ensures forall i :: 0 <= i < |r| ==> r[i] == SendTo(owner, esi, packets[i])
  {
    if packets == [] then [] else [SendTo(owner, esi, packets[0])] + Sends(owner, esi, packets[1..])
  }

  /** flushOutCache, on a session that has its socket. */
  function Flush<P>(s: Sess<P>): (Sess<P>, seq<Output<P>>)
    requires s.esi.Some?
  {
    (s.(outCache := []), Sends(s.socketId, s.esi.value, s.outCache))
  }

  /** addSendPacket. */
  function AddSend<P>(s: Sess<P>, p: P): (Sess<P>, seq<Output<P>>)
  {
    var t := s.(submitted := s.submitted + [p]);
    if s.esi.None? then (t.(outCache := s.outCache + [p]), [])
    else
      var (u, outs) := Flush(t);
      (u, outs + [SendTo(s.socketId, s.esi.value, p)])
  }

  function AddSends<P>(s: Sess<P>, ps: seq<P>): (Sess<P>, seq<Output<P>>)
    decreases ps
  {
    if ps == [] then (s, [])
    else
      var (t, outs) := AddSend(s, ps[0]);
      var (u, more) := AddSends(t, ps[1..]);
      (u, outs + more)
  }

  /** on_SendPacket; `newId` is used only when no session to that address exists. */
  function OnSend<P>(st: State<P>, addr: Addr, p: P, newId: int64): (State<P>, seq<Output<P>>)
  {
    if addr in st.sa2sess then
      var (s, outs) := AddSend(st.sa2sess[addr], p);
      (st.(sa2sess := st.sa2sess[addr := s]), outs)
    else
      var (s, outs) := AddSend(Sess(newId, None, [], []), p);
      (st.(sa2sess := st.sa2sess[addr := s]), [ConnectTo(newId, addr)] + outs)
  }

  /** on_PassPacket. */
  function OnPass<P>(st: State<P>, id: int64, p: P): (State<P>, seq<Output<P>>)
  {
    if id in st.sock2sess then
      var (s, outs) := AddSend(st.sock2sess[id], p);
      (st.(sock2sess := st.sock2sess[id := s]), outs)
    else
      (st.(passCache := st.passCache[id := Cached(st, id) + [p]]), [])
  }

  function Cached<P>(st: State<P>, id: int64): seq<P>
  {
    if id in st.passCache then st.passCache[id] else []
  }

  /** on_Accepted: emplace keeps a session that is there already. */
  function OnAccepted<P>(st: State<P>, esi: Esi): (State<P>, seq<Output<P>>)
  {
    var (s, outs) := AddSends(Sess(esi.id, Some(esi), [], []), Cached(st, esi.id));
    (st.(sock2sess := if esi.id in st.sock2sess then st.sock2sess else st.sock2sess[esi.id := s],
         passCache := st.passCache - {esi.id}), outs)
  }

  /** on_Connected, looked up by the address asked for; nothing happens where it throws. */
  function OnConnected<P>(st: State<P>, esi: Esi): (State<P>, seq<Output<P>>)
  {
    if esi.request.None? || esi.request.value !in st.sa2sess then (st, [])
    else
      var (s, outs) := Flush(st.sa2sess[esi.request.value].(esi := Some(esi)));
      (st.(sa2sess := st.sa2sess[esi.request.value := s]), outs)
  }

  /** on_ConnectFailed and on_Disconnected. */
  function OnGone<P>(st: State<P>, esi: Esi): State<P>
  {
    if esi.request.None? then st else st.(sa2sess := st.sa2sess - {esi.request.value})
  }

  /** The counter of socket ids, which wraps. */
  function IdAfter(gen: int64): int64
  {
    if gen == MAX_ID then -TWO_63 else gen + 1
  }

  function OnDisaccepted<P>(st: State<P>, esi: Esi): State<P>
  {
    st.(sock2sess := st.sock2sess - {esi.id})
  }

  /** What a packet handler makes of a buffer. */
  datatype Incoming = Ignored | CloseSocket | Deliver(service: int32, ev: Event)

  /** A reply is handed to the service its last hop names. */
  function ToLastHop(ev: Event): Incoming
  {
    if ev.route == [] then CloseSocket
    else
      var last := ev.route[|ev.route| - 1];
      if last.LocalService? then Deliver(last.service, ev.(route := ev.route[..|ev.route| - 1])) else CloseSocket
  }

  /** A request is handed over with the way back to this socket pushed on its route. */
  function ToDestination(dst: int32, ev: Event, socket: int64): Incoming
  {
    Deliver(dst, ev.(route := ev.route + [RemoteAddr(socket), LocalService(dst)]))
  }

  function OnPacketOnAcceptor(reg: Registry, esi: Esi, buf: Bytes): Incoming
  {
    match UnpackPacket(reg, buf)
    case BadPacket => CloseSocket
    case BadDirection => Ignored
    case Good(Pass(ev)) => ToLastHop(ev)
    case Good(Send(dst, ev)) => ToDestination(dst, ev, esi.id)
  }

  function OnPacketOnConnector(reg: Registry, esi: Esi, buf: Bytes): Incoming
  {
    match UnpackPacket(reg, buf)
    case BadPacket => CloseSocket
    case BadDirection => CloseSocket
    case Good(Pass(ev)) =>
      if ToLastHop(ev).Deliver? && esi.request.None? then CloseSocket else ToLastHop(ev)
    case Good(Send(dst, ev)) => if esi.request.None? then CloseSocket else ToDestination(dst, ev, esi.id)
  }

  // ---------------------------------------------------------------- what a report removes

  /** A session and its cache outlive the report of a lost connection exactly when that was to another address. */
  lemma GoneTakesItsAddress<P>(st: State<P>, esi: Esi, addr: Addr)
    requires addr in st.sa2sess
    ensures var st' := OnGone(st, esi);
            && (addr in st'.sa2sess && st'.sa2sess[addr] == st.sa2sess[addr] <==> esi.request != Some(addr))
            && st'.sock2sess == st.sock2sess && st'.passCache == st.passCache
  {
  }

  /** The session of an accepted socket outlives the report of another one; what waits in passCache always does. */
  lemma DisacceptedTakesItsId<P>(st: State<P>, esi: Esi, id: int64)
    requires id in st.sock2sess
    ensures var st' := OnDisaccepted(st, esi);
            && (id in st'.sock2sess && st'.sock2sess[id] == st.sock2sess[id] <==> esi.id != id)
            && st'.sa2sess == st.sa2sess && st'.passCache == st.passCache
  {
  }

  // ---------------------------------------------------------------- one node: first in, first out

  /** The packets a session has handed to Oscar, in order. */
  function Handed<P>(log: seq<Output<P>>, owner: int64): seq<P>
  {
    if log == [] then []
    else
      var last := log[|log| - 1];
      var before := Handed(log[..|log| - 1], owner);
      if last.SendTo? && last.owner == owner then before + [last.packet] else before
  }

  lemma {:induction false} HandedAppend<P>(log: seq<Output<P>>, outs: seq<Output<P>>, owner: int64)
    ensures Handed(log + outs, owner) == Handed(log, owner) + Handed(outs, owner)
  {
    if outs == [] {
      assert log + outs == log;
    } else {
      assert (log + outs)[..|log + outs| - 1] == log + outs[..|outs| - 1];
      HandedAppend(log, outs[..|outs| - 1], owner);
    }
  }

  lemma {:induction false} HandedSends<P>(from: int64, esi: Esi, ps: seq<P>, owner: int64)
    ensures Handed(Sends(from, esi, ps), owner) == if from == owner then ps else []
  {
    if ps != [] {
      HandedSends(from, esi, ps[1..], owner);
      var head := SendTo(from, esi, ps[0]);
      HandedAppend([head], Sends(from, esi, ps[1..]), owner);
      assert [head][..0] == [];
      assert Handed([head], owner) == if from == owner then [ps[0]] else [];
    }
  }

  lemma HandedOne<P>(out: Output<P>, owner: int64)
    ensures Handed([out], owner) == if out.SendTo? && out.owner == owner then [out.packet] else []
  {
    assert [out][..0] == [];
  }

  /** What was handed over, then what is held back, is what was submitted; a socket leaves nothing back. */
  ghost predicate InOrder<P>(log: seq<Output<P>>, s: Sess<P>)
  {
    Handed(log, s.socketId) + s.outCache == s.submitted && (s.esi.Some? ==> s.outCache == [])
  }

  lemma AddSendInOrder<P>(log: seq<Output<P>>, s: Sess<P>, p: P)
    requires InOrder(log, s)
    ensures var (t, outs) := AddSend(s, p);
            && InOrder(log + outs, t) && t.socketId == s.socketId && t.esi == s.esi
            && t.submitted == s.submitted + [p]
            && OnlyBy(log, log + outs, s.socketId)
  {
    var (t, outs) := AddSend(s, p);
    if s.esi.Some? {
      assert Sends(s.socketId, s.esi.value, s.outCache) == [];
      assert outs == [SendTo(s.socketId, s.esi.value, p)];
      forall id: int64
        ensures Handed(log + outs, id) == Handed(log, id) + if id == s.socketId then [p] else []
      {
        HandedAppend(log, outs, id);
        HandedOne(outs[0], id);
      }
    } else {
      assert log + outs == log;
    }
  }

  lemma {:induction false} AddSendsInOrder<P>(log: seq<Output<P>>, s: Sess<P>, ps: seq<P>)
    requires InOrder(log, s)
    ensures var (t, outs) := AddSends(s, ps);
            && InOrder(log + outs, t) && t.socketId == s.socketId && t.esi == s.esi
            && t.submitted == s.submitted + ps
            && OnlyBy(log, log + outs, s.socketId)
    decreases ps
  {
    if ps == [] {
      assert log + [] == log && s.submitted + ps == s.submitted;
    } else {
      var (t, outs) := AddSend(s, ps[0]);
      AddSendInOrder(log, s, ps[0]);
      AddSendsInOrder(log + outs, t, ps[1..]);
      assert log + (outs + AddSends(t, ps[1..]).1) == log + outs + AddSends(t, ps[1..]).1;
      assert s.submitted + [ps[0]] + ps[1..] == s.submitted + ps;
    }
  }

  /** A node: its tables, its socket id generator, what it sent, and the sockets not announced yet. */
  datatype Node<P> = Node(st: State<P>, gen: int64, log: seq<Output<P>>, unannounced: set<int64>)

  datatype Input<P> =
    | InSend(addr: Addr, packet: P)
    | InPass(id: int64, packet: P)
    | InSocket                       // the socket layer accepted a connection and took an id
    | InAccepted(id: int64, fd: nat)
    | InConnected(esi: Esi)          // any number of times, for any socket
    | InGone(esi: Esi)
    | InDisaccepted(esi: Esi)

  const MAX_ID: int64 := TWO_63 - 1

  /** An id is taken below 2^63, and a socket is announced once. */
  predicate InputEnabled<P>(n: Node<P>, input: Input<P>)
  {
    match input
    case InSend(_, _) => n.gen < MAX_ID
    case InSocket => n.gen < MAX_ID
    case InAccepted(id, _) => id in n.unannounced
    case _ => true
  }

  function NodeNext<P>(n: Node<P>, input: Input<P>): Node<P>
    requires InputEnabled(n, input)
  {
    match input
    case InSend(addr, p) =>
      var (st, outs) := OnSend(n.st, addr, p, n.gen + 1);
      n.(st := st, log := n.log + outs, gen := if addr in n.st.sa2sess then n.gen else n.gen + 1)
    case InPass(id, p) =>
      var (st, outs) := OnPass(n.st, id, p);
      n.(st := st, log := n.log + outs)
    case InSocket => n.(gen := n.gen + 1, unannounced := n.unannounced + {n.gen + 1})
    case InAccepted(id, fd) =>
      var (st, outs) := OnAccepted(n.st, Esi(id, None, fd));
      n.(st := st, log := n.log + outs, unannounced := n.unannounced - {id})
    case InConnected(esi) =>
      var (st, outs) := OnConnected(n.st, esi);
      n.(st := st, log := n.log + outs)
    case InGone(esi) => n.(st := OnGone(n.st, esi))
    case InDisaccepted(esi) => n.(st := OnDisaccepted(n.st, esi))
  }

  /** Sessions are told apart by their ids, which the generator never gives out twice. */
  ghost predicate IdsOk<P>(n: Node<P>)
  {
    && (forall a :: a in n.st.sa2sess ==> n.st.sa2sess[a].socketId <= n.gen)
    && (forall id :: id in n.st.sock2sess ==> n.st.sock2sess[id].socketId == id <= n.gen)
    && (forall a, b :: a in n.st.sa2sess && b in n.st.sa2sess && a != b ==>
          n.st.sa2sess[a].socketId != n.st.sa2sess[b].socketId)
    && (forall a :: a in n.st.sa2sess ==>
          n.st.sa2sess[a].socketId !in n.st.sock2sess && n.st.sa2sess[a].socketId !in n.unannounced)
    && (forall id :: id in n.unannounced ==> id <= n.gen && id !in n.st.sock2sess)
  }

  ghost predicate OrderOk<P>(n: Node<P>)
  {
    && (forall a :: a in n.st.sa2sess ==> InOrder(n.log, n.st.sa2sess[a]))
    && (forall id :: id in n.st.sock2sess ==> InOrder(n.log, n.st.sock2sess[id]))
    && (forall id: int64 :: id > n.gen || id in n.unannounced ==> Handed(n.log, id) == [])
  }

  ghost predicate NodeOk<P>(n: Node<P>)
  {
    IdsOk(n) && OrderOk(n)
  }

  /** Only session `owner` handed anything over since. */
  ghost predicate OnlyBy<P>(log: seq<Output<P>>, log': seq<Output<P>>, owner: int64)
  {
    forall id: int64 :: id != owner ==> Handed(log', id) == Handed(log, id)
  }

  lemma OthersInOrder<P>(log: seq<Output<P>>, log': seq<Output<P>>, owner: int64, s: Sess<P>)
    requires OnlyBy(log, log', owner) && s.socketId != owner && InOrder(log, s)
    ensures InOrder(log', s)
  {
  }

  /** One session of sa2sess is replaced, by itself or by one with the next id. */
  function Replaced<P>(n: Node<P>, addr: Addr, s: Sess<P>, log: seq<Output<P>>, gen: int64): Node<P>
  {
    n.(st := n.st.(sa2sess := n.st.sa2sess[addr := s]), log := log, gen := gen)
  }

  ghost predicate MayReplace<P>(n: Node<P>, addr: Addr, s: Sess<P>, gen: int64)
  {
    n.gen <= gen &&
    if addr in n.st.sa2sess then s.socketId == n.st.sa2sess[addr].socketId else s.socketId == gen == n.gen + 1
  }

  lemma ReplacedIds<P>(n: Node<P>, addr: Addr, s: Sess<P>, log: seq<Output<P>>, gen: int64)
    requires IdsOk(n) && MayReplace(n, addr, s, gen)
    ensures IdsOk(Replaced(n, addr, s, log, gen))
  {
  }

  lemma ReplacedOrder<P>(n: Node<P>, addr: Addr, s: Sess<P>, log: seq<Output<P>>, gen: int64)
    requires NodeOk(n) && MayReplace(n, addr, s, gen) && OnlyBy(n.log, log, s.socketId) && InOrder(log, s)
    ensures OrderOk(Replaced(n, addr, s, log, gen))
  {
    var n' := Replaced(n, addr, s, log, gen);
    forall a | a in n'.st.sa2sess
      ensures InOrder(log, n'.st.sa2sess[a])
    {
      if a != addr {
        OthersInOrder(n.log, log, s.socketId, n.st.sa2sess[a]);
      }
    }
    forall id | id in n.st.sock2sess
      ensures InOrder(log, n.st.sock2sess[id])
    {
      OthersInOrder(n.log, log, s.socketId, n.st.sock2sess[id]);
    }
  }

  lemma ReplacedKeeps<P>(n: Node<P>, addr: Addr, s: Sess<P>, log: seq<Output<P>>, gen: int64)
    requires NodeOk(n) && MayReplace(n, addr, s, gen) && OnlyBy(n.log, log, s.socketId) && InOrder(log, s)
    ensures NodeOk(Replaced(n, addr, s, log, gen))
  {
    ReplacedIds(n, addr, s, log, gen);
    ReplacedOrder(n, addr, s, log, gen);
  }

  lemma SendKeeps<P>(n: Node<P>, addr: Addr, p: P)
    requires NodeOk(n) && n.gen < MAX_ID
    ensures NodeOk(NodeNext(n, InSend(addr, p)))
  {
    if addr in n.st.sa2sess {
      hide IdsOk, Handed;
      AddSendInOrder(n.log, n.st.sa2sess[addr], p);
      var (s, outs) := AddSend(n.st.sa2sess[addr], p);
      ReplacedKeeps(n, addr, s, n.log + outs, n.gen);
    } else {
      FirstSendKeeps(n, addr, p);
    }
  }

  /** The first packet to an address asks for a connection. */
  lemma FirstSendKeeps<P>(n: Node<P>, addr: Addr, p: P)
    requires NodeOk(n) && n.gen < MAX_ID && addr !in n.st.sa2sess
    ensures NodeOk(NodeNext(n, InSend(addr, p)))
  {
    hide IdsOk, Handed;
    var connect := ConnectTo(n.gen + 1, addr);
    var s := Sess(n.gen + 1, None, [], [p]).(outCache := [p]);
    assert [] + [p] == [p] && [connect] + [] == [connect];
    forall id: int64
      ensures Handed(n.log + [connect], id) == Handed(n.log, id)
    {
      HandedAppend(n.log, [connect], id);
      HandedOne(connect, id);
    }
    ReplacedKeeps(n, addr, s, n.log + [connect], n.gen + 1);
  }

  lemma PassKeeps<P>(n: Node<P>, id: int64, p: P)
    requires NodeOk(n)
    ensures NodeOk(NodeNext(n, InPass(id, p)))
  {
    if id in n.st.sock2sess {
      AddSendInOrder(n.log, n.st.sock2sess[id], p);
    } else {
      assert n.log + [] == n.log;
    }
  }

  lemma AcceptedKeeps<P>(n: Node<P>, id: int64, fd: nat)
    requires NodeOk(n) && id in n.unannounced
    ensures NodeOk(NodeNext(n, InAccepted(id, fd)))
  {
    AddSendsInOrder(n.log, Sess(id, Some(Esi(id, None, fd)), [], []), Cached(n.st, id));
  }

  lemma ConnectedKeeps<P>(n: Node<P>, esi: Esi)
    requires NodeOk(n)
    ensures NodeOk(NodeNext(n, InConnected(esi)))
  {
    if esi.request.Some? && esi.request.value in n.st.sa2sess {
      var s := n.st.sa2sess[esi.request.value];
      FlushInOrder(n.log, s, esi);
      var t := s.(esi := Some(esi), outCache := []);
      ReplacedKeeps(n, esi.request.value, t, n.log + Sends(s.socketId, esi, s.outCache), n.gen);
    } else {
      assert n.log + [] == n.log;
    }
  }

  lemma FlushInOrder<P>(log: seq<Output<P>>, s: Sess<P>, esi: Esi)
    requires InOrder(log, s)
    ensures var log' := log + Sends(s.socketId, esi, s.outCache);
            InOrder(log', s.(esi := Some(esi), outCache := [])) && OnlyBy(log, log', s.socketId)
  {
    var outs := Sends(s.socketId, esi, s.outCache);
    forall id: int64
      ensures Handed(log + outs, id) == Handed(log, id) + if id == s.socketId then s.outCache else []
    {
      HandedAppend(log, outs, id);
      HandedSends(s.socketId, esi, s.outCache, id);
    }
  }

  lemma NodeStepKeeps<P>(n: Node<P>, input: Input<P>)
    requires NodeOk(n) && InputEnabled(n, input)
    ensures NodeOk(NodeNext(n, input))
  {
    match input
    case InSend(addr, p) => SendKeeps(n, addr, p);
    case InPass(id, p) => PassKeeps(n, id, p);
    case InAccepted(id, fd) => AcceptedKeeps(n, id, fd);
    case InConnected(esi) => ConnectedKeeps(n, esi);
    case _ =>
  }

  ghost predicate NodeRun<P>(n: Node<P>, inputs: seq<Input<P>>)
    decreases inputs
  {
    inputs == [] || (InputEnabled(n, inputs[0]) && NodeRun(NodeNext(n, inputs[0]), inputs[1..]))
  }

  ghost function NodeAfter<P>(n: Node<P>, inputs: seq<Input<P>>): Node<P>
    requires NodeRun(n, inputs)
    decreases inputs
  {
    if inputs == [] then n else NodeAfter(NodeNext(n, inputs[0]), inputs[1..])
  }

  lemma {:induction false} NodeRunKeeps<P>(n: Node<P>, inputs: seq<Input<P>>)
    requires NodeOk(n) && NodeRun(n, inputs)
    ensures NodeOk(NodeAfter(n, inputs))
    decreases inputs
  {
    if inputs != [] {
      NodeStepKeeps(n, inputs[0]);
      NodeRunKeeps(NodeNext(n, inputs[0]), inputs[1..]);
    }
  }

  /** In every run, every live session hands its packets over in the order they were submitted. */
  lemma SessionsAreFifo<P>(inputs: seq<Input<P>>)
    requires NodeRun(Node(State(map[], map[], map[]), 0, [], {}), inputs)
    ensures var n := NodeAfter(Node(State(map[], map[], map[]), 0, [], {}), inputs);
            && (forall a :: a in n.st.sa2sess ==> InOrder(n.log, n.st.sa2sess[a]))
            && (forall id :: id in n.st.sock2sess ==> InOrder(n.log, n.st.sock2sess[id]))
  {
    NodeRunKeeps(Node(State(map[], map[], map[]), 0, [], {}), inputs);
  }

  /**
   A late report about an old socket does not leave a newer session alone: the second connection
   to the address has a packet waiting when the first is reported lost once more, and it is gone.
   */
  lemma LateReportTakesANewerSession<P>(addr: Addr, p: P, q: P)
    ensures var start: Node<P> := Node(State(map[], map[], map[]), 0, [], {});
            var lost := Esi(1, Some(addr), 0);
            var inputs := [InSend(addr, p), InGone(lost), InSend(addr, q)];
            && NodeRun(start, inputs)
            && var n := NodeAfter(start, inputs);
               && addr in n.st.sa2sess && n.st.sa2sess[addr] == Sess(2, None, [q], [q])
               && InputEnabled(n, InGone(lost)) && addr !in NodeNext(n, InGone(lost)).st.sa2sess
  {
    var start: Node<P> := Node(State(map[], map[], map[]), 0, [], {});
    var lost := Esi(1, Some(addr), 0);
    var inputs := [InSend(addr, p), InGone(lost), InSend(addr, q)];
    var n1 := NodeNext(start, inputs[0]);
    var n2 := NodeNext(n1, inputs[1]);
    var n3 := NodeNext(n2, inputs[2]);
    assert inputs[1..] == [InGone(lost), InSend(addr, q)] && inputs[1..][1..] == [InSend(addr, q)];
    assert NodeRun(n3, []) && NodeAfter(n3, []) == n3;
    assert NodeRun(n2, [InSend(addr, q)]) && NodeAfter(n2, [InSend(addr, q)]) == n3;
    assert NodeRun(n1, inputs[1..]) && NodeAfter(n1, inputs[1..]) == n3;
    assert [] + [q] == [q];
  }
}
