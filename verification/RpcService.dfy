/** RPC::Service itself: the same handlers, updating session objects shared by reference. */
module RpcService {
  import opened Prelude
  import opened EventCodec
  import opened Rpc

  class Session {
    const socketId: int64
    var esi: Option<Esi>
    var outCache: seq<Bytes>
    ghost var submitted: seq<Bytes>

    ghost function View(): Sess<Bytes>
      reads this
    {
      Sess(socketId, esi, outCache, submitted)
    }

    constructor (id: int64, e: Option<Esi>)
      ensures View() == Sess(id, e, [], [])
    {
      socketId := id;
      esi := e;
      outCache := [];
      submitted := [];
    }
  }

  class Service {
    var sa2sess: map<Addr, Session>
    var sock2sess: map<int64, Session>
    var passCache: map<int64, seq<Bytes>>
    var gen: int64
    /** Events sent to the Oscar listener. */
    var sent: seq<Output<Bytes>>

    /** No session object serves two keys. */
    ghost predicate Valid()
      reads this
    {
      && (forall a, b :: a in sa2sess && b in sa2sess && a != b ==> sa2sess[a] != sa2sess[b])
      && (forall a, b :: a in sock2sess && b in sock2sess && a != b ==> sock2sess[a] != sock2sess[b])
      && (forall a, b :: a in sa2sess && b in sock2sess ==> sa2sess[a] != sock2sess[b])
    }

    ghost function Sessions(): set<object>
      reads this
    {
      (set a | a in sa2sess :: sa2sess[a]) + (set id | id in sock2sess :: sock2sess[id])
    }

    ghost function View(): State<Bytes>
      reads this, Sessions()
    {
      State(map a | a in sa2sess :: sa2sess[a].View(), map id | id in sock2sess :: sock2sess[id].View(), passCache)
    }

    constructor ()
      ensures Valid() && Sessions() == {}
      ensures View() == State(map[], map[], map[]) && gen == 0 && sent == []
    {
      sa2sess, sock2sess, passCache := map[], map[], map[];
      gen := 0;
      sent := [];
    }

    /** flushOutCache. */
    method FlushOutCache(s: Session)
      requires s.esi.Some?
      modifies this`sent, s
      ensures s.View() == Flush(old(s.View())).0
      ensures sent == old(sent) + Flush(old(s.View())).1
    {
      var d := s.outCache;
      s.outCache := [];
      var i := 0;
      while i < |d|
        invariant 0 <= i <= |d|
        invariant s.View() == Flush(old(s.View())).0
        invariant sent == old(sent) + Sends(s.socketId, s.esi.value, d)[..i]
      {
        sent := sent + [SendTo(s.socketId, s.esi.value, d[i])];
        i := i + 1;
      }
      assert Sends(s.socketId, s.esi.value, d)[..i] == Sends(s.socketId, s.esi.value, d);
    }

    /** addSendPacket. */
    method AddSendPacket(s: Session, p: Bytes)
      modifies this`sent, s
      ensures s.View() == AddSend(old(s.View()), p).0
      ensures sent == old(sent) + AddSend(old(s.View()), p).1
    {
      s.submitted := s.submitted + [p];
      if s.esi.None? {
        s.outCache := s.outCache + [p];
        return;
      }
      FlushOutCache(s);
      sent := sent + [SendTo(s.socketId, s.esi.value, p)];
    }

    /** One more than the last, in 64 bits. */
    method GetNewSocketId() returns (id: int64)
      modifies this`gen
      ensures id == gen && (gen - old(gen) - 1) % TWO_64 == 0 && gen == IdAfter(old(gen))
    {
      gen := if gen == MAX_ID then -TWO_63 else gen + 1;
      id := gen;
    }

    /** Nothing but the session at one key of sock2sess changed. */
    twostate lemma OnlySock(id: int64)
      requires old(Valid()) && id in old(sock2sess)
      requires sa2sess == old(sa2sess) && sock2sess == old(sock2sess) && passCache == old(passCache)
      requires forall a | a in sa2sess :: sa2sess[a].View() == old(sa2sess[a].View())
      requires forall b | b in sock2sess && b != id :: sock2sess[b].View() == old(sock2sess[b].View())
      ensures View() == old(View()).(sock2sess := old(View()).sock2sess[id := sock2sess[id].View()])
    {
      hide Session.View;
      assert View().sa2sess == old(View()).sa2sess;
      assert View().sock2sess == old(View()).sock2sess[id := sock2sess[id].View()];
    }

    twostate lemma OnlySa(addr: Addr)
      requires old(Valid()) && addr in old(sa2sess)
      requires sa2sess == old(sa2sess) && sock2sess == old(sock2sess) && passCache == old(passCache)
      requires forall b | b in sock2sess :: sock2sess[b].View() == old(sock2sess[b].View())
      requires forall a | a in sa2sess && a != addr :: sa2sess[a].View() == old(sa2sess[a].View())
      ensures View() == old(View()).(sa2sess := old(View()).sa2sess[addr := sa2sess[addr].View()])
    {
      hide Session.View;
      assert View().sock2sess == old(View()).sock2sess;
      assert View().sa2sess == old(View()).sa2sess[addr := sa2sess[addr].View()];
    }

    /** A session object that did not exist before was entered under a new key. */
    twostate lemma AddedSa(addr: Addr)
      requires old(Valid()) && addr !in old(sa2sess) && addr in sa2sess && fresh(sa2sess[addr])
      requires sa2sess == old(sa2sess)[addr := sa2sess[addr]] && sock2sess == old(sock2sess)
      requires passCache == old(passCache)
      requires forall a | a in old(sa2sess) :: sa2sess[a].View() == old(sa2sess[a].View())
      requires forall b | b in sock2sess :: sock2sess[b].View() == old(sock2sess[b].View())
      ensures Valid() && fresh(Sessions() - old(Sessions()))
      ensures View() == old(View()).(sa2sess := old(View()).sa2sess[addr := sa2sess[addr].View()])
    {
      hide Session.View;
      assert View().sock2sess == old(View()).sock2sess;
      assert View().sa2sess == old(View()).sa2sess[addr := sa2sess[addr].View()];
    }

    twostate lemma AddedSock(id: int64)
      requires old(Valid()) && id !in old(sock2sess) && id in sock2sess && fresh(sock2sess[id])
      requires sock2sess == old(sock2sess)[id := sock2sess[id]] && sa2sess == old(sa2sess)
      requires passCache == old(passCache) - {id}
      requires forall a | a in sa2sess :: sa2sess[a].View() == old(sa2sess[a].View())
      requires forall b | b in old(sock2sess) :: sock2sess[b].View() == old(sock2sess[b].View())
      ensures Valid() && fresh(Sessions() - old(Sessions()))
      ensures View() == State(old(View()).sa2sess, old(View()).sock2sess[id := sock2sess[id].View()], old(passCache) - {id})
    {
      hide Session.View;
      assert View().sa2sess == old(View()).sa2sess;
      assert View().sock2sess == old(View()).sock2sess[id := sock2sess[id].View()];
    }

    /** Nothing but the cache for one id changed. */
    twostate lemma OnlyCache(id: int64)
      requires sa2sess == old(sa2sess) && sock2sess == old(sock2sess) && passCache == old(passCache) - {id}
      requires forall a | a in sa2sess :: sa2sess[a].View() == old(sa2sess[a].View())
      requires forall b | b in sock2sess :: sock2sess[b].View() == old(sock2sess[b].View())
      ensures View() == old(View()).(passCache := old(passCache) - {id})
    {
      hide Session.View;
      assert View().sa2sess == old(View()).sa2sess;
      assert View().sock2sess == old(View()).sock2sess;
    }

    method PassOn(id: int64, p: Bytes)
      requires Valid()
      modifies this, Sessions()
      ensures Valid() && Sessions() == old(Sessions()) && gen == old(gen)
      ensures View() == OnPass(old(View()), id, p).0
      ensures sent == old(sent) + OnPass(old(View()), id, p).1
    {
      hide AddSend, Session.View;
      if id in sock2sess {
        AddSendPacket(sock2sess[id], p);
        OnlySock(id);
      } else {
        passCache := passCache[id := (if id in passCache then passCache[id] else []) + [p]];
      }
    }

    method OnPassPacket(id: int64, ev: Event)
      requires Valid()
      modifies this, Sessions()
      ensures Valid() && Sessions() == old(Sessions()) && gen == old(gen)
      ensures View() == OnPass(old(View()), id, PackPacket(Pass(ev))).0
      ensures sent == old(sent) + OnPass(old(View()), id, PackPacket(Pass(ev))).1
    {
      PassOn(id, PackPacket(Pass(ev)));
    }

    method Submit(addr: Addr, p: Bytes)
      requires Valid()
      modifies this, Sessions()
      ensures Valid() && fresh(Sessions() - old(Sessions()))
      ensures gen == if addr in old(sa2sess) then old(gen) else IdAfter(old(gen))
      ensures View() == OnSend(old(View()), addr, p, IdAfter(old(gen))).0
      ensures sent == old(sent) + OnSend(old(View()), addr, p, IdAfter(old(gen))).1
    {
      if addr in sa2sess {
        AddSendPacket(sa2sess[addr], p);
        OnlySa(addr);
      } else {
        var id := GetNewSocketId();
        var s := new Session(id, None);
        sa2sess := sa2sess[addr := s];
        sent := sent + [ConnectTo(id, addr)];
        AddSendPacket(s, p);
        AddedSa(addr);
      }
    }

    method OnSendPacket(addr: Addr, dst: int32, ev: Event)
      requires Valid()
      modifies this, Sessions()
      ensures Valid() && fresh(Sessions() - old(Sessions()))
      ensures gen == if addr in old(sa2sess) then old(gen) else IdAfter(old(gen))
      ensures View() == OnSend(old(View()), addr, PackPacket(Send(dst, ev)), IdAfter(old(gen))).0
      ensures sent == old(sent) + OnSend(old(View()), addr, PackPacket(Send(dst, ev)), IdAfter(old(gen))).1
    {
      Submit(addr, PackPacket(Send(dst, ev)));
    }

    method OnAccepted(esi: Esi)
      requires Valid()
      modifies this, Sessions()
      ensures Valid() && fresh(Sessions() - old(Sessions())) && gen == old(gen)
      ensures View() == Rpc.OnAccepted(old(View()), esi).0
      ensures sent == old(sent) + Rpc.OnAccepted(old(View()), esi).1
    {
      if esi.id in sock2sess {
        AcceptAgain(esi);
      } else {
        AcceptNew(esi);
      }
    }

    /** emplace enters the session. */
    method AcceptNew(esi: Esi)
      requires Valid() && esi.id !in sock2sess
      modifies this
      ensures Valid() && fresh(Sessions() - old(Sessions())) && gen == old(gen)
      ensures View() == Rpc.OnAccepted(old(View()), esi).0
      ensures sent == old(sent) + Rpc.OnAccepted(old(View()), esi).1
    {
      hide AddSends, AddSend, Session.View;
      var s := new Session(esi.id, Some(esi));
      sock2sess := sock2sess[esi.id := s];
      var d := if esi.id in passCache then passCache[esi.id] else [];
      passCache := passCache - {esi.id};
      assert forall b | b in old(sock2sess) :: sock2sess[b] != s;
      SendAll(s, d);
      AddedSock(esi.id);
    }

    /** emplace finds one there: the new session sends what was waiting and is dropped. */
    method AcceptAgain(esi: Esi)
      requires Valid() && esi.id in sock2sess
      modifies this
      ensures Valid() && Sessions() == old(Sessions()) && gen == old(gen)
      ensures View() == Rpc.OnAccepted(old(View()), esi).0
      ensures sent == old(sent) + Rpc.OnAccepted(old(View()), esi).1
    {
      hide AddSends, AddSend;
      var s := new Session(esi.id, Some(esi));
      var d := if esi.id in passCache then passCache[esi.id] else [];
      passCache := passCache - {esi.id};
      SendAll(s, d);
      OnlyCache(esi.id);
    }

    /** The loop of on_Accepted over the replies that were waiting. */
    method SendAll(s: Session, d: seq<Bytes>)
      modifies this`sent, s
      ensures s.View() == AddSends(old(s.View()), d).0
      ensures sent == old(sent) + AddSends(old(s.View()), d).1
    {
      var i := 0;
      assert d[0..] == d;
      while i < |d|
        invariant 0 <= i <= |d|
        invariant AddSends(s.View(), d[i..]).0 == AddSends(old(s.View()), d).0
        invariant sent + AddSends(s.View(), d[i..]).1 == old(sent) + AddSends(old(s.View()), d).1
      {
        ghost var before, s0 := sent, s.View();
        assert d[i..][1..] == d[i + 1..];
        AddSendPacket(s, d[i]);
        assert sent + AddSends(s.View(), d[i + 1..]).1 == before + AddSends(s0, d[i..]).1;
        i := i + 1;
      }
      assert d[i..] == [] && sent + [] == sent;
    }

    /** False where on_Connected throws. */
    method OnConnected(esi: Esi) returns (ok: bool)
      requires Valid()
      modifies this, Sessions()
      ensures Valid() && Sessions() == old(Sessions()) && gen == old(gen)
      ensures ok <==> esi.request.Some? && esi.request.value in old(sa2sess)
      ensures View() == Rpc.OnConnected(old(View()), esi).0
      ensures sent == old(sent) + Rpc.OnConnected(old(View()), esi).1
    {
      if esi.request.None? || esi.request.value !in sa2sess {
        return false;
      }
      var s := sa2sess[esi.request.value];
      s.esi := Some(esi);
      FlushOutCache(s);
      OnlySa(esi.request.value);
      return true;
    }

    /** on_ConnectFailed, and on_Disconnected after its notifications. */
    method OnGone(esi: Esi)
      requires Valid()
      modifies this`sa2sess
      ensures Valid() && Sessions() <= old(Sessions())
      ensures View() == Rpc.OnGone(old(View()), esi)
    {
      if esi.request.Some? {
        sa2sess := sa2sess - {esi.request.value};
        assert View().sa2sess == old(View()).sa2sess - {esi.request.value};
      }
    }

    method OnDisaccepted(esi: Esi)
      requires Valid()
      modifies this`sock2sess
      ensures Valid() && Sessions() <= old(Sessions())
      ensures View() == Rpc.OnDisaccepted(old(View()), esi)
    {
      sock2sess := sock2sess - {esi.id};
      assert View().sock2sess == old(View()).sock2sess - {esi.id};
    }

    /** Each session once. */
    static ghost predicate Lists(order: seq<Session>, all: set<Session>)
    {
      (forall s | s in order :: s in all) && (forall s | s in all :: s in order) &&
      forall i, j :: 0 <= i < j < |order| ==> order[i] != order[j]
    }

    static ghost function Views(order: seq<Session>): (r: seq<Sess<Bytes>>)
      reads order
      ensures |r| == |order| && forall i :: 0 <= i < |r| ==> r[i] == order[i].View()
    {
      if order == [] then [] else [order[0].View()] + Views(order[1..])
    }

    /** The order in which the set is gone through. */
    static method ListOf(all: set<Session>) returns (order: seq<Session>)
      ensures Lists(order, all)
    {
      var todo := all;
      order := [];
      while todo != {}
        invariant todo <= all && Lists(order, all - todo)
        decreases |todo|
      {
        var s :| s in todo;
        ListsOneMore(order, all - todo, s);
        assert all - (todo - {s}) == all - todo + {s};
        order, todo := order + [s], todo - {s};
      }
      assert all - todo == all;
    }

    static lemma ListsOneMore(order: seq<Session>, all: set<Session>, s: Session)
      requires Lists(order, all) && s !in all
      ensures Lists(order + [s], all + {s})
    {
      forall t | t in all + {s} ensures t in order + [s] {
        if t == s {
          assert (order + [s])[|order|] == s;
        }
      }
    }

    method FlushIfUp(s: Session)
      modifies this`sent, s
      ensures s.View() == Flushed(old(s.View()))
      ensures sent == old(sent) + if old(s.View()).esi.Some? then Flush(old(s.View())).1 else []
    {
      if s.esi.Some? {
        FlushOutCache(s);
      }
    }

    method FlushEach(order: seq<Session>, ghost were: seq<Sess<Bytes>>)
      requires forall i, j :: 0 <= i < j < |order| ==> order[i] != order[j]
      requires |were| == |order| && forall i :: 0 <= i < |order| ==> were[i] == order[i].View()
      modifies this`sent, order
      ensures forall i :: 0 <= i < |order| ==> order[i].View() == Flushed(were[i])
      ensures sent == old(sent) + Flushes(were)
    {
      hide Flush, Flushes, Flushed, Session.View;
      NothingFlushed<Bytes>();
      for k := 0 to |order|
        invariant forall i :: 0 <= i < k ==> order[i].View() == Flushed(were[i])
        invariant forall i :: k <= i < |order| ==> order[i].View() == were[i]
        invariant sent == old(sent) + Flushes(were[..k])
      {
        FlushIfUp(order[k]);
        FlushesOneMore(were[..k], were[k]);
        assert were[..k + 1] == were[..k] + [were[k]];
      }
      assert were[..|order|] == were;
    }

    /** Every session with a socket is flushed, once, in some order. */
    method FlushAll() returns (ghost order: seq<Session>, ghost were: seq<Sess<Bytes>>)
      modifies this`sent, Sessions()
      ensures forall a | a in sa2sess :: sa2sess[a].View() == Flushed(old(sa2sess[a].View()))
      ensures forall id | id in sock2sess :: sock2sess[id].View() == Flushed(old(sock2sess[id].View()))
      ensures Lists(order, (set a | a in sa2sess :: sa2sess[a]) + (set id | id in sock2sess :: sock2sess[id]))
      ensures |were| == |order| && forall i :: 0 <= i < |order| ==> order[i] in old(Sessions()) && were[i] == old(order[i].View())
      ensures sent == old(sent) + Flushes(were)
    {
      hide Flush, Flushes, Flushed, Session.View;
      var all: set<Session> := (set a | a in sa2sess :: sa2sess[a]) + (set id | id in sock2sess :: sock2sess[id]);
      var listed := ListOf(all);
      order, were := listed, Views(listed);
      forall i | 0 <= i < |listed| ensures listed[i] in all {
        assert listed[i] in listed;
      }
      assert forall s | s in all :: s in listed;
      hide Lists;
      FlushEach(listed, were);
      forall s | s in all ensures s.View() == Flushed(old(s.View())) {
        assert s in listed;
        var i :| 0 <= i < |listed| && listed[i] == s;
      }
    }
  }

  /** What flushing these sessions sends, one after the other. */
  function Flushes<P>(ss: seq<Sess<P>>): seq<Output<P>>
  {
    if ss == [] then []
    else
      var s := ss[|ss| - 1];
      Flushes(ss[..|ss| - 1]) + if s.esi.Some? then Flush(s).1 else []
  }

  lemma NothingFlushed<P>()
    ensures Flushes<P>([]) == []
  {
  }

  lemma FlushesOneMore<P>(ss: seq<Sess<P>>, s: Sess<P>)
    ensures Flushes(ss + [s]) == Flushes(ss) + if s.esi.Some? then Flush(s).1 else []
  {
    assert (ss + [s])[..|ss|] == ss;
  }

  function Flushed<P>(s: Sess<P>): Sess<P>
  {
    if s.esi.Some? then Flush(s).0 else s
  }
}
