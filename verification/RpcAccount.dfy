/** What becomes of every packet given to RPC::Service, told from the inputs of a run alone. */
module RpcAccount {
  import opened Prelude
  import opened Rpc

  // ---------------------------------------------------------------- the inputs

  /** The packets passed to a socket id, in order. */
  function PassedTo<P>(inputs: seq<Input<P>>, id: int64): seq<P>
  {
    if inputs == [] then []
    else (if inputs[0].InPass? && inputs[0].id == id then [inputs[0].packet] else []) + PassedTo(inputs[1..], id)
  }

  /** The packets sent to an address, in order. */
  function SentTo<P>(inputs: seq<Input<P>>, addr: Addr): seq<P>
  {
    if inputs == [] then []
    else (if inputs[0].InSend? && inputs[0].addr == addr then [inputs[0].packet] else []) + SentTo(inputs[1..], addr)
  }

  predicate Announces<P>(input: Input<P>, id: int64) { input.InAccepted? && input.id == id }

  predicate Loses<P>(input: Input<P>, id: int64) { input.InDisaccepted? && input.esi.id == id }

  predicate Ends<P>(input: Input<P>, addr: Addr) { input.InGone? && input.esi.request == Some(addr) }

  predicate Connects<P>(input: Input<P>, addr: Addr) { input.InConnected? && input.esi.request == Some(addr) }

  /** A packet was sent to the address, and later a connection to it was reported. */
  predicate Reached<P>(inputs: seq<Input<P>>, addr: Addr)
  {
    exists i: nat, j: nat :: i < j < |inputs| && inputs[i].InSend? && inputs[i].addr == addr && Connects(inputs[j], addr)
  }

  // ---------------------------------------------------------------- what went out

  /** An accepted socket, or the connection to an address. */
  datatype Line = Socket(id: int64) | To(addr: Addr)

  predicate GoesTo(esi: Esi, line: Line)
  {
    match line
    case Socket(id) => esi.request.None? && esi.id == id
    case To(addr) => esi.request == Some(addr)
  }

  /** The packets that went to Oscar for a line, in order. */
  function On<P>(log: seq<Output<P>>, line: Line): seq<P>
  {
    if log == [] then []
    else
      var last := log[|log| - 1];
      On(log[..|log| - 1], line) + if last.SendTo? && GoesTo(last.esi, line) then [last.packet] else []
  }

  /** How often a connection to the address was asked for. */
  function Asked<P>(log: seq<Output<P>>, addr: Addr): nat
  {
    if log == [] then 0
    else
      var last := log[|log| - 1];
      Asked(log[..|log| - 1], addr) + if last.ConnectTo? && last.addr == addr then 1 else 0
  }

  lemma {:induction false} OnAppend<P>(log: seq<Output<P>>, outs: seq<Output<P>>, line: Line)
    ensures On(log + outs, line) == On(log, line) + On(outs, line)
  {
    if outs == [] {
      assert log + outs == log;
    } else {
      var init := outs[..|outs| - 1];
      assert (log + outs)[..|log + outs| - 1] == log + init;
      OnAppend(log, init, line);
    }
  }

  lemma {:induction false} AskedAppend<P>(log: seq<Output<P>>, outs: seq<Output<P>>, addr: Addr)
    ensures Asked(log + outs, addr) == Asked(log, addr) + Asked(outs, addr)
  {
    if outs == [] {
      assert log + outs == log;
    } else {
      var init := outs[..|outs| - 1];
      assert (log + outs)[..|log + outs| - 1] == log + init;
      AskedAppend(log, init, addr);
    }
  }

  lemma OnOne<P>(out: Output<P>, line: Line)
    ensures On([out], line) == if out.SendTo? && GoesTo(out.esi, line) then [out.packet] else []
  {
    assert [out][..0] == [];
  }

  lemma AskedOne<P>(out: Output<P>, addr: Addr)
    ensures Asked([out], addr) == if out.ConnectTo? && out.addr == addr then 1 else 0
  {
    assert [out][..0] == [];
  }

  lemma NothingOut<P>(line: Line, addr: Addr)
    ensures On<P>([], line) == [] && Asked<P>([], addr) == 0
  {
  }

  lemma {:induction false} OnSends<P>(owner: int64, esi: Esi, ps: seq<P>, line: Line, addr: Addr)
    ensures On(Sends(owner, esi, ps), line) == if GoesTo(esi, line) then ps else []
    ensures Asked(Sends(owner, esi, ps), addr) == 0
  {
    hide On, Asked, GoesTo;
    NothingOut<P>(line, addr);
    if ps != [] {
      var head := SendTo(owner, esi, ps[0]);
      OnSends(owner, esi, ps[1..], line, addr);
      OnAppend([head], Sends(owner, esi, ps[1..]), line);
      AskedAppend([head], Sends(owner, esi, ps[1..]), addr);
      OnOne(head, line);
      AskedOne(head, addr);
    }
  }

  // ---------------------------------------------------------------- sessions

  /** A session has the sockets of its line only, and holds nothing back once it has one. */
  ghost predicate SessOk<P>(s: Sess<P>, line: Line)
  {
    s.esi.Some? ==> GoesTo(s.esi.value, line) && s.outCache == []
  }

  ghost predicate Ok<P>(n: Node<P>)
  {
    && (forall id :: id in n.st.sock2sess ==> SessOk(n.st.sock2sess[id], Socket(id)) && n.st.sock2sess[id].esi.Some? && id !in n.st.passCache)
    && (forall a :: a in n.st.sa2sess ==> SessOk(n.st.sa2sess[a], To(a)))
    && (forall id :: id in n.unannounced ==> id !in n.st.sock2sess)
    && (forall id :: id in n.st.sock2sess ==> id <= n.gen)
    && (forall id :: id in n.unannounced ==> id <= n.gen)
  }

  /** One more packet goes out on the line, or is held back behind the others. */
  lemma AddSendAccounts<P>(s: Sess<P>, p: P, line: Line, other: Line, addr: Addr)
    requires SessOk(s, line)
    ensures var (t, outs) := AddSend(s, p);
            && SessOk(t, line) && t.esi == s.esi
            && On(outs, line) + t.outCache == s.outCache + [p]
            && (other != line ==> On(outs, other) == []) && Asked(outs, addr) == 0
  {
    if s.esi.Some? {
      var out := SendTo(s.socketId, s.esi.value, p);
      assert AddSend(s, p).1 == [out];
      OnOne(out, line);
      OnOne(out, other);
      AskedOne(out, addr);
    }
  }

  lemma {:induction false} AddSendsAccounts<P>(s: Sess<P>, ps: seq<P>, line: Line, other: Line, addr: Addr)
    requires SessOk(s, line) && s.esi.Some?
    ensures var (t, outs) := AddSends(s, ps);
            && SessOk(t, line) && t.esi == s.esi && On(outs, line) == ps
            && (other != line ==> On(outs, other) == []) && Asked(outs, addr) == 0
    decreases ps
  {
    if ps != [] {
      hide AddSend, SessOk;
      var (t, outs) := AddSend(s, ps[0]);
      var (u, more) := AddSends(t, ps[1..]);
      AddSendAccounts(s, ps[0], line, other, addr);
      NothingHeld(s, line);
      NothingHeld(t, line);
      AddSendsAccounts(t, ps[1..], line, other, addr);
      OnAppend(outs, more, line);
      OnAppend(outs, more, other);
      AskedAppend(outs, more, addr);
      assert [ps[0]] + ps[1..] == ps;
    }
  }

  lemma NothingHeld<P>(s: Sess<P>, line: Line)
    requires SessOk(s, line) && s.esi.Some?
    ensures s.outCache == []
  {
  }

  // ---------------------------------------------------------------- one input

  /** What is held back for an address. */
  function Held<P>(st: State<P>, addr: Addr): seq<P>
  {
    if addr in st.sa2sess then st.sa2sess[addr].outCache else []
  }

  lemma StepKeepsOk<P>(n: Node<P>, input: Input<P>)
    requires Ok(n) && InputEnabled(n, input)
    ensures Ok(NodeNext(n, input))
  {
    hide AddSend, AddSends, GoesTo;
    match input
    case InSend(addr, p) =>
      var s := if addr in n.st.sa2sess then n.st.sa2sess[addr] else Sess(n.gen + 1, None, [], []);
      AddSendAccounts(s, p, To(addr), To(addr), addr);
    case InPass(id, p) =>
      if id in n.st.sock2sess {
        AddSendAccounts(n.st.sock2sess[id], p, Socket(id), Socket(id), 0);
      }
    case InAccepted(id, fd) =>
      assert GoesTo(Esi(id, None, fd), Socket(id)) by { SocketGoes(id, fd); }
      AddSendsAccounts(Sess(id, Some(Esi(id, None, fd)), [], []), Cached(n.st, id), Socket(id), Socket(id), 0);
    case InConnected(esi) =>
      if esi.request.Some? {
        RequestGoes(esi);
      }
    case _ =>
  }

  lemma SocketGoes(id: int64, fd: nat)
    ensures GoesTo(Esi(id, None, fd), Socket(id))
  {
  }

  lemma RequestGoes(esi: Esi)
    requires esi.request.Some?
    ensures GoesTo(esi, To(esi.request.value))
  {
  }

  /** The outputs of one input. */
  function Outs<P>(n: Node<P>, input: Input<P>): seq<Output<P>>
    requires InputEnabled(n, input)
  {
    match input
    case InSend(addr, p) => OnSend(n.st, addr, p, n.gen + 1).1
    case InPass(id, p) => OnPass(n.st, id, p).1
    case InAccepted(id, fd) => OnAccepted(n.st, Esi(id, None, fd)).1
    case InConnected(esi) => OnConnected(n.st, esi).1
    case _ => []
  }

  lemma LogGrows<P>(n: Node<P>, input: Input<P>)
    requires InputEnabled(n, input)
    ensures NodeNext(n, input).log == n.log + Outs(n, input)
  {
    hide OnSend, OnPass, OnAccepted, OnConnected;
    assert n.log + [] == n.log;
  }

  /** What one input puts on a socket or leaves in its cache. */
  lemma SocketOuts<P>(n: Node<P>, input: Input<P>, id: int64)
    requires Ok(n) && InputEnabled(n, input)
    ensures Cached(n.st, id) + (if input.InPass? && input.id == id then [input.packet] else []) ==
            On(Outs(n, input), Socket(id)) + Cached(NodeNext(n, input).st, id)
  {
    hide AddSend, AddSends, On;
    var line := Socket(id);
    NothingOut<P>(line, 0);
    match input
    case InSend(addr, p) =>
      var s := if addr in n.st.sa2sess then n.st.sa2sess[addr] else Sess(n.gen + 1, None, [], []);
      AddSendAccounts(s, p, To(addr), line, addr);
      OnOne<P>(ConnectTo(n.gen + 1, addr), line);
      OnAppend([ConnectTo(n.gen + 1, addr)], AddSend(s, p).1, line);
    case InPass(to, p) =>
      if to in n.st.sock2sess {
        AddSendAccounts(n.st.sock2sess[to], p, Socket(to), line, 0);
        NothingHeld(AddSend(n.st.sock2sess[to], p).0, Socket(to));
      }
    case InAccepted(to, fd) =>
      AddSendsAccounts(Sess(to, Some(Esi(to, None, fd)), [], []), Cached(n.st, to), Socket(to), line, 0);
    case InConnected(esi) =>
      if esi.request.Some? && esi.request.value in n.st.sa2sess {
        var s := n.st.sa2sess[esi.request.value];
        OnSends(s.socketId, esi, s.outCache, line, 0);
      }
    case _ =>
  }

  lemma SendOuts<P>(n: Node<P>, to: Addr, p: P, addr: Addr)
    requires Ok(n) && n.gen < MAX_ID
    ensures Held(n.st, addr) + (if to == addr then [p] else []) ==
            On(Outs(n, InSend(to, p)), To(addr)) + Held(NodeNext(n, InSend(to, p)).st, addr)
    ensures Asked(Outs(n, InSend(to, p)), addr) == if to == addr && addr !in n.st.sa2sess then 1 else 0
  {
    hide AddSend, On, Asked;
    var ask := ConnectTo(n.gen + 1, to);
    var s := if to in n.st.sa2sess then n.st.sa2sess[to] else Sess(n.gen + 1, None, [], []);
    AddSendAccounts(s, p, To(to), To(addr), addr);
    OnOne<P>(ask, To(addr));
    AskedOne<P>(ask, addr);
    OnAppend([ask], AddSend(s, p).1, To(addr));
    AskedAppend([ask], AddSend(s, p).1, addr);
  }

  /** What one input puts on the way to an address or holds back for it, unless it ends the session. */
  lemma AddressOuts<P>(n: Node<P>, input: Input<P>, addr: Addr)
    requires Ok(n) && InputEnabled(n, input) && !Ends(input, addr)
    ensures Held(n.st, addr) + (if input.InSend? && input.addr == addr then [input.packet] else []) ==
            On(Outs(n, input), To(addr)) + Held(NodeNext(n, input).st, addr)
    ensures Asked(Outs(n, input), addr) == if input.InSend? && input.addr == addr && addr !in n.st.sa2sess then 1 else 0
    ensures addr in NodeNext(n, input).st.sa2sess <==> addr in n.st.sa2sess || (input.InSend? && input.addr == addr)
  {
    hide AddSend, AddSends, On, Asked;
    var line := To(addr);
    NothingOut<P>(line, addr);
    match input
    case InSend(to, p) =>
      SendOuts(n, to, p, addr);
    case InPass(to, p) =>
      if to in n.st.sock2sess {
        AddSendAccounts(n.st.sock2sess[to], p, Socket(to), line, addr);
      }
    case InAccepted(to, fd) =>
      AddSendsAccounts(Sess(to, Some(Esi(to, None, fd)), [], []), Cached(n.st, to), Socket(to), line, addr);
    case InConnected(esi) =>
      if esi.request.Some? && esi.request.value in n.st.sa2sess {
        var s := n.st.sa2sess[esi.request.value];
        OnSends(s.socketId, esi, s.outCache, line, addr);
      }
    case _ =>
  }

  // ---------------------------------------------------------------- whole runs

  /** What is on a socket, then in its cache, grows by what is passed to it, and by nothing else. */
  lemma {:induction false} SocketRun<P>(n: Node<P>, inputs: seq<Input<P>>, id: int64)
    requires Ok(n) && NodeRun(n, inputs)
    ensures var n' := NodeAfter(n, inputs);
            Ok(n') && On(n'.log, Socket(id)) + Cached(n'.st, id) == On(n.log, Socket(id)) + Cached(n.st, id) + PassedTo(inputs, id)
    decreases inputs
  {
    hide Ok, On, Outs, NodeNext, Cached;
    if inputs != [] {
      var line, n1 := Socket(id), NodeNext(n, inputs[0]);
      StepKeepsOk(n, inputs[0]);
      SocketOuts(n, inputs[0], id);
      LogGrows(n, inputs[0]);
      OnAppend(n.log, Outs(n, inputs[0]), line);
      SocketRun(n1, inputs[1..], id);
      var now := if inputs[0].InPass? && inputs[0].id == id then [inputs[0].packet] else [];
      Assoc(On(n.log, line), On(Outs(n, inputs[0]), line), Cached(n1.st, id));
      Assoc(On(n.log, line), Cached(n.st, id), now);
      Assoc(On(n.log, line) + Cached(n.st, id), now, PassedTo(inputs[1..], id));
    }
  }

  predicate NotLost<P>(inputs: seq<Input<P>>, id: int64)
  {
    forall i: nat :: i < |inputs| ==> !Loses(inputs[i], id)
  }

  predicate Known<P>(inputs: seq<Input<P>>, id: int64)
  {
    exists i: nat :: i < |inputs| && Announces(inputs[i], id)
  }

  /** An announced socket has its session until it is reported lost. */
  lemma {:induction false} LiveRun<P>(n: Node<P>, inputs: seq<Input<P>>, id: int64)
    requires Ok(n) && NodeRun(n, inputs) && NotLost(inputs, id)
    ensures id in NodeAfter(n, inputs).st.sock2sess <==> id in n.st.sock2sess || Known(inputs, id)
    decreases inputs
  {
    if inputs != [] {
      hide Ok;
      StepKeepsOk(n, inputs[0]);
      SocketStays(n, inputs[0], id);
      LiveRun(NodeNext(n, inputs[0]), inputs[1..], id);
      KnownFirst(inputs, id);
    }
  }

  lemma SocketStays<P>(n: Node<P>, input: Input<P>, id: int64)
    requires InputEnabled(n, input) && !Loses(input, id)
    ensures id in NodeNext(n, input).st.sock2sess <==> id in n.st.sock2sess || Announces(input, id)
  {
    hide AddSend, AddSends;
  }

  lemma KnownFirst<P>(inputs: seq<Input<P>>, id: int64)
    requires inputs != []
    ensures Known(inputs, id) <==> Announces(inputs[0], id) || Known(inputs[1..], id)
  {
    if Known(inputs, id) && !Announces(inputs[0], id) {
      var i: nat :| i < |inputs| && Announces(inputs[i], id);
      assert Announces(inputs[1..][i - 1], id);
    }
    if Known(inputs[1..], id) {
      var i: nat :| i < |inputs[1..]| && Announces(inputs[1..][i], id);
      assert Announces(inputs[i + 1], id);
    }
  }

  /** Nothing goes out on a socket that was not announced. */
  lemma {:induction false} SilentRun<P>(n: Node<P>, inputs: seq<Input<P>>, id: int64)
    requires Ok(n) && NodeRun(n, inputs) && !Known(inputs, id) && id !in n.st.sock2sess
    ensures On(NodeAfter(n, inputs).log, Socket(id)) == On(n.log, Socket(id)) && id !in NodeAfter(n, inputs).st.sock2sess
    decreases inputs
  {
    hide Ok, On;
    if inputs != [] {
      StepKeepsOk(n, inputs[0]);
      KnownFirst(inputs, id);
      SilentStep(n, inputs[0], id);
      LogGrows(n, inputs[0]);
      OnAppend(n.log, Outs(n, inputs[0]), Socket(id));
      SilentRun(NodeNext(n, inputs[0]), inputs[1..], id);
    }
  }

  lemma SilentStep<P>(n: Node<P>, input: Input<P>, id: int64)
    requires Ok(n) && InputEnabled(n, input) && id !in n.st.sock2sess && !Announces(input, id)
    ensures On(Outs(n, input), Socket(id)) == [] && id !in NodeNext(n, input).st.sock2sess
  {
    hide AddSend, AddSends, On;
    SocketOuts(n, input, id);
    assert |Cached(NodeNext(n, input).st, id)| >= |Cached(n.st, id)| + if input.InPass? && input.id == id then 1 else 0;
  }

  /** A node at its start. */
  function Fresh<P>(): Node<P>
  {
    Node(State(map[], map[], map[]), 0, [], {})
  }

  lemma FreshIsOk<P>()
    ensures Ok(Fresh<P>())
  {
  }

  /**
   In every run, for every socket id: what went out on that socket, then what waits in passCache, is
   exactly what was passed to it, in order. All of it went out if the socket was announced and has
   not been reported lost; none of it if it was not announced.
   */
  lemma RepliesAreAccountedFor<P>(inputs: seq<Input<P>>, id: int64)
    requires NodeRun(Fresh<P>(), inputs)
    ensures var n := NodeAfter(Fresh<P>(), inputs);
            && On(n.log, Socket(id)) + Cached(n.st, id) == PassedTo(inputs, id)
            && (Known(inputs, id) && NotLost(inputs, id) ==> On(n.log, Socket(id)) == PassedTo(inputs, id))
            && (!Known(inputs, id) ==> Cached(n.st, id) == PassedTo(inputs, id))
  {
    hide Known, NotLost, On, PassedTo;
    FreshIsOk<P>();
    NothingOut<P>(Socket(id), 0);
    SocketRun(Fresh<P>(), inputs, id);
    if Known(inputs, id) && NotLost(inputs, id) {
      LiveRun(Fresh<P>(), inputs, id);
    } else if !Known(inputs, id) {
      SilentRun(Fresh<P>(), inputs, id);
    }
  }

  predicate NotEnded<P>(inputs: seq<Input<P>>, addr: Addr)
  {
    forall i: nat :: i < |inputs| ==> !Ends(inputs[i], addr)
  }

  /** A connection to the address was reported while there was a session for it. */
  predicate Served<P>(inputs: seq<Input<P>>, addr: Addr, there: bool)
    decreases inputs
  {
    inputs != [] &&
    ((there && Connects(inputs[0], addr)) ||
     Served(inputs[1..], addr, there || (inputs[0].InSend? && inputs[0].addr == addr)))
  }

  lemma {:induction false} ServedMeans<P>(inputs: seq<Input<P>>, addr: Addr, there: bool)
    ensures Served(inputs, addr, there) <==>
            Reached(inputs, addr) || (there && exists j: nat :: j < |inputs| && Connects(inputs[j], addr))
    decreases inputs
  {
    if inputs != [] {
      var sent := inputs[0].InSend? && inputs[0].addr == addr;
      var rest := inputs[1..];
      ServedMeans(rest, addr, there || sent);
      assert forall j: nat :: j < |rest| ==> rest[j] == inputs[j + 1];
      if Reached(inputs, addr) {
        var i: nat, j: nat :| i < j < |inputs| && inputs[i].InSend? && inputs[i].addr == addr && Connects(inputs[j], addr);
        assert Connects(rest[j - 1], addr);
        assert i > 0 ==> rest[i - 1].InSend? && rest[i - 1].addr == addr;
      }
      if there && exists j: nat :: j < |inputs| && Connects(inputs[j], addr) {
        var j: nat :| j < |inputs| && Connects(inputs[j], addr);
        assert j > 0 ==> Connects(rest[j - 1], addr);
      }
      if Reached(rest, addr) {
        var i: nat, j: nat :| i < j < |rest| && rest[i].InSend? && rest[i].addr == addr && Connects(rest[j], addr);
        assert inputs[i + 1].InSend? && inputs[i + 1].addr == addr && Connects(inputs[j + 1], addr);
      }
      if exists j: nat :: j < |rest| && Connects(rest[j], addr) {
        var j: nat :| j < |rest| && Connects(rest[j], addr);
        assert Connects(inputs[j + 1], addr);
      }
    }
  }

  predicate IsUp<P>(st: State<P>, addr: Addr)
  {
    addr in st.sa2sess && st.sa2sess[addr].esi.Some?
  }

  lemma UpStep<P>(n: Node<P>, input: Input<P>, addr: Addr)
    requires Ok(n) && InputEnabled(n, input) && !Ends(input, addr)
    ensures IsUp(NodeNext(n, input).st, addr) <==> IsUp(n.st, addr) || (addr in n.st.sa2sess && Connects(input, addr))
  {
    hide AddSends, GoesTo;
  }

  /** What went out to an address, then what is held back, grows by what is sent to it until the session ends. */
  lemma {:induction false} AddressRun<P>(n: Node<P>, inputs: seq<Input<P>>, addr: Addr)
    requires Ok(n) && NodeRun(n, inputs) && NotEnded(inputs, addr)
    ensures var n' := NodeAfter(n, inputs);
            && Ok(n') && On(n'.log, To(addr)) + Held(n'.st, addr) == On(n.log, To(addr)) + Held(n.st, addr) + SentTo(inputs, addr)
            && Asked(n'.log, addr) == Asked(n.log, addr) + (if addr !in n.st.sa2sess && SentTo(inputs, addr) != [] then 1 else 0)
            && (IsUp(n'.st, addr) <==> IsUp(n.st, addr) || Served(inputs, addr, addr in n.st.sa2sess))
    decreases inputs
  {
    hide Ok, On, Asked, Outs, NodeNext, Held, IsUp;
    if inputs != [] {
      var line, n1 := To(addr), NodeNext(n, inputs[0]);
      StepKeepsOk(n, inputs[0]);
      AddressOuts(n, inputs[0], addr);
      UpStep(n, inputs[0], addr);
      LogGrows(n, inputs[0]);
      OnAppend(n.log, Outs(n, inputs[0]), line);
      AskedAppend(n.log, Outs(n, inputs[0]), addr);
      AddressRun(n1, inputs[1..], addr);
      var now := if inputs[0].InSend? && inputs[0].addr == addr then [inputs[0].packet] else [];
      Assoc(On(n.log, line), On(Outs(n, inputs[0]), line), Held(n1.st, addr));
      Assoc(On(n.log, line), Held(n.st, addr), now);
      Assoc(On(n.log, line) + Held(n.st, addr), now, SentTo(inputs[1..], addr));
    }
  }

  /**
   From any reached state without a session for an address, until that session is reported lost: what
   goes out to the address, then what is held back, is exactly what is sent to it, in order. One
   connection is asked for if anything is sent, and all has gone out once one is reported.
   */
  lemma RequestsAreAccountedFor<P>(before: seq<Input<P>>, inputs: seq<Input<P>>, addr: Addr)
    requires NodeRun(Fresh<P>(), before) && NodeRun(NodeAfter(Fresh<P>(), before), inputs) && NotEnded(inputs, addr)
    requires addr !in NodeAfter(Fresh<P>(), before).st.sa2sess
    ensures var n := NodeAfter(Fresh<P>(), before);
            var n' := NodeAfter(n, inputs);
            && On(n'.log, To(addr)) + Held(n'.st, addr) == On(n.log, To(addr)) + SentTo(inputs, addr)
            && Asked(n'.log, addr) == Asked(n.log, addr) + (if SentTo(inputs, addr) != [] then 1 else 0)
            && (Reached(inputs, addr) ==> On(n'.log, To(addr)) == On(n.log, To(addr)) + SentTo(inputs, addr))
  {
    hide On, Asked, NotEnded, Reached, Served, SentTo;
    FreshIsOk<P>();
    var n := NodeAfter(Fresh<P>(), before);
    SocketRun(Fresh<P>(), before, 0);
    AddressRun(n, inputs, addr);
    ServedMeans(inputs, addr, false);
  }
}
