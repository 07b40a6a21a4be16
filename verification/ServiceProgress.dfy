/** That services do start: what is built is told to start, calls come to an end, and one left alone gets its service. */
module ServiceProgress {
  import opened ServiceStart

  // ---------------------------------------------------------------- what is built is started

  /** Some call is still to send startService to instance `k`. */
  ghost predicate ToBeStarted(s: State, k: nat)
  {
    exists c: nat :: c < |s.calls| && Starting(s.calls[c].pc) && s.calls[c].pc.k == k
  }

  ghost predicate StartOk(s: State, k: nat)
    requires k < |s.built|
  {
    s.built[k].what.Listener? ==> k in s.started || ToBeStarted(s, k) || s.terminating
  }

  ghost predicate AllStartOk(s: State)
  {
    forall k: nat :: k < |s.built| ==> StartOk(s, k)
  }

  /** The step leaves the calls that are to send startService where they are, but for call `c`. */
  lemma OthersStillStart(s: State, s': State, c: nat, k: nat)
    requires ToBeStarted(s, k) && |s.calls| <= |s'.calls|
    requires forall d: nat :: d < |s.calls| && d != c ==> s'.calls[d] == s.calls[d]
    requires c < |s.calls| && Starting(s.calls[c].pc) && s.calls[c].pc.k == k ==> Starting(s'.calls[c].pc) && s'.calls[c].pc.k == k
    ensures ToBeStarted(s', k)
  {
    var d: nat :| d < |s.calls| && Starting(s.calls[d].pc) && s.calls[d].pc.k == k;
    assert Starting(s'.calls[d].pc) && s'.calls[d].pc.k == k;
  }

  /** A step of call `c` moves that call only, and takes nothing back. */
  ghost predicate MovesOne(s: State, s': State, c: nat)
  {
    && |s'.calls| == |s.calls| && c < |s.calls| && s'.terminating == s.terminating
    && s'.calls[c].sid == s.calls[c].sid && s'.calls[c].forward == s.calls[c].forward
    && (forall d: nat :: d < |s.calls| && d != c ==> s'.calls[d] == s.calls[d])
    && (forall k: nat :: k in s.started ==> k in s'.started)
  }

  lemma AtMovesOne(s: State, s1: State, c: nat, pc: Pc)
    requires s1.calls == s.calls && s1.terminating == s.terminating && s.started <= s1.started && c < |s.calls|
    ensures MovesOne(s, At(s1, c, pc), c)
  {
    forall k: nat | k in s.started ensures k in s1.started {
      var i: nat :| i < |s.started| && s.started[i] == k;
      assert s1.started[i] == k;
    }
  }

  /** What one step of a call does, for the shared state and for where the call is then. */
  ghost predicate Effect(s: State, call: Call, c: nat, s1: State, pc: Pc)
  {
    && s1.calls == s.calls && s1.terminating == s.terminating && s.started <= s1.started && s.built <= s1.built
    && (!call.pc.Done? ==> Left(pc) < Left(call.pc))
    && (call.pc.Publish? || (call.pc.Published? && !s.terminating) ==> Starting(pc) && pc.k == call.pc.k)
    && (call.pc.SendStart? && call.pc.k < |s.built| && s.built[call.pc.k].what.Listener? ==> s1.started == s.started + [call.pc.k])
    && (s1.built != s.built ==> |s1.built| == |s.built| + 1 && Starting(pc) && pc.k == |s.built|)
    && s1.holder == (if call.pc.Acquire? then s.holder[call.pc.mx := c]
                     else if call.pc.Release? then s.holder - {call.pc.mx} else s.holder)
    && (call.pc.Acquire? || (Inside(call.pc) && !call.pc.Release?) ==> Inside(pc) && pc.mx == call.pc.mx)
  }

  function MutexOf(s: State, sid: Sid): nat
  {
    if sid in s.mutexes then s.mutexes[sid] else s.nextMutex
  }

  /** With the mutex of the service made. */
  function WithMutex(s: State, sid: Sid): State
  {
    if sid in s.mutexes then s
    else s.(mutexes := s.mutexes[sid := s.nextMutex], nextMutex := s.nextMutex + 1)
  }

  lemma OutsideEffect(s: State, c: nat, env: Env) returns (s1: State, pc: Pc)
    requires c < |s.calls|
    requires s.calls[c].pc.Enter? || s.calls[c].pc.Lookup? || s.calls[c].pc.Init? || s.calls[c].pc.GetMutex? || s.calls[c].pc.Acquire?
    ensures s1.calls == s.calls && GoNext(s, c, env) == At(s1, c, pc) && Effect(s, s.calls[c], c, s1, pc)
  {
    hide LookNext, ConstructNext, PublishNext, SendStartNext, ReleaseNext;
    var sid := s.calls[c].sid;
    s1 := s;
    if s.calls[c].pc.GetMutex? {
      s1, pc := WithMutex(s, sid), Acquire(MutexOf(s, sid));
    } else if s.calls[c].pc.Acquire? {
      s1, pc := s.(holder := s.holder[s.calls[c].pc.mx := c]), FirstLook(s.calls[c].pc.mx);
    } else {
      hide Finish, IsNull, GetMutexNext;
      pc := GoNext(s, c, env).calls[c].pc;
    }
  }

  lemma LookingEffect(s: State, c: nat, env: Env) returns (s1: State, pc: Pc)
    requires c < |s.calls|
    requires s.calls[c].pc.FirstLook? || s.calls[c].pc.FindConstructor? || s.calls[c].pc.Recheck? || s.calls[c].pc.SecondLook? ||
             s.calls[c].pc.Published?
    ensures s1.calls == s.calls && GoNext(s, c, env) == At(s1, c, pc) && Effect(s, s.calls[c], c, s1, pc)
  {
    hide Finish, IsNull, GetMutexNext, ConstructNext, PublishNext, SendStartNext, ReleaseNext;
    pc := GoNext(s, c, env).calls[c].pc;
    s1 := GoNext(s, c, env).(calls := s.calls);
  }

  lemma ConstructEffect(s: State, c: nat, env: Env) returns (s1: State, pc: Pc)
    requires c < |s.calls| && s.calls[c].pc.Construct?
    ensures s1.calls == s.calls && GoNext(s, c, env) == At(s1, c, pc) && Effect(s, s.calls[c], c, s1, pc)
  {
    hide GetMutexNext, LookNext, ReleaseNext, PublishNext, SendStartNext;
    var mx := s.calls[c].pc.mx;
    if env.Returns? {
      s1, pc := s.(built := s.built + [Built(s.calls[c].sid, env.what)]), Publish(mx, |s.built|);
    } else {
      s1, pc := s, Release(mx, Threw);
    }
  }

  lemma PublishEffect(s: State, c: nat, env: Env) returns (s1: State, pc: Pc)
    requires c < |s.calls| && s.calls[c].pc.Publish?
    ensures s1.calls == s.calls && GoNext(s, c, env) == At(s1, c, pc) && Effect(s, s.calls[c], c, s1, pc)
  {
    hide GetMutexNext, LookNext, ReleaseNext, ConstructNext, SendStartNext;
    var sid, k := s.calls[c].sid, s.calls[c].pc.k;
    s1 := if sid in s.container then s else s.(container := s.container[sid := k]);
    pc := Published(s.calls[c].pc.mx, k);
  }

  lemma SendStartEffect(s: State, c: nat, env: Env) returns (s1: State, pc: Pc)
    requires c < |s.calls| && s.calls[c].pc.SendStart?
    ensures s1.calls == s.calls && GoNext(s, c, env) == At(s1, c, pc) && Effect(s, s.calls[c], c, s1, pc)
  {
    hide GetMutexNext, LookNext, ReleaseNext, ConstructNext, PublishNext, Extends;
    var mx, k := s.calls[c].pc.mx, s.calls[c].pc.k;
    if k < |s.built| && s.built[k].what.Listener? {
      s1, pc := s.(started := s.started + [k]), Release(mx, if env.Fails? then NullPointer else Pointer(k));
    } else {
      s1, pc := s, Release(mx, NullPointer);
    }
  }

  lemma GoEffect(s: State, c: nat, env: Env) returns (s1: State, pc: Pc)
    requires c < |s.calls|
    ensures s1.calls == s.calls && GoNext(s, c, env) == At(s1, c, pc) && Effect(s, s.calls[c], c, s1, pc)
  {
    match s.calls[c].pc
    case Construct(_) => s1, pc := ConstructEffect(s, c, env);
    case Publish(_, _) => s1, pc := PublishEffect(s, c, env);
    case SendStart(_, _) => s1, pc := SendStartEffect(s, c, env);
    case FirstLook(_) => s1, pc := LookingEffect(s, c, env);
    case FindConstructor(_) => s1, pc := LookingEffect(s, c, env);
    case Recheck(_) => s1, pc := LookingEffect(s, c, env);
    case SecondLook(_) => s1, pc := LookingEffect(s, c, env);
    case Published(_, _) => s1, pc := LookingEffect(s, c, env);
    case Release(mx, found) =>
      s1, pc := s.(holder := s.holder - {mx}), Done(Finish(s, s.calls[c], found));
    case Done(_) =>
      s1, pc := s, s.calls[c].pc;
      assert s.calls[c := s.calls[c]] == s.calls;
    case _ => s1, pc := OutsideEffect(s, c, env);
  }

  lemma GoStarts(s: State, c: nat, env: Env, k: nat)
    requires AllStartOk(s) && Enabled(s, Go(c, env)) && k < |GoNext(s, c, env).built|
    ensures StartOk(GoNext(s, c, env), k)
  {
    hide GoNext, MovesOne;
    var s' := GoNext(s, c, env);
    var pc := s.calls[c].pc;
    var s1, pc' := GoEffect(s, c, env);
    if k == |s.built| {
      assert Starting(s'.calls[c].pc) && s'.calls[c].pc.k == k;
    } else if s.built[k].what.Listener? && !s.terminating {
      assert StartOk(s, k);
      if k in s.started {
        var i: nat :| i < |s.started| && s.started[i] == k;
        assert s1.started[i] == k;
      } else if !(pc.SendStart? && pc.k == k) {
        OthersStillStart(s, s', c, k);
      }
    }
  }

  lemma StepStarts(s: State, step: Step)
    requires AllStartOk(s) && Inv(s) && Enabled(s, step)
    ensures AllStartOk(Next(s, step))
  {
    hide Inv, GoNext;
    var s' := Next(s, step);
    forall k: nat | k < |s'.built| ensures StartOk(s', k) {
      if step.Go? {
        GoStarts(s, step.c, step.env, k);
      } else {
        assert StartOk(s, k);
        if ToBeStarted(s, k) {
          OthersStillStart(s, s', |s.calls|, k);
        }
      }
    }
  }

  lemma {:induction false} RunStarts(steps: seq<Step>, states: seq<State>, i: nat)
    requires IsRun(steps, states) && i < |states|
    ensures AllStartOk(states[i])
  {
    hide Next, Enabled, Inv, StartOk;
    if i > 0 {
      RunStarts(steps, states, i - 1);
      RunKeeps(steps, states, i - 1);
      StepStarts(states[i - 1], steps[i - 1]);
    }
  }

  /**
   In every interleaving: an instance that takes events has been sent startService, or the call that
   built it is still to do so, or the termination flag is set.
   */
  lemma EveryInstanceIsStarted(steps: seq<Step>, states: seq<State>, i: nat, k: nat)
    requires IsRun(steps, states) && i < |states| && k < |states[i].built| && states[i].built[k].what.Listener?
    ensures k in states[i].started || states[i].terminating ||
            exists c: nat :: c < |states[i].calls| && Starting(states[i].calls[c].pc) && states[i].calls[c].pc.k == k
  {
    hide IsRun;
    RunStarts(steps, states, i);
    assert StartOk(states[i], k);
  }

  // ---------------------------------------------------------------- calls come to an end

  /** At most so many steps are left of a call. */
  function Left(pc: Pc): nat
  {
    match pc
    case Enter => 14
    case Lookup => 13
    case Init => 12
    case GetMutex => 11
    case Acquire(_) => 10
    case FirstLook(_) => 9
    case FindConstructor(_) => 8
    case Recheck(_) => 7
    case SecondLook(_) => 6
    case Construct(_) => 5
    case Publish(_, _) => 4
    case Published(_, _) => 3
    case SendStart(_, _) => 2
    case Release(_, _) => 1
    case Done(_) => 0
  }

  /** Whoever holds a mutex is inside, with that mutex. */
  ghost predicate HeldOk(s: State)
  {
    forall mx: nat :: mx in s.holder ==>
      s.holder[mx] < |s.calls| && Inside(s.calls[s.holder[mx]].pc) && s.calls[s.holder[mx]].pc.mx == mx
  }

  lemma GoKeepsHeld(s: State, c: nat, env: Env)
    requires HeldOk(s) && Enabled(s, Go(c, env))
    ensures HeldOk(GoNext(s, c, env))
  {
    hide GoNext;
    var s1, pc := GoEffect(s, c, env);
  }

  lemma {:induction false} RunHeld(steps: seq<Step>, states: seq<State>, i: nat)
    requires IsRun(steps, states) && i < |states|
    ensures HeldOk(states[i])
  {
    hide GoNext;
    if i > 0 {
      RunHeld(steps, states, i - 1);
      if steps[i - 1].Go? {
        GoKeepsHeld(states[i - 1], steps[i - 1].c, steps[i - 1].env);
      }
    }
  }

  /**
   In every state of every interleaving: as long as a call has not come to its end, it or the call that
   holds the mutex it waits for can go on, and whoever goes on has fewer of its fourteen steps left.
   */
  lemma CallsComeToAnEnd(steps: seq<Step>, states: seq<State>, i: nat, c: nat, env: Env) returns (d: nat)
    requires IsRun(steps, states) && i < |states| && c < |states[i].calls| && !states[i].calls[c].pc.Done?
    ensures Enabled(states[i], Go(d, env)) && (d == c || states[i].calls[c].pc.Acquire?)
    ensures var s' := Next(states[i], Go(d, env));
            MovesOne(states[i], s', d) && Left(s'.calls[d].pc) < Left(states[i].calls[d].pc) <= 14
  {
    hide IsRun, GoNext;
    RunHeld(steps, states, i);
    var s := states[i];
    d := if s.calls[c].pc.Acquire? && s.calls[c].pc.mx in s.holder then s.holder[s.calls[c].pc.mx] else c;
    var s1, pc := GoEffect(s, d, env);
    AtMovesOne(s, s1, d, pc);
  }

  // ---------------------------------------------------------------- a call left alone

  ghost predicate Path(s: State, steps: seq<Step>, states: seq<State>, s': State)
  {
    && |states| == |steps| + 1 && states[0] == s && states[|steps|] == s'
    && forall i: nat :: i < |steps| ==> Enabled(states[i], steps[i]) && states[i + 1] == Next(states[i], steps[i])
  }

  /** The steps of call `c` alone lead from one state to the other. */
  ghost predicate Leads(s: State, c: nat, s': State)
  {
    exists steps: seq<Step>, states: seq<State> ::
      Path(s, steps, states, s') && forall i: nat :: i < |steps| ==> steps[i].Go? && steps[i].c == c
  }

  lemma LeadsOn(s: State, c: nat, s1: State, env: Env)
    requires Leads(s, c, s1) && Enabled(s1, Go(c, env))
    ensures Leads(s, c, GoNext(s1, c, env))
  {
    hide GoNext;
    var steps: seq<Step>, states: seq<State> :| Path(s, steps, states, s1) && forall i: nat :: i < |steps| ==> steps[i].Go? && steps[i].c == c;
    var steps', states' := steps + [Go(c, env)], states + [GoNext(s1, c, env)];
    assert Path(s, steps', states', GoNext(s1, c, env));
  }

  lemma LeadsNowhere(s: State, c: nat)
    ensures Leads(s, c, s)
  {
    assert Path(s, [], [s], s);
  }

  /** What the rest of the system does when it is asked for a service that is not there. */
  datatype World = NoConstructor | ConstructorThrows | Makes(what: Object)

  /** Nobody is at it, and nothing hinders a call for the service. */
  ghost predicate Ready(s: State, sid: Sid)
  {
    && !s.terminating && sid !in s.container && (sid in s.mutexes ==> s.mutexes[sid] !in s.holder)
    && s.nextMutex !in s.holder
  }

  /** The state with what was built for the service. */
  function WithBuilt(s: State, sid: Sid, what: Object): State
  {
    var k := |s.built|;
    s.(built := s.built + [Built(sid, what)], container := s.container[sid := k],
       started := if what.Listener? then s.started + [k] else s.started)
  }

  /** To the mutex. */
  lemma GetsToMutex(s: State, c: nat)
    requires c < |s.calls| && s.calls[c].pc == Enter && Ready(s, s.calls[c].sid)
    ensures Leads(s, c, At(s, c, GetMutex))
  {
    hide Leads, GetMutexNext, LookNext, ConstructNext, PublishNext, SendStartNext, ReleaseNext;
    LeadsNowhere(s, c);
    LeadsOn(s, c, s, Quiet);
    LeadsOn(s, c, At(s, c, Lookup), Quiet);
    assert At(At(s, c, Lookup), c, Init) == At(s, c, Init);
    LeadsOn(s, c, At(s, c, Init), Quiet);
    assert At(At(s, c, Init), c, GetMutex) == At(s, c, GetMutex);
  }

  lemma MutexMade(s: State, c: nat)
    requires c < |s.calls|
    ensures GoNext(At(s, c, GetMutex), c, Quiet) == At(WithMutex(s, s.calls[c].sid), c, Acquire(MutexOf(s, s.calls[c].sid)))
  {
    hide LookNext, ConstructNext, PublishNext, SendStartNext, ReleaseNext, Extends;
    var s0 := At(s, c, GetMutex);
    assert GoNext(s0, c, Quiet) == GetMutexNext(s0, c);
    if s.calls[c].sid in s.mutexes {
      assert GetMutexNext(s0, c).calls == At(s, c, Acquire(s.mutexes[s.calls[c].sid])).calls;
    } else {
      assert GetMutexNext(s0, c).calls == At(s, c, Acquire(s.nextMutex)).calls;
    }
  }

  /** And to the point where the constructor is looked for. */
  lemma GetsIn(s: State, c: nat)
    requires c < |s.calls| && s.calls[c].pc == Enter && Ready(s, s.calls[c].sid)
    ensures var sid := s.calls[c].sid;
            var s1 := WithMutex(s, sid);
            Leads(s, c, At(s1.(holder := s1.holder[MutexOf(s, sid) := c]), c, FindConstructor(MutexOf(s, sid))))
  {
    hide Leads, ConstructNext, PublishNext, SendStartNext, ReleaseNext, GetMutexNext;
    var sid, mx := s.calls[c].sid, MutexOf(s, s.calls[c].sid);
    GetsToMutex(s, c);
    LeadsOn(s, c, At(s, c, GetMutex), Quiet);
    var s1 := WithMutex(s, sid);
    MutexMade(s, c);
    LeadsOn(s, c, At(s1, c, Acquire(mx)), Quiet);
    var s2 := s1.(holder := s1.holder[mx := c]);
    assert GoNext(At(s1, c, Acquire(mx)), c, Quiet) == At(s2, c, FirstLook(mx));
    LeadsOn(s, c, At(s2, c, FirstLook(mx)), Quiet);
    assert GoNext(At(s2, c, FirstLook(mx)), c, Quiet) == At(s2, c, FindConstructor(mx));
  }

  /** From there to the constructor. */
  lemma GetsToConstruct(s: State, c: nat, mx: nat)
    requires c < |s.calls| && s.calls[c].pc == FindConstructor(mx) && !s.terminating && s.calls[c].sid !in s.container
    ensures Leads(s, c, At(s, c, Construct(mx)))
  {
    hide Leads, GetMutexNext, ConstructNext, PublishNext, SendStartNext, ReleaseNext;
    LeadsNowhere(s, c);
    LeadsOn(s, c, s, Quiet);
    LeadsOn(s, c, At(s, c, Recheck(mx)), Quiet);
    assert GoNext(At(s, c, Recheck(mx)), c, Quiet) == At(s, c, SecondLook(mx));
    LeadsOn(s, c, At(s, c, SecondLook(mx)), Quiet);
    assert GoNext(At(s, c, SecondLook(mx)), c, Quiet) == At(s, c, Construct(mx));
  }

  /** And to the release of the mutex. */
  lemma GetsBuilt(s: State, c: nat, mx: nat, what: Object)
    requires c < |s.calls| && s.calls[c].pc == FindConstructor(mx) && !s.terminating && s.calls[c].sid !in s.container
    ensures Leads(s, c, At(WithBuilt(s, s.calls[c].sid, what), c, Release(mx, if what.Listener? then Pointer(|s.built|) else NullPointer)))
  {
    hide Leads, GetMutexNext, LookNext, ReleaseNext, WithBuilt;
    var sid, k := s.calls[c].sid, |s.built|;
    GetsToConstruct(s, c, mx);
    LeadsOn(s, c, At(s, c, Construct(mx)), Returns(what));
    var s1 := s.(built := s.built + [Built(sid, what)]);
    assert GoNext(At(s, c, Construct(mx)), c, Returns(what)) == At(s1, c, Publish(mx, k));
    LeadsOn(s, c, At(s1, c, Publish(mx, k)), Quiet);
    var s2 := s1.(container := s.container[sid := k]);
    assert GoNext(At(s1, c, Publish(mx, k)), c, Quiet) == At(s2, c, Published(mx, k));
    LeadsOn(s, c, At(s2, c, Published(mx, k)), Quiet);
    assert GoNext(At(s2, c, Published(mx, k)), c, Quiet) == At(s2, c, SendStart(mx, k));
    LeadsOn(s, c, At(s2, c, SendStart(mx, k)), Quiet);
    StartSent(s, c, mx, what);
  }

  lemma StartSent(s: State, c: nat, mx: nat, what: Object)
    requires c < |s.calls|
    ensures var sid, k := s.calls[c].sid, |s.built|;
            var s2 := s.(built := s.built + [Built(sid, what)], container := s.container[sid := k]);
            GoNext(At(s2, c, SendStart(mx, k)), c, Quiet) ==
            At(WithBuilt(s, sid, what), c, Release(mx, if what.Listener? then Pointer(k) else NullPointer))
  {
  }

  lemma LeadsTogether(s: State, c: nat, s1: State, s2: State)
    requires Leads(s, c, s1) && Leads(s1, c, s2)
    ensures Leads(s, c, s2)
  {
    hide Enabled, Next;
    var a: seq<Step>, p: seq<State> :| Path(s, a, p, s1) && forall i: nat :: i < |a| ==> a[i].Go? && a[i].c == c;
    var b: seq<Step>, q: seq<State> :| Path(s1, b, q, s2) && forall i: nat :: i < |b| ==> b[i].Go? && b[i].c == c;
    PathsJoin(s, a, p, s1, b, q, s2);
    var ab := a + b;
    assert forall i: nat :: i < |ab| ==> ab[i].Go? && ab[i].c == c;
  }

  lemma PathsJoin(s: State, a: seq<Step>, p: seq<State>, s1: State, b: seq<Step>, q: seq<State>, s2: State)
    requires Path(s, a, p, s1) && Path(s1, b, q, s2)
    ensures Path(s, a + b, p + q[1..], s2)
  {
    hide Enabled, Next;
    var steps, states := a + b, p + q[1..];
    forall i: nat | i < |steps| ensures Enabled(states[i], steps[i]) && states[i + 1] == Next(states[i], steps[i]) {
      if i >= |a| {
        assert states[i] == q[i - |a|] && states[i + 1] == q[i - |a| + 1];
        assert steps[i] == b[i - |a|];
      }
    }
  }

  /**
   A call for a service that nobody has asked for yet, left alone: it ends, the mutex is free again, and
   - with a constructor that returns an object, that object is built and published;
   - if the object takes events it is sent startService, and the call gets its pointer;
   - in every other case the call throws, and without an object nothing is built.
   */
  lemma OneCallAlone(s: State, c: nat, world: World)
    requires c < |s.calls| && s.calls[c].pc == Enter && Ready(s, s.calls[c].sid)
    ensures var sid := s.calls[c].sid;
            var s1 := WithMutex(s, sid);
            var s2 := if world.Makes? then WithBuilt(s1, sid, world.what) else s1;
            var got := world.Makes? && world.what.Listener?;
            Leads(s, c, At(s2, c, Done(if got then Pointer(|s.built|) else Threw)))
  {
    hide Leads;
    var sid, mx := s.calls[c].sid, MutexOf(s, s.calls[c].sid);
    GetsIn(s, c);
    var s1 := WithMutex(s, sid);
    var in1 := s1.(holder := s1.holder[mx := c]);
    var at := At(in1, c, FindConstructor(mx));
    if world.Makes? {
      var found := if world.what.Listener? then Pointer(|s.built|) else NullPointer;
      GetsBuilt(at, c, mx, world.what);
      var out := At(WithBuilt(in1, sid, world.what), c, Release(mx, found));
      assert At(WithBuilt(at, sid, world.what), c, Release(mx, found)) == out;
      LeadsTogether(s, c, at, out);
      ReleaseStep(s, c, WithBuilt(s1, sid, world.what), mx, found);
    } else {
      DoesNotBuild(s, c, at, mx, world);
      assert At(at, c, Release(mx, Threw)) == At(in1, c, Release(mx, Threw));
      ReleaseStep(s, c, s1, mx, Threw);
    }
  }

  lemma DoesNotBuild(s: State, c: nat, at: State, mx: nat, world: World)
    requires Leads(s, c, at) && c < |at.calls| && at.calls[c].pc == FindConstructor(mx) && !at.terminating
    requires at.calls[c].sid !in at.container && !world.Makes?
    ensures Leads(s, c, At(at, c, Release(mx, Threw)))
  {
    hide Leads;
    if world.NoConstructor? {
      LeadsOn(s, c, at, Fails);
    } else {
      GetsToConstruct(at, c, mx);
      LeadsTogether(s, c, at, At(at, c, Construct(mx)));
      LeadsOn(s, c, At(at, c, Construct(mx)), Fails);
      assert GoNext(At(at, c, Construct(mx)), c, Fails) == At(at, c, Release(mx, Threw));
    }
  }

  /** The last step. */
  lemma ReleaseStep(s: State, c: nat, s2: State, mx: nat, found: Outcome)
    requires c < |s2.calls| && mx !in s2.holder && Leads(s, c, At(s2.(holder := s2.holder[mx := c]), c, Release(mx, found)))
    requires found.Pointer? ==> found.k < |s2.built| && s2.built[found.k].what.Listener?
    ensures Leads(s, c, At(s2, c, Done(if found.Pointer? then found else Threw)))
  {
    hide Leads;
    var s1 := At(s2.(holder := s2.holder[mx := c]), c, Release(mx, found));
    LeadsOn(s, c, s1, Quiet);
    assert s1.holder - {mx} == s2.holder;
    assert GoNext(s1, c, Quiet) == At(s2, c, Done(if found.Pointer? then found else Threw));
  }

  /** A later call gets the same pointer in two steps, and throws only where an event cannot be taken. */
  lemma NextCallAlone(s: State, c: nat)
    requires c < |s.calls| && s.calls[c].pc == Enter && !s.terminating
    requires s.calls[c].sid in s.container && !IsNull(s, s.container[s.calls[c].sid])
    ensures var k := s.container[s.calls[c].sid];
            Leads(s, c, At(s, c, Done(if s.calls[c].forward && !s.built[k].what.Listener? then Threw else Pointer(k))))
  {
    hide Leads;
    var k := s.container[s.calls[c].sid];
    LeadsNowhere(s, c);
    LeadsOn(s, c, s, Quiet);
    LeadsOn(s, c, At(s, c, Lookup), Quiet);
    var o := if s.calls[c].forward && !s.built[k].what.Listener? then Threw else Pointer(k);
    assert At(At(s, c, Lookup), c, Done(o)) == At(s, c, Done(o));
  }

  /** The first call of all, for a service that takes events. */
  lemma FirstCall(sid: Sid, forward: bool)
    ensures var s := Next(INITIAL, Ask(sid, forward));
            exists s': State :: Leads(s, 0, s') && s'.calls == [Call(sid, forward, Done(Pointer(0)))] && s'.started == [0] &&
                                s'.container == map[sid := 0] && s'.built == [Built(sid, Listener)] && s'.holder == map[]
  {
    hide Leads;
    var s := Next(INITIAL, Ask(sid, forward));
    OneCallAlone(s, 0, Makes(Listener));
    var s' := At(WithBuilt(WithMutex(s, sid), sid, Listener), 0, Done(Pointer(0)));
    assert s'.calls == [Call(sid, forward, Done(Pointer(0)))];
    assert s'.container == map[sid := 0];
  }
}
