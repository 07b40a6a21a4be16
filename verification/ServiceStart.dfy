/**
 How a service comes into being.  Any number of threads ask one instance for services at the same
 time; each call below goes through the critical sections of the lookup and of the initialisation
 one at a time, interleaved with all the others in every possible way.
 */
module ServiceStart {
  type Sid = int

  /** What a constructor hands back: a null pointer, an object that cannot take events, or a listener. */
  datatype Object = NullObject | Plain | Listener

  /** One constructor call that returned.  Pointers are positions in the list of these. */
  datatype Built = Built(sid: Sid, what: Object)

  datatype Outcome = Pointer(k: nat) | NullPointer | Threw

  /** Where a call stands.  From FirstLook to Release it holds the mutex of its service id. */
  datatype Pc =
    | Enter
    | Lookup
    | Init
    | GetMutex
    | Acquire(mx: nat)
    | FirstLook(mx: nat)
    | FindConstructor(mx: nat)
    | Recheck(mx: nat)
    | SecondLook(mx: nat)
    | Construct(mx: nat)
    | Publish(mx: nat, k: nat)
    | Published(mx: nat, k: nat)
    | SendStart(mx: nat, k: nat)
    | Release(mx: nat, found: Outcome)
    | Done(outcome: Outcome)

  /** A request for a service: for the pointer itself, or to forward an event to it. */
  datatype Call = Call(sid: Sid, forward: bool, pc: Pc)

  datatype State = State(
    calls: seq<Call>,
    terminating: bool,          // m_terminating
    cleared: bool,              // deinitServices has run
    mutexes: map<Sid, nat>,     // mx_initInProcess
    nextMutex: nat,
    holder: map<nat, nat>,      // which call holds a mutex
    container: map<Sid, nat>,   // services.container
    built: seq<Built>,
    started: seq<nat>)          // who was sent startService

  const INITIAL: State := State([], false, false, map[], 0, map[], map[], [], [])

  /** What the code outside decides at one step: whether it fails, and what a constructor returns. */
  datatype Env = Quiet | Fails | Returns(what: Object)

  datatype Step = Ask(sid: Sid, forward: bool) | Terminate | Deinit | Go(c: nat, env: Env)

  predicate Enabled(s: State, step: Step)
  {
    match step
    case Ask(_, _) => true
    case Terminate => true
    case Deinit => s.terminating
    case Go(c, _) =>
      c < |s.calls| && !s.calls[c].pc.Done? &&
      (s.calls[c].pc.Acquire? ==> s.calls[c].pc.mx !in s.holder)
  }

  predicate IsNull(s: State, k: nat)
  {
    k >= |s.built| || s.built[k].what.NullObject?
  }

  /** What the caller makes of what it was given. */
  function Finish(s: State, call: Call, found: Outcome): Outcome
  {
    match found
    case Threw => Threw
    case NullPointer => Threw
    case Pointer(k) =>
      if IsNull(s, k) || (call.forward && s.built[k].what.Plain?) then Threw else Pointer(k)
  }

  /** Nothing built or published is taken back. */
  predicate Extends(s: State, s': State)
  {
    s.built <= s'.built && s'.cleared == s.cleared &&
    forall sid :: sid in s.container ==> sid in s'.container && s'.container[sid] == s.container[sid]
  }

  function At(s: State, c: nat, pc: Pc): State
    requires c < |s.calls|
  {
    s.(calls := s.calls[c := s.calls[c].(pc := pc)])
  }

  function GetMutexNext(s: State, c: nat): (r: State)
    requires c < |s.calls|
    ensures Extends(s, r)
  {
    var sid := s.calls[c].sid;
    if sid in s.mutexes then At(s, c, Acquire(s.mutexes[sid]))
    else At(s.(mutexes := s.mutexes[sid := s.nextMutex], nextMutex := s.nextMutex + 1), c, Acquire(s.nextMutex))
  }

  function LookNext(s: State, c: nat, mx: nat, otherwise: Pc): (r: State)
    requires c < |s.calls|
    ensures Extends(s, r)
  {
    var sid := s.calls[c].sid;
    At(s, c, if sid in s.container then Release(mx, Pointer(s.container[sid])) else otherwise)
  }

  function ConstructNext(s: State, c: nat, mx: nat, env: Env): (r: State)
    requires c < |s.calls|
    ensures Extends(s, r)
  {
    if env.Returns? then
      At(s.(built := s.built + [Built(s.calls[c].sid, env.what)]), c, Publish(mx, |s.built|))
    else At(s, c, Release(mx, Threw))
  }

  /** std::map::insert leaves an entry that is already there alone. */
  function PublishNext(s: State, c: nat, mx: nat, k: nat): (r: State)
    requires c < |s.calls|
    ensures Extends(s, r)
  {
    var sid := s.calls[c].sid;
    At(if sid in s.container then s else s.(container := s.container[sid := k]), c, Published(mx, k))
  }

  function SendStartNext(s: State, c: nat, mx: nat, k: nat, env: Env): (r: State)
    requires c < |s.calls|
    ensures Extends(s, r)
  {
    if k < |s.built| && s.built[k].what.Listener? then
      var sent := s.(started := s.started + [k]);
      At(sent, c, Release(mx, if env.Fails? then NullPointer else Pointer(k)))
    else At(s, c, Release(mx, NullPointer))
  }

  function ReleaseNext(s: State, c: nat, mx: nat, found: Outcome): (r: State)
    requires c < |s.calls|
    ensures Extends(s, r)
  {
    At(s.(holder := s.holder - {mx}), c, Done(Finish(s, s.calls[c], found)))
  }

  function GoNext(s: State, c: nat, env: Env): (r: State)
    requires c < |s.calls|
    ensures Extends(s, r)
  {
    var call := s.calls[c];
    match call.pc
    case Enter => At(s, c, if s.terminating then Done(NullPointer) else Lookup)
    case Lookup =>
      if call.sid in s.container && !IsNull(s, s.container[call.sid]) then
        At(s, c, Done(Finish(s, call, Pointer(s.container[call.sid]))))
      else At(s, c, Init)
    case Init => At(s, c, if s.terminating then Done(Finish(s, call, NullPointer)) else GetMutex)
    case GetMutex => GetMutexNext(s, c)
    case Acquire(mx) => At(s.(holder := s.holder[mx := c]), c, FirstLook(mx))
    case FirstLook(mx) => LookNext(s, c, mx, FindConstructor(mx))
    case FindConstructor(mx) => At(s, c, if env.Fails? then Release(mx, Threw) else Recheck(mx))
    case Recheck(mx) => At(s, c, if s.terminating then Release(mx, NullPointer) else SecondLook(mx))
    case SecondLook(mx) => LookNext(s, c, mx, Construct(mx))
    case Construct(mx) => ConstructNext(s, c, mx, env)
    case Publish(mx, k) => PublishNext(s, c, mx, k)
    case Published(mx, k) => At(s, c, if s.terminating then Release(mx, NullPointer) else SendStart(mx, k))
    case SendStart(mx, k) => SendStartNext(s, c, mx, k, env)
    case Release(mx, found) => ReleaseNext(s, c, mx, found)
    case Done(_) => s
  }

  function Next(s: State, step: Step): State
    requires Enabled(s, step)
  {
    match step
    case Ask(sid, forward) => s.(calls := s.calls + [Call(sid, forward, Enter)])
    case Terminate => s.(terminating := true)
    case Deinit => s.(container := map[], cleared := true)
    case Go(c, env) => GoNext(s, c, env)
  }

  // ---------------------------------------------------------------- invariant

  predicate Inside(pc: Pc)
  {
    pc.FirstLook? || pc.FindConstructor? || pc.Recheck? || pc.SecondLook? || pc.Construct? ||
    pc.Publish? || pc.Published? || pc.SendStart? || pc.Release?
  }

  /** A call between the return of its constructor and the startService event. */
  predicate Starting(pc: Pc)
  {
    pc.Publish? || pc.Published? || pc.SendStart?
  }

  predicate NotBuilt(s: State, sid: Sid)
  {
    forall k: nat :: k < |s.built| ==> s.built[k].sid != sid
  }

  /** A pointer to what was built for the service, and to what is published for it until the container is cleared. */
  predicate Found(s: State, sid: Sid, o: Outcome)
  {
    o.Pointer? ==>
      o.k < |s.built| && s.built[o.k].sid == sid && (s.cleared || (sid in s.container && s.container[sid] == o.k))
  }

  /** A pointer handed out is not null, and takes events if one was forwarded to it. */
  predicate Usable(s: State, call: Call, o: Outcome)
  {
    o.Pointer? ==> !IsNull(s, o.k) && (call.forward ==> s.built[o.k].what.Listener?)
  }

  ghost predicate CallOk(s: State, c: nat)
    requires c < |s.calls|
  {
    var call := s.calls[c];
    && (call.pc.Acquire? || Inside(call.pc) ==> call.sid in s.mutexes && s.mutexes[call.sid] == call.pc.mx)
    && (Inside(call.pc) ==> call.pc.mx in s.holder && s.holder[call.pc.mx] == c)
    && (call.pc.FindConstructor? || call.pc.Recheck? ==> s.cleared || NotBuilt(s, call.sid))
    && (call.pc.SecondLook? || call.pc.Construct? ==> NotBuilt(s, call.sid))
    && (call.pc.Publish? ==> call.sid !in s.container)
    && (Starting(call.pc) ==> call.pc.k < |s.built| && s.built[call.pc.k].sid == call.sid &&
                              call.pc.k !in s.started)
    && (call.pc.Published? || call.pc.SendStart? ==> Found(s, call.sid, Pointer(call.pc.k)))
    && (call.pc.Release? ==> Found(s, call.sid, call.pc.found))
    && (call.pc.Done? ==> Found(s, call.sid, call.pc.outcome) && Usable(s, call, call.pc.outcome))
  }

  ghost predicate CallsOk(s: State)
  {
    forall c: nat :: c < |s.calls| ==> CallOk(s, c)
  }

  /** A mutex belongs to one service id, and a mutex not yet made to none. */
  ghost predicate MutexesOk(s: State)
  {
    && (forall sid :: sid in s.mutexes ==> s.mutexes[sid] < s.nextMutex)
    && (forall sid, sid' :: sid in s.mutexes && sid' in s.mutexes && s.mutexes[sid] == s.mutexes[sid'] ==> sid == sid')
    && (forall mx: nat :: mx in s.holder ==> mx < s.nextMutex)
  }

  /** The call about to publish what it built for this id. */
  predicate BeingPublished(s: State, sid: Sid, k: nat)
  {
    sid in s.mutexes && s.mutexes[sid] in s.holder && s.holder[s.mutexes[sid]] < |s.calls| &&
    s.calls[s.holder[s.mutexes[sid]]] ==
      Call(sid, s.calls[s.holder[s.mutexes[sid]]].forward, Publish(s.mutexes[sid], k))
  }

  ghost predicate BuiltOk(s: State, k: nat)
    requires k < |s.built|
  {
    var sid := s.built[k].sid;
    s.cleared || (sid in s.container && s.container[sid] == k) || (sid !in s.container && BeingPublished(s, sid, k))
  }

  ghost predicate AllBuiltOk(s: State)
  {
    && (forall k: nat :: k < |s.built| ==> BuiltOk(s, k))
    && (forall k: nat, k': nat :: k < k' < |s.built| ==> s.built[k].sid != s.built[k'].sid)
    && (s.cleared ==> s.terminating)
    && (forall sid :: sid in s.container ==> s.container[sid] < |s.built| && s.built[s.container[sid]].sid == sid)
    && (forall i: nat :: i < |s.started| ==> s.started[i] < |s.built|)
    && (forall i: nat, j: nat :: i < j < |s.started| ==> s.started[i] != s.started[j])
  }

  ghost predicate Inv(s: State)
  {
    CallsOk(s) && MutexesOk(s) && AllBuiltOk(s)
  }

  /** Two calls inside the initialisation of one service are the same call. */
  lemma MutualExclusion(s: State, c: nat, c': nat)
    requires CallsOk(s) && c < |s.calls| && c' < |s.calls|
    requires Inside(s.calls[c].pc) && Inside(s.calls[c'].pc) && s.calls[c].sid == s.calls[c'].sid
    ensures c == c'
  {
    assert CallOk(s, c) && CallOk(s, c');
  }

  // ---------------------------------------------------------------- every step keeps it

  /** A step that only moves one call on, and not away from publishing. */
  lemma MoveKeeps(s: State, c: nat, pc: Pc)
    requires Inv(s) && c < |s.calls| && !s.calls[c].pc.Publish? && CallOk(At(s, c, pc), c)
    ensures Inv(At(s, c, pc))
  {
    var s' := At(s, c, pc);
    forall d: nat | d < |s'.calls| ensures CallOk(s', d) {
      assert CallOk(s, d);
    }
    forall k: nat | k < |s'.built| ensures BuiltOk(s', k) {
      assert BuiltOk(s, k);
    }
  }

  lemma GetMutexKeeps(s: State, c: nat)
    requires Inv(s) && c < |s.calls| && s.calls[c].pc.GetMutex?
    ensures Inv(GetMutexNext(s, c))
  {
    assert CallOk(s, c);
    var sid := s.calls[c].sid;
    if sid in s.mutexes {
      MoveKeeps(s, c, Acquire(s.mutexes[sid]));
    } else {
      NewMutexKeeps(s, sid);
      var s0 := s.(mutexes := s.mutexes[sid := s.nextMutex], nextMutex := s.nextMutex + 1);
      MoveKeeps(s0, c, Acquire(s.nextMutex));
    }
  }

  lemma NewMutexKeeps(s: State, sid: Sid)
    requires Inv(s) && sid !in s.mutexes
    ensures Inv(s.(mutexes := s.mutexes[sid := s.nextMutex], nextMutex := s.nextMutex + 1))
  {
    var s0 := s.(mutexes := s.mutexes[sid := s.nextMutex], nextMutex := s.nextMutex + 1);
    forall d: nat | d < |s0.calls| ensures CallOk(s0, d) {
      assert CallOk(s, d);
    }
    forall k: nat | k < |s0.built| ensures BuiltOk(s0, k) {
      assert BuiltOk(s, k);
    }
  }

  lemma AcquireKeeps(s: State, c: nat)
    requires Inv(s) && c < |s.calls| && s.calls[c].pc.Acquire? && s.calls[c].pc.mx !in s.holder
    ensures var mx := s.calls[c].pc.mx; Inv(At(s.(holder := s.holder[mx := c]), c, FirstLook(mx)))
  {
    var mx := s.calls[c].pc.mx;
    assert CallOk(s, c);
    var s0 := s.(holder := s.holder[mx := c]);
    forall d: nat | d < |s0.calls| ensures CallOk(s0, d) {
      assert CallOk(s, d);
    }
    forall k: nat | k < |s0.built| ensures BuiltOk(s0, k) {
      assert BuiltOk(s, k);
    }
    MoveKeeps(s0, c, FirstLook(mx));
  }

  lemma ConstructKeeps(s: State, c: nat, env: Env)
    requires Inv(s) && c < |s.calls| && s.calls[c].pc.Construct?
    ensures Inv(ConstructNext(s, c, s.calls[c].pc.mx, env))
  {
    assert CallOk(s, c);
    var mx := s.calls[c].pc.mx;
    if env.Returns? {
      var s' := ConstructNext(s, c, mx, env);
      ConstructedCalls(s, c, env);
      forall k: nat | k < |s'.built| ensures BuiltOk(s', k) {
        assert k < |s.built| ==> BuiltOk(s, k);
      }
    } else {
      MoveKeeps(s, c, Release(mx, Threw));
    }
  }

  lemma ConstructedCalls(s: State, c: nat, env: Env)
    requires Inv(s) && c < |s.calls| && s.calls[c].pc.Construct? && env.Returns?
    ensures CallsOk(ConstructNext(s, c, s.calls[c].pc.mx, env))
  {
    hide MutexesOk, BuiltOk;
    assert CallOk(s, c);
    var s' := ConstructNext(s, c, s.calls[c].pc.mx, env);
    forall d: nat | d < |s'.calls| ensures CallOk(s', d) {
      assert CallOk(s, d);
      if d != c && Inside(s.calls[d].pc) && s.calls[d].sid == s.calls[c].sid {
        MutualExclusion(s, c, d);
      }
    }
  }

  lemma PublishKeeps(s: State, c: nat)
    requires Inv(s) && c < |s.calls| && s.calls[c].pc.Publish?
    ensures Inv(PublishNext(s, c, s.calls[c].pc.mx, s.calls[c].pc.k))
  {
    assert CallOk(s, c);
    var s' := PublishNext(s, c, s.calls[c].pc.mx, s.calls[c].pc.k);
    forall d: nat | d < |s'.calls| ensures CallOk(s', d) {
      assert CallOk(s, d);
      if d != c && Inside(s.calls[d].pc) && s.calls[d].sid == s.calls[c].sid {
        MutualExclusion(s, c, d);
      }
    }
    forall k: nat | k < |s'.built| ensures BuiltOk(s', k) {
      assert BuiltOk(s, k);
    }
  }

  /** No other call is still to start what this one starts. */
  lemma NobodyElseStarts(s: State, c: nat, d: nat)
    requires Inv(s) && c < |s.calls| && d < |s.calls| && c != d && Starting(s.calls[c].pc) && Starting(s.calls[d].pc)
    ensures s.calls[c].pc.k != s.calls[d].pc.k
  {
    assert CallOk(s, c) && CallOk(s, d);
    if s.calls[c].sid == s.calls[d].sid {
      MutualExclusion(s, c, d);
    }
  }

  lemma SentKeeps(s: State, k: nat)
    requires Inv(s) && k < |s.built| && k !in s.started
    requires forall d: nat :: d < |s.calls| && Starting(s.calls[d].pc) ==> s.calls[d].pc.k != k
    ensures Inv(s.(started := s.started + [k]))
  {
    var s' := s.(started := s.started + [k]);
    forall d: nat | d < |s'.calls| ensures CallOk(s', d) {
      assert CallOk(s, d);
    }
    forall k: nat | k < |s'.built| ensures BuiltOk(s', k) {
      assert BuiltOk(s, k);
    }
  }

  lemma SendStartKeeps(s: State, c: nat, env: Env)
    requires Inv(s) && c < |s.calls| && s.calls[c].pc.SendStart?
    ensures Inv(SendStartNext(s, c, s.calls[c].pc.mx, s.calls[c].pc.k, env))
  {
    hide AllBuiltOk, MutexesOk, BuiltOk, Usable, NotBuilt;
    assert CallOk(s, c);
    var pc := SendStartNext(s, c, s.calls[c].pc.mx, s.calls[c].pc.k, env).calls[c].pc;
    var moved := At(s, c, pc);
    MoveKeeps(s, c, pc);
    var k := s.calls[c].pc.k;
    if s.built[k].what.Listener? {
      NobodyElse(s, c, pc);
      SentKeeps(moved, k);
    }
  }

  lemma NobodyElse(s: State, c: nat, pc: Pc)
    requires Inv(s) && c < |s.calls| && Starting(s.calls[c].pc) && !Starting(pc)
    ensures forall d: nat :: d < |s.calls| && Starting(At(s, c, pc).calls[d].pc) ==> At(s, c, pc).calls[d].pc.k != s.calls[c].pc.k
  {
    forall d: nat | d < |s.calls| && Starting(At(s, c, pc).calls[d].pc) ensures At(s, c, pc).calls[d].pc.k != s.calls[c].pc.k {
      NobodyElseStarts(s, c, d);
    }
  }

  lemma ReleaseKeeps(s: State, c: nat)
    requires Inv(s) && c < |s.calls| && s.calls[c].pc.Release?
    ensures Inv(ReleaseNext(s, c, s.calls[c].pc.mx, s.calls[c].pc.found))
  {
    assert CallOk(s, c);
    var s' := ReleaseNext(s, c, s.calls[c].pc.mx, s.calls[c].pc.found);
    forall d: nat | d < |s'.calls| ensures CallOk(s', d) {
      assert CallOk(s, d);
      if d != c && Inside(s.calls[d].pc) && s.calls[d].sid == s.calls[c].sid {
        MutualExclusion(s, c, d);
      }
    }
    forall k: nat | k < |s'.built| ensures BuiltOk(s', k) {
      assert BuiltOk(s, k);
    }
  }

  /** A service that is not in the container when its mutex is got has not been built, before the container is cleared. */
  lemma NotFoundNotBuilt(s: State, c: nat)
    requires Inv(s) && c < |s.calls| && Inside(s.calls[c].pc) && !s.calls[c].pc.Publish?
    ensures s.cleared || s.calls[c].sid in s.container || NotBuilt(s, s.calls[c].sid)
  {
    assert CallOk(s, c);
    if !s.cleared && s.calls[c].sid !in s.container {
      forall k: nat | k < |s.built| ensures s.built[k].sid != s.calls[c].sid {
        assert BuiltOk(s, k);
      }
    }
  }

  /** The steps that only look at the shared state, before the mutex is asked for. */
  lemma LookingKeeps(s: State, c: nat, env: Env)
    requires Inv(s) && c < |s.calls| && (s.calls[c].pc.Enter? || s.calls[c].pc.Lookup? || s.calls[c].pc.Init?)
    ensures Inv(GoNext(s, c, env))
  {
    hide MutexesOk, BuiltOk, GetMutexNext, LookNext, ConstructNext, PublishNext, SendStartNext, ReleaseNext;
    assert CallOk(s, c);
    MoveKeeps(s, c, GoNext(s, c, env).calls[c].pc);
  }

  /** And those that do so while it is held. */
  lemma HoldingKeeps(s: State, c: nat, env: Env)
    requires Inv(s) && c < |s.calls|
    requires var pc := s.calls[c].pc;
             pc.FirstLook? || pc.FindConstructor? || pc.Recheck? || pc.SecondLook? || pc.Published?
    ensures Inv(GoNext(s, c, env))
  {
    hide MutexesOk, BuiltOk, GetMutexNext, ConstructNext, PublishNext, SendStartNext, ReleaseNext, Usable, Finish, IsNull;
    assert CallOk(s, c);
    NotFoundNotBuilt(s, c);
    MoveKeeps(s, c, GoNext(s, c, env).calls[c].pc);
  }

  lemma GoKeeps(s: State, c: nat, env: Env)
    requires Inv(s) && Enabled(s, Go(c, env))
    ensures Inv(GoNext(s, c, env))
  {
    hide Inv, GetMutexNext, ConstructNext, PublishNext, SendStartNext, ReleaseNext, LookNext;
    match s.calls[c].pc
    case GetMutex => GetMutexKeeps(s, c);
    case Acquire(_) => AcquireKeeps(s, c);
    case Construct(_) => ConstructKeeps(s, c, env);
    case Publish(_, _) => PublishKeeps(s, c);
    case SendStart(_, _) => SendStartKeeps(s, c, env);
    case Release(_, _) => ReleaseKeeps(s, c);
    case Enter => LookingKeeps(s, c, env);
    case Lookup => LookingKeeps(s, c, env);
    case Init => LookingKeeps(s, c, env);
    case _ => HoldingKeeps(s, c, env);
  }

  lemma StepKeeps(s: State, step: Step)
    requires Inv(s) && Enabled(s, step)
    ensures Inv(Next(s, step))
  {
    if step.Go? {
      GoKeeps(s, step.c, step.env);
    } else {
      var s' := Next(s, step);
      forall d: nat | d < |s'.calls| ensures CallOk(s', d) {
        assert d < |s.calls| ==> CallOk(s, d);
      }
      forall k: nat | k < |s'.built| ensures BuiltOk(s', k) {
        assert BuiltOk(s, k);
      }
    }
  }

  // ---------------------------------------------------------------- runs

  ghost predicate IsRun(steps: seq<Step>, states: seq<State>)
  {
    |states| == |steps| + 1 && states[0] == INITIAL &&
    forall i: nat :: i < |steps| ==> Enabled(states[i], steps[i]) && states[i + 1] == Next(states[i], steps[i])
  }

  lemma {:induction false} RunKeeps(steps: seq<Step>, states: seq<State>, i: nat)
    requires IsRun(steps, states) && i < |states|
    ensures Inv(states[i])
  {
    if i > 0 {
      RunKeeps(steps, states, i - 1);
      StepKeeps(states[i - 1], steps[i - 1]);
    }
  }

  /** In every interleaving a service is built at most once, so there is never a second instance, even after deinit. */
  lemma BuiltAtMostOnce(steps: seq<Step>, states: seq<State>, i: nat, k: nat, k': nat)
    requires IsRun(steps, states) && i < |states|
    requires k < |states[i].built| && k' < |states[i].built| && states[i].built[k].sid == states[i].built[k'].sid
    ensures k == k'
  {
    RunKeeps(steps, states, i);
  }

  /**
   Whoever asks for a service and gets a pointer, gets the one object ever built for that id, which
   is the published one until deinit clears the container.
   */
  lemma EveryoneGetsTheInstance(steps: seq<Step>, states: seq<State>, i: nat, c: nat)
    requires IsRun(steps, states) && i < |states| && c < |states[i].calls|
    requires states[i].calls[c].pc.Done? && states[i].calls[c].pc.outcome.Pointer?
    ensures var s, call := states[i], states[i].calls[c];
            var k := call.pc.outcome.k;
            && k < |s.built| && s.built[k].sid == call.sid
            && s.built[k].what != NullObject && (call.forward ==> s.built[k].what == Listener)
            && (s.cleared || (call.sid in s.container && s.container[call.sid] == k))
  {
    RunKeeps(steps, states, i);
    assert CallOk(states[i], c);
  }

  lemma StepKeepsEntries(s: State, step: Step, sid: Sid)
    requires Enabled(s, step) && sid in s.container && !Next(s, step).cleared
    ensures !s.cleared && sid in Next(s, step).container && Next(s, step).container[sid] == s.container[sid]
  {
    hide GoNext;
  }

  /** Before deinit, what is published stays so. */
  lemma {:induction false} ContainerOnlyGrows(steps: seq<Step>, states: seq<State>, i: nat, j: nat, sid: Sid)
    requires IsRun(steps, states) && i <= j < |states| && sid in states[i].container && !states[j].cleared
    ensures sid in states[j].container && states[j].container[sid] == states[i].container[sid]
    decreases j - i
  {
    hide Next;
    if i < j {
      NotClearedBefore(steps, states, j - 1);
      ContainerOnlyGrows(steps, states, i, j - 1, sid);
      StepKeepsEntries(states[j - 1], steps[j - 1], sid);
    }
  }

  lemma NotClearedBefore(steps: seq<Step>, states: seq<State>, i: nat)
    requires IsRun(steps, states) && i + 1 < |states| && !states[i + 1].cleared
    ensures !states[i].cleared
  {
    hide GoNext;
  }

  lemma {:induction false} BuiltOnlyGrows(steps: seq<Step>, states: seq<State>, i: nat, j: nat)
    requires IsRun(steps, states) && i <= j < |states|
    ensures states[i].built <= states[j].built
    decreases j - i
  {
    hide GoNext;
    if i < j {
      BuiltOnlyGrows(steps, states, i, j - 1);
    }
  }

  /** Two calls for one service that both got a pointer got the same one, whenever they returned. */
  lemma SamePointer(steps: seq<Step>, states: seq<State>, i: nat, c: nat, j: nat, d: nat)
    requires IsRun(steps, states) && i <= j < |states| && c < |states[i].calls| && d < |states[j].calls|
    requires states[i].calls[c].sid == states[j].calls[d].sid
    requires states[i].calls[c].pc.Done? && states[i].calls[c].pc.outcome.Pointer?
    requires states[j].calls[d].pc.Done? && states[j].calls[d].pc.outcome.Pointer?
    ensures states[i].calls[c].pc.outcome == states[j].calls[d].pc.outcome
  {
    hide IsRun;
    EveryoneGetsTheInstance(steps, states, i, c);
    EveryoneGetsTheInstance(steps, states, j, d);
    BuiltOnlyGrows(steps, states, i, j);
    BuiltAtMostOnce(steps, states, j, states[i].calls[c].pc.outcome.k, states[j].calls[d].pc.outcome.k);
  }

  /** An instance is told to start at most once. */
  lemma StartedAtMostOnce(steps: seq<Step>, states: seq<State>, i: nat, a: nat, b: nat)
    requires IsRun(steps, states) && i < |states| && a < b < |states[i].started|
    ensures states[i].started[a] != states[i].started[b]
  {
    RunKeeps(steps, states, i);
  }
}
