/**
 The event queue of a single-threaded listener.  Producers, the worker and the shutdown run
 concurrently: every access to shared memory below is one step, and a step that needs the mutex of
 the queue waits until nobody holds it.
 */
module EventQueue {
  import opened Prelude

  type Event = nat

  /** An entry of the queue, stamped with the number of entries pushed before it; None is the null event. */
  datatype Item = Item(ticket: nat, event: Option<Event>)

  /** A call of listenToEvent: look at m_container, push under the mutex, signal. */
  datatype Producer = Arriving(event: Option<Event>) | Pushing(event: Option<Event>) | Signalling | Gone

  datatype Worker =
    | Top                 // looks at the listener's termination flag
    | Fetch               // looks at m_container
    | Lock                // enters pop
    | Terminating1        // in pop, holding the mutex
    | LookEmpty
    | Waiting(woken: bool)
    | Terminating2
    | Take
    | Handling
    | Exited

  datatype Shutdown = NotBegun | Clear | PushNull | SignalNull | FlagListener | FlagQueue | Broadcast | Join

  datatype State = State(
    queue: seq<Item>,
    batch: seq<Item>,         // what is left of what the worker popped
    handled: seq<Item>,
    pushed: seq<Item>,        // everything ever pushed
    cleared: bool,            // the shutdown has emptied the queue
    producers: seq<Producer>,
    worker: Worker,
    shutdown: Shutdown,
    listenerTerminating: bool,
    queueTerminating: bool)

  const INITIAL: State := State([], [], [], [], false, [], Top, NotBegun, false, false)

  datatype Step = Listen(event: Option<Event>) | Produce(p: nat) | Work | Deinit

  predicate WorkerHoldsMutex(s: State)
  {
    s.worker.Terminating1? || s.worker.LookEmpty? || s.worker.Terminating2? || s.worker.Take?
  }

  predicate Enabled(s: State, step: Step)
  {
    match step
    case Listen(_) => true
    case Produce(p) =>
      p < |s.producers| && !s.producers[p].Gone? && (s.producers[p].Pushing? ==> !WorkerHoldsMutex(s))
    case Work => !s.worker.Exited?
    case Deinit => !s.shutdown.Join? && (s.shutdown.Clear? || s.shutdown.PushNull? ==> !WorkerHoldsMutex(s))
  }

  function Pushed(s: State, e: Option<Event>): State
  {
    var item := Item(|s.pushed|, e);
    s.(queue := s.queue + [item], pushed := s.pushed + [item])
  }

  /** signal and broadcast: there is at most one thread waiting. */
  function Woken(s: State): State
  {
    if s.worker.Waiting? then s.(worker := Waiting(true)) else s
  }

  function Moved(s: State, p: nat, to: Producer): State
    requires p < |s.producers|
  {
    s.(producers := s.producers[p := to])
  }

  function ProduceNext(s: State, p: nat): State
    requires p < |s.producers|
  {
    match s.producers[p]
    case Arriving(e) => Moved(s, p, if s.shutdown.NotBegun? then Pushing(e) else Gone)
    case Pushing(e) => Moved(Pushed(s, e), p, Signalling)
    case Signalling => Moved(Woken(s), p, Gone)
    case Gone => s
  }

  /** A wait may also return with nobody having signalled. */
  function WorkNext(s: State): State
  {
    match s.worker
    case Top => s.(worker := if s.listenerTerminating then Exited else Fetch)
    case Fetch => s.(worker := if s.shutdown.NotBegun? then Lock else Exited)
    case Lock => s.(worker := Terminating1)
    case Terminating1 => s.(worker := if s.queueTerminating then Handling else LookEmpty)
    case LookEmpty => s.(worker := if s.queue == [] then Waiting(false) else Terminating2)
    case Waiting(_) => s.(worker := Terminating2)
    case Terminating2 => s.(worker := if s.queueTerminating then Handling else Take)
    case Take =>
      if s.queue == [] then s.(worker := Terminating1)
      else s.(worker := Handling, batch := s.queue, queue := [])
    case Handling =>
      if s.batch == [] then s.(worker := Top)
      else if s.batch[0].event.None? then s.(worker := Exited)
      else s.(handled := s.handled + [s.batch[0]], batch := s.batch[1..])
    case Exited => s
  }

  function DeinitNext(s: State): State
  {
    match s.shutdown
    case NotBegun => s.(shutdown := Clear)
    case Clear => Woken(s).(shutdown := PushNull, queue := [], cleared := true)
    case PushNull => Pushed(s, None).(shutdown := SignalNull)
    case SignalNull => Woken(s).(shutdown := FlagListener)
    case FlagListener => s.(shutdown := FlagQueue, listenerTerminating := true)
    case FlagQueue => s.(shutdown := Broadcast, queueTerminating := true)
    case Broadcast => Woken(s).(shutdown := Join)
    case Join => s
  }

  function Next(s: State, step: Step): State
    requires Enabled(s, step)
  {
    match step
    case Listen(e) => s.(producers := s.producers + [Arriving(e)])
    case Produce(p) => ProduceNext(s, p)
    case Work => WorkNext(s)
    case Deinit => DeinitNext(s)
  }

  // ---------------------------------------------------------------- order

  /** Handled, then the rest of the batch, then the queue. */
  function All(s: State): seq<Item>
  {
    s.handled + s.batch + s.queue
  }

  ghost predicate Stamped(pushed: seq<Item>)
  {
    forall i: nat :: i < |pushed| ==> pushed[i].ticket == i
  }

  /** Some of what was pushed, in the order it was pushed, nothing twice. */
  ghost predicate InPushOrder(items: seq<Item>, pushed: seq<Item>)
  {
    && (forall i: nat :: i < |items| ==> items[i].ticket < |pushed| && items[i] == pushed[items[i].ticket])
    && (forall i: nat, j: nat :: i < j < |items| ==> items[i].ticket < items[j].ticket)
  }

  predicate NonNull(x: Item)
  {
    x.event.Some?
  }

  ghost predicate AllOk(all: seq<Item>, pushed: seq<Item>, cleared: bool)
  {
    Stamped(pushed) && InPushOrder(all, pushed) && (!cleared ==> all == pushed)
  }

  ghost predicate AllNonNull(items: seq<Item>)
  {
    forall i: nat :: i < |items| ==> NonNull(items[i])
  }

  ghost predicate OrderInv(s: State)
  {
    && AllOk(All(s), s.pushed, s.cleared) && AllNonNull(s.handled)
    && (!s.worker.Handling? && !s.worker.Exited? ==> s.batch == [])
    && (s.cleared ==> !s.shutdown.NotBegun? && !s.shutdown.Clear?)
  }

  lemma PushKeepsOrder(items: seq<Item>, pushed: seq<Item>, e: Option<Event>)
    requires Stamped(pushed) && InPushOrder(items, pushed)
    ensures var item := Item(|pushed|, e);
            Stamped(pushed + [item]) && InPushOrder(items + [item], pushed + [item])
  {
  }

  lemma PushedKeepsOrder(s: State, e: Option<Event>)
    requires OrderInv(s)
    ensures OrderInv(Pushed(s, e))
  {
    PushKeepsOrder(All(s), s.pushed, e);
    assert All(Pushed(s, e)) == All(s) + [Item(|s.pushed|, e)];
  }

  lemma TakeKeepsAll(s: State)
    requires s.worker.Take? && s.batch == []
    ensures All(WorkNext(s)) == All(s)
  {
  }

  lemma HandleKeepsAll(s: State)
    requires s.worker.Handling?
    ensures All(WorkNext(s)) == All(s)
    ensures AllNonNull(s.handled) ==> AllNonNull(WorkNext(s).handled)
  {
    if s.batch != [] && s.batch[0].event.Some? {
      Assoc(s.handled, [s.batch[0]], s.batch[1..]);
      assert [s.batch[0]] + s.batch[1..] == s.batch;
    }
  }

  lemma WorkKeepsOrder(s: State)
    requires OrderInv(s)
    ensures OrderInv(WorkNext(s))
  {
    hide AllOk, All, AllNonNull;
    if s.worker.Take? {
      TakeKeepsAll(s);
    } else if s.worker.Handling? {
      HandleKeepsAll(s);
    } else {
      SameItems(s, WorkNext(s));
    }
  }

  lemma SameItems(s: State, s': State)
    requires s'.handled == s.handled && s'.batch == s.batch && s'.queue == s.queue
    ensures All(s') == All(s)
  {
  }

  lemma ClearKeepsOrder(s: State)
    requires OrderInv(s) && s.shutdown.Clear?
    ensures OrderInv(DeinitNext(s))
  {
    var s' := DeinitNext(s);
    assert All(s') == All(s)[..|s.handled| + |s.batch|];
  }

  lemma ProduceKeepsOrder(s: State, p: nat)
    requires OrderInv(s) && p < |s.producers|
    ensures OrderInv(ProduceNext(s, p))
  {
    hide AllOk, All, AllNonNull;
    if s.producers[p].Pushing? {
      PushedKeepsOrder(s, s.producers[p].event);
      SameItems(Pushed(s, s.producers[p].event), ProduceNext(s, p));
    } else {
      SameItems(s, ProduceNext(s, p));
    }
  }

  lemma DeinitKeepsOrder(s: State)
    requires OrderInv(s)
    ensures OrderInv(DeinitNext(s))
  {
    hide AllOk, All, AllNonNull;
    if s.shutdown.Clear? {
      ClearKeepsOrder(s);
    } else if s.shutdown.PushNull? {
      PushedKeepsOrder(s, None);
      SameItems(Pushed(s, None), DeinitNext(s));
    } else {
      SameItems(s, DeinitNext(s));
    }
  }

  lemma StepKeepsOrder(s: State, step: Step)
    requires OrderInv(s) && Enabled(s, step)
    ensures OrderInv(Next(s, step))
  {
    match step
    case Listen(_) => SameItems(s, Next(s, step));
    case Produce(p) => ProduceKeepsOrder(s, p);
    case Work => WorkKeepsOrder(s);
    case Deinit => DeinitKeepsOrder(s);
  }

  // ---------------------------------------------------------------- waking up

  predicate SignalDue(s: State)
  {
    s.shutdown.SignalNull? || exists p: nat :: p < |s.producers| && s.producers[p].Signalling?
  }

  predicate HasNull(items: seq<Item>)
  {
    exists i: nat :: i < |items| && !NonNull(items[i])
  }

  predicate NullSent(d: Shutdown)
  {
    d.SignalNull? || d.FlagListener? || d.FlagQueue? || d.Broadcast? || d.Join?
  }

  /** Past the signal for the null event. */
  predicate Settled(d: Shutdown)
  {
    d.FlagListener? || d.FlagQueue? || d.Broadcast? || d.Join?
  }

  /**
   A waiting worker is about to be woken whenever there is something to pop; and once the shutdown
   has pushed its null event, that event is still ahead of the worker or has made it leave.
   */
  ghost predicate WakeInv(s: State)
  {
    && (s.worker == Waiting(false) && s.queue != [] ==> SignalDue(s))
    && (NullSent(s.shutdown) ==> HasNull(s.queue) || HasNull(s.batch) || s.worker.Exited?)
    && (!s.worker.Handling? && !s.worker.Exited? ==> s.batch == [])
    && (Settled(s.shutdown) ==> s.worker != Waiting(false))
    && (s.listenerTerminating <==> s.shutdown.FlagQueue? || s.shutdown.Broadcast? || s.shutdown.Join?)
    && (s.queueTerminating <==> s.shutdown.Broadcast? || s.shutdown.Join?)
  }

  lemma ProduceKeepsWake(s: State, p: nat)
    requires WakeInv(s) && Enabled(s, Produce(p))
    ensures WakeInv(ProduceNext(s, p))
  {
    var s' := ProduceNext(s, p);
    match s.producers[p] {
      case Arriving(_) =>
        if s.worker == Waiting(false) && s.queue != [] && !s.shutdown.SignalNull? {
          var q: nat :| q < |s.producers| && s.producers[q].Signalling?;
          assert s'.producers[q].Signalling?;
        }
      case Pushing(e) =>
        assert s'.producers[p].Signalling?;
        if HasNull(s.queue) {
          var i: nat :| i < |s.queue| && !NonNull(s.queue[i]);
          assert s'.queue[i] == s.queue[i];
        }
      case Signalling =>
      case Gone =>
    }
  }

  lemma WorkKeepsWake(s: State)
    requires WakeInv(s) && !s.worker.Exited?
    ensures WakeInv(WorkNext(s))
  {
    hide HasNull, SignalDue, NonNull;
    NothingHasNoNull();
    if s.worker.Handling? {
      HandlingKeepsNull(s);
    }
  }

  lemma NothingHasNoNull()
    ensures !HasNull([])
  {
  }

  /** The null event of a batch is not handled before the others. */
  lemma HandlingKeepsNull(s: State)
    requires s.worker.Handling?
    ensures HasNull(s.batch) ==> HasNull(WorkNext(s).batch) || WorkNext(s).worker.Exited?
  {
    if HasNull(s.batch) && NonNull(s.batch[0]) {
      var i: nat :| i < |s.batch| && !NonNull(s.batch[i]);
      assert WorkNext(s).batch == s.batch[1..];
      assert s.batch[1..][i - 1] == s.batch[i];
    }
  }

  lemma DeinitKeepsWake(s: State)
    requires WakeInv(s) && Enabled(s, Deinit)
    ensures WakeInv(DeinitNext(s))
  {
    var s' := DeinitNext(s);
    assert s'.producers == s.producers;
    if s.shutdown.PushNull? {
      assert !NonNull(s'.queue[|s.queue|]);
    }
  }

  lemma StepKeepsWake(s: State, step: Step)
    requires WakeInv(s) && Enabled(s, step)
    ensures WakeInv(Next(s, step))
  {
    match step
    case Listen(e) =>
      var s' := Next(s, step);
      if s.worker == Waiting(false) && s.queue != [] && !s.shutdown.SignalNull? {
        var q: nat :| q < |s.producers| && s.producers[q].Signalling?;
        assert s'.producers[q].Signalling?;
      }
    case Produce(p) => ProduceKeepsWake(s, p);
    case Work => WorkKeepsWake(s);
    case Deinit => DeinitKeepsWake(s);
  }

  // ---------------------------------------------------------------- runs

  ghost predicate IsRun(steps: seq<Step>, states: seq<State>)
  {
    |states| == |steps| + 1 && states[0] == INITIAL &&
    forall i: nat :: i < |steps| ==> Enabled(states[i], steps[i]) && states[i + 1] == Next(states[i], steps[i])
  }

  lemma InitialIsOk()
    ensures OrderInv(INITIAL) && WakeInv(INITIAL)
  {
  }

  lemma {:induction false} RunKeeps(steps: seq<Step>, states: seq<State>, i: nat)
    requires IsRun(steps, states) && i < |states|
    ensures OrderInv(states[i]) && WakeInv(states[i])
  {
    hide Next, Enabled, OrderInv, WakeInv;
    if i == 0 {
      InitialIsOk();
    } else {
      RunKeeps(steps, states, i - 1);
      StepKeepsOrder(states[i - 1], steps[i - 1]);
      StepKeepsWake(states[i - 1], steps[i - 1]);
    }
  }

  /**
   In every interleaving, until the shutdown empties the queue: what was handled, then the rest of the
   batch, then the queue, is exactly what was pushed.
   */
  lemma NothingLostBeforeShutdown(steps: seq<Step>, states: seq<State>, i: nat)
    requires IsRun(steps, states) && i < |states|
    requires states[i].shutdown.NotBegun? || states[i].shutdown.Clear?
    ensures states[i].handled + states[i].batch + states[i].queue == states[i].pushed
  {
    RunKeeps(steps, states, i);
  }

  /** At all times, also across the shutdown: events are handled in push order and at most once. */
  lemma HandledInPushOrder(steps: seq<Step>, states: seq<State>, i: nat)
    requires IsRun(steps, states) && i < |states|
    ensures InPushOrder(states[i].handled, states[i].pushed)
    ensures forall a: nat :: a < |states[i].handled| ==> NonNull(states[i].handled[a])
    ensures forall a: nat, b: nat :: a < b < |states[i].handled| ==> states[i].handled[a] != states[i].handled[b]
  {
    RunKeeps(steps, states, i);
    var s := states[i];
    assert s.handled == All(s)[..|s.handled|];
  }

  /** The worker never sleeps on a queue that has something in it, unless a signal is on its way. */
  lemma NeverStranded(steps: seq<Step>, states: seq<State>, i: nat)
    requires IsRun(steps, states) && i < |states| && states[i].worker == Waiting(false) && states[i].queue != []
    ensures SignalDue(states[i])
  {
    RunKeeps(steps, states, i);
  }

  /** How many more steps the worker can take once the shutdown waits for it. */
  function Remaining(s: State): nat
  {
    match s.worker
    case Exited => 0
    case Top => 1
    case Fetch => 1
    case Handling => |s.batch| + 2
    case Terminating1 => 3
    case Terminating2 => 3
    case Lock => 4
    case Waiting(_) => 4
    case LookEmpty => 5
    case Take => |s.queue| + 4
  }

  /**
   The shutdown never waits in vain: when it has come to joining the worker, the worker is not asleep,
   each of its steps brings it closer to its exit, and no producer can put the exit off.
   */
  lemma ShutdownCompletes(steps: seq<Step>, states: seq<State>, i: nat)
    requires IsRun(steps, states) && i < |steps| && states[i].shutdown.Join?
    ensures states[i].worker != Waiting(false) && states[i + 1].shutdown.Join?
    ensures Remaining(states[i + 1]) <= Remaining(states[i])
    ensures steps[i].Work? ==> Remaining(states[i + 1]) < Remaining(states[i])
    ensures Remaining(states[i]) == 0 <==> states[i].worker.Exited?
  {
    hide OrderInv, HasNull, SignalDue;
    RunKeeps(steps, states, i);
  }
}
