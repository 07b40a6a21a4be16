/** That events do get handled: which ones are pushed, told from the steps of a run alone, and that the worker catches up. */
module QueueProgress {
  import opened Prelude
  import opened EventQueue

  // ---------------------------------------------------------------- what a run pushes

  /** The events of the calls of listenToEvent, in the order they began. */
  function Listened(steps: seq<Step>): seq<Option<Event>>
  {
    if steps == [] then []
    else
      var last := steps[|steps| - 1];
      Listened(steps[..|steps| - 1]) + if last.Listen? then [last.event] else []
  }

  function Count(steps: seq<Step>, step: Step): nat
  {
    if steps == [] then 0 else Count(steps[..|steps| - 1], step) + if steps[|steps| - 1] == step then 1 else 0
  }

  /** Call `p` took its first step before the shutdown took one. */
  predicate InTime(steps: seq<Step>, p: nat)
  {
    steps != [] &&
    var init := steps[..|steps| - 1];
    InTime(init, p) || (steps[|steps| - 1] == Produce(p) && Count(init, Produce(p)) == 0 && Count(init, Deinit) == 0)
  }

  /** What is pushed: by the second step of each call that was in time, and the null event by the third of the shutdown. */
  function Accepted(steps: seq<Step>): seq<Option<Event>>
  {
    if steps == [] then []
    else
      var init, last := steps[..|steps| - 1], steps[|steps| - 1];
      Accepted(init) +
      if last.Produce? && Count(init, last) == 1 && InTime(init, last.p) && last.p < |Listened(init)| then [Listened(init)[last.p]]
      else if last.Deinit? && Count(init, Deinit) == 2 then [None]
      else []
  }

  function EventsOf(items: seq<Item>): (r: seq<Option<Event>>)
    ensures |r| == |items|
  {
    seq(|items|, i requires 0 <= i < |items| => items[i].event)
  }

  /** Where a call is after so many steps. */
  function PlaceOf(e: Option<Event>, taken: nat, inTime: bool): Producer
  {
    if taken == 0 then Arriving(e)
    else if !inTime || taken >= 3 then Gone
    else if taken == 1 then Pushing(e)
    else Signalling
  }

  function StageOf(taken: nat): Shutdown
  {
    if taken == 0 then NotBegun
    else if taken == 1 then Clear
    else if taken == 2 then PushNull
    else if taken == 3 then SignalNull
    else if taken == 4 then FlagListener
    else if taken == 5 then FlagQueue
    else if taken == 6 then Broadcast
    else Join
  }

  ghost predicate ProducersOk(steps: seq<Step>, producers: seq<Producer>)
  {
    && |producers| == |Listened(steps)|
    && (forall p: nat :: p < |producers| ==>
          producers[p] == PlaceOf(Listened(steps)[p], Count(steps, Produce(p)), InTime(steps, p)))
    && (forall p: nat :: p >= |producers| ==> Count(steps, Produce(p)) == 0)
  }

  ghost predicate Follows(steps: seq<Step>, s: State)
  {
    && ProducersOk(steps, s.producers) && s.shutdown == StageOf(Count(steps, Deinit))
    && EventsOf(s.pushed) == Accepted(steps)
  }

  lemma EventsOneMore(items: seq<Item>, x: Item)
    ensures EventsOf(items + [x]) == EventsOf(items) + [x.event]
  {
  }

  lemma CountOne(steps: seq<Step>, s: Step, t: Step)
    ensures Count(steps + [s], t) == Count(steps, t) + if s == t then 1 else 0
  {
    assert (steps + [s])[..|steps|] == steps;
  }

  lemma ListenedOne(steps: seq<Step>, s: Step)
    ensures Listened(steps + [s]) == Listened(steps) + if s.Listen? then [s.event] else []
  {
    assert (steps + [s])[..|steps|] == steps;
  }

  lemma InTimeOne(steps: seq<Step>, s: Step, p: nat)
    ensures InTime(steps + [s], p) <==>
            InTime(steps, p) || (s == Produce(p) && Count(steps, Produce(p)) == 0 && Count(steps, Deinit) == 0)
  {
    assert (steps + [s])[..|steps|] == steps;
  }

  lemma AcceptedOne(steps: seq<Step>, s: Step)
    ensures Accepted(steps + [s]) == Accepted(steps) +
            if s.Produce? && Count(steps, s) == 1 && InTime(steps, s.p) && s.p < |Listened(steps)| then [Listened(steps)[s.p]]
            else if s.Deinit? && Count(steps, Deinit) == 2 then [None]
            else []
  {
    assert (steps + [s])[..|steps|] == steps;
  }

  lemma {:induction false} LateIsNotInTime(steps: seq<Step>, p: nat)
    ensures InTime(steps, p) ==> Count(steps, Produce(p)) > 0
  {
    if steps != [] {
      LateIsNotInTime(steps[..|steps| - 1], p);
    }
  }

  lemma ProducersFollow(steps: seq<Step>, s: State, step: Step)
    requires Follows(steps, s) && Enabled(s, step)
    ensures ProducersOk(steps + [step], Next(s, step).producers)
  {
    hide Count, InTime, Listened, Accepted, EventsOf, WorkNext;
    var s' := Next(s, step);
    ListenedOne(steps, step);
    forall p: nat ensures Count(steps + [step], Produce(p)) == Count(steps, Produce(p)) + (if step == Produce(p) then 1 else 0) {
      CountOne(steps, step, Produce(p));
    }
    if step.Work? {
      WorkMovesNobody(s);
    }
    forall p: nat | p < |s'.producers|
      ensures s'.producers[p] == PlaceOf(Listened(steps + [step])[p], Count(steps + [step], Produce(p)), InTime(steps + [step], p))
    {
      InTimeOne(steps, step, p);
      LateIsNotInTime(steps, p);
    }
  }

  lemma WorkMovesNobody(s: State)
    ensures WorkNext(s).producers == s.producers && WorkNext(s).pushed == s.pushed && WorkNext(s).shutdown == s.shutdown
  {
  }

  lemma StepFollows(steps: seq<Step>, s: State, step: Step)
    requires Follows(steps, s) && Enabled(s, step)
    ensures Follows(steps + [step], Next(s, step))
  {
    hide Count, InTime, Listened, Accepted, EventsOf, WorkNext;
    ProducersFollow(steps, s, step);
    CountOne(steps, step, Deinit);
    AcceptedOne(steps, step);
    match step
    case Listen(_) =>
    case Produce(p) =>
      LateIsNotInTime(steps, p);
      if s.producers[p].Pushing? {
        EventsOneMore(s.pushed, Item(|s.pushed|, s.producers[p].event));
      }
    case Work =>
      WorkMovesNobody(s);
    case Deinit =>
      if s.shutdown.PushNull? {
        EventsOneMore(s.pushed, Item(|s.pushed|, None));
      }
  }

  lemma {:induction false} RunFollows(steps: seq<Step>, states: seq<State>, i: nat)
    requires IsRun(steps, states) && i < |states|
    ensures Follows(steps[..i], states[i])
  {
    hide Next, Enabled, Follows;
    if i == 0 {
      assert steps[..0] == [];
      StartFollows();
    } else {
      RunFollows(steps, states, i - 1);
      StepFollows(steps[..i - 1], states[i - 1], steps[i - 1]);
      assert steps[..i - 1] + [steps[i - 1]] == steps[..i];
    }
  }

  lemma StartFollows()
    ensures Follows([], INITIAL)
  {
  }

  /** In every interleaving, what has been pushed is what the steps taken say, in the order of the pushing steps. */
  lemma EveryEventIsPushed(steps: seq<Step>, states: seq<State>, i: nat)
    requires IsRun(steps, states) && i < |states|
    ensures EventsOf(states[i].pushed) == Accepted(steps[..i])
  {
    hide IsRun;
    RunFollows(steps, states, i);
  }

  // ---------------------------------------------------------------- the worker stays

  /** Nothing has been done to stop the worker. */
  ghost predicate Running(s: State)
  {
    s.shutdown.NotBegun? && AllNonNull(s.pushed)
  }

  lemma HandledAreNonNull(s: State)
    requires OrderInv(s) && AllNonNull(s.pushed)
    ensures AllNonNull(s.batch) && AllNonNull(s.queue)
  {
    var all := All(s);
    forall i: nat | i < |s.batch| ensures NonNull(s.batch[i]) {
      assert all[|s.handled| + i] == s.batch[i];
    }
    forall i: nat | i < |s.queue| ensures NonNull(s.queue[i]) {
      assert all[|s.handled| + |s.batch| + i] == s.queue[i];
    }
  }

  lemma StepStays(s: State, step: Step)
    requires OrderInv(s) && WakeInv(s) && Enabled(s, step) && Running(Next(s, step)) && (Running(s) ==> !s.worker.Exited?)
    ensures Running(s) && !Next(s, step).worker.Exited?
  {
    hide OrderInv;
    var s' := Next(s, step);
    forall i: nat | i < |s.pushed| ensures NonNull(s.pushed[i]) {
      assert s'.pushed[i] == s.pushed[i];
    }
    HandledAreNonNull(s);
  }

  /** In every run with the shutdown not begun and no null event pushed, the worker has not left. */
  lemma {:induction false} WorkerStays(steps: seq<Step>, states: seq<State>, i: nat)
    requires IsRun(steps, states) && i < |states| && Running(states[i])
    ensures !states[i].worker.Exited?
  {
    hide Next, Enabled, OrderInv, WakeInv;
    if i > 0 {
      RunKeeps(steps, states, i - 1);
      if Running(states[i - 1]) {
        WorkerStays(steps, states, i - 1);
      }
      StepStays(states[i - 1], steps[i - 1]);
    }
  }

  // ---------------------------------------------------------------- and catches up

  /** How far the worker is from having handled everything. */
  function Behind(s: State): nat
  {
    match s.worker
    case Handling => |s.batch| + if s.queue == [] then 0 else |s.queue| + 10
    case Top => |s.queue| + 9
    case Fetch => |s.queue| + 8
    case Lock => |s.queue| + 7
    case Terminating1 => |s.queue| + 6
    case LookEmpty => |s.queue| + 5
    case Waiting(_) => |s.queue| + 4
    case Terminating2 => |s.queue| + 3
    case Take => |s.queue| + 2
    case Exited => 0
  }

  /** A state the worker can go on from. */
  ghost predicate Sound(s: State)
  {
    OrderInv(s) && WakeInv(s) && Running(s) && !s.worker.Exited?
  }

  /** With something left to handle, each step of the worker brings it nearer to having handled it. */
  lemma WorkIsProgress(s: State)
    requires Sound(s) && s.handled != s.pushed
    ensures Behind(WorkNext(s)) < Behind(s)
  {
    hide HasNull, SignalDue;
    HandledAreNonNull(s);
    assert s.handled + [] + [] == s.handled;
  }

  lemma WorkStaysSound(s: State)
    requires Sound(s)
    ensures Sound(WorkNext(s)) && Enabled(s, Work) && WorkNext(s).pushed == s.pushed
  {
    hide OrderInv, WakeInv;
    StepKeepsOrder(s, Work);
    StepKeepsWake(s, Work);
    WorkMovesNobody(s);
    StepStays(s, Work);
  }

  /** A worker that waits is woken by a call that is about to signal. */
  lemma SignalWakes(s: State) returns (p: nat)
    requires Sound(s) && s.worker == Waiting(false) && s.handled != s.pushed
    ensures Enabled(s, Produce(p)) && s.producers[p].Signalling?
    ensures var s' := ProduceNext(s, p);
            Sound(s') && s'.worker == Waiting(true) && Behind(s') == Behind(s) && s'.pushed == s.pushed
  {
    hide OrderInv;
    if s.queue == [] {
      NothingLeft(s);
    }
    p :| p < |s.producers| && s.producers[p].Signalling?;
    StepKeepsOrder(s, Produce(p));
    StepKeepsWake(s, Produce(p));
  }

  lemma NothingLeft(s: State)
    requires Sound(s) && s.batch == [] && s.queue == []
    ensures s.handled == s.pushed
  {
    assert All(s) == s.handled;
  }

  ghost predicate Path(s: State, steps: seq<Step>, states: seq<State>, s': State)
  {
    && |states| == |steps| + 1 && states[0] == s && states[|steps|] == s'
    && forall i: nat :: i < |steps| ==> Enabled(states[i], steps[i]) && states[i + 1] == Next(states[i], steps[i])
  }

  /** Steps of the worker, and signals that are due; the worker does not go on waiting until it is woken. */
  ghost predicate Fair(steps: seq<Step>, states: seq<State>)
  {
    |states| == |steps| + 1 &&
    forall i: nat :: i < |steps| ==>
      (steps[i].Work? && states[i].worker != Waiting(false)) ||
      (steps[i].Produce? && steps[i].p < |states[i].producers| && states[i].producers[steps[i].p].Signalling?)
  }

  lemma OneMoreStep(s: State, step: Step, steps: seq<Step>, states: seq<State>, s': State)
    requires Enabled(s, step) && Path(Next(s, step), steps, states, s') && Fair(steps, states)
    requires (step.Work? && s.worker != Waiting(false)) ||
             (step.Produce? && step.p < |s.producers| && s.producers[step.p].Signalling?)
    ensures Path(s, [step] + steps, [s] + states, s') && Fair([step] + steps, [s] + states)
  {
    hide Next, Enabled;
    var a, b := [step] + steps, [s] + states;
    forall i: nat | i < |a| ensures Enabled(b[i], a[i]) && b[i + 1] == Next(b[i], a[i]) {
      if i > 0 {
        assert b[i] == states[i - 1] && b[i + 1] == states[i] && a[i] == steps[i - 1];
      }
    }
    forall i: nat | i < |a|
      ensures (a[i].Work? && b[i].worker != Waiting(false)) ||
              (a[i].Produce? && a[i].p < |b[i].producers| && b[i].producers[a[i].p].Signalling?)
    {
      if i > 0 {
        assert b[i] == states[i - 1] && a[i] == steps[i - 1];
      }
    }
  }

  lemma {:induction false} CatchesUp(s: State) returns (steps: seq<Step>, states: seq<State>, s': State)
    requires Sound(s)
    ensures Path(s, steps, states, s') && Fair(steps, states)
    ensures s'.handled == s'.pushed == s.pushed
    decreases Behind(s), if s.worker == Waiting(false) then 1 else 0
  {
    hide Sound, Behind, WorkNext;
    if s.handled == s.pushed {
      steps, states, s' := [], [s], s;
    } else if s.worker == Waiting(false) {
      var p := SignalWakes(s);
      steps, states, s' := CatchesUp(ProduceNext(s, p));
      OneMoreStep(s, Produce(p), steps, states, s');
      steps, states := [Produce(p)] + steps, [s] + states;
    } else {
      WorkStaysSound(s);
      WorkIsProgress(s);
      steps, states, s' := CatchesUp(WorkNext(s));
      OneMoreStep(s, Work, steps, states, s');
      steps, states := [Work] + steps, [s] + states;
    }
  }

  /**
   From every state of every run with the shutdown not begun and no null event pushed, steps of the
   worker and signals that are due lead to a state in which everything pushed has been handled.
   */
  lemma EverythingIsHandled(steps: seq<Step>, states: seq<State>, i: nat) returns (more: seq<Step>, after: seq<State>, s': State)
    requires IsRun(steps, states) && i < |states| && Running(states[i])
    ensures Path(states[i], more, after, s') && Fair(more, after)
    ensures EventsOf(s'.handled) == Accepted(steps[..i])
  {
    hide Next, Enabled, OrderInv, WakeInv;
    RunKeeps(steps, states, i);
    WorkerStays(steps, states, i);
    RunFollows(steps, states, i);
    more, after, s' := CatchesUp(states[i]);
  }

  // ---------------------------------------------------------------- what the shutdown drops

  predicate Clears(s: State, step: Step) { step.Deinit? && s.shutdown.Clear? }

  lemma PushAdds(s: State, e: Option<Event>, s': State)
    requires var u := Pushed(s, e);
             s'.handled == u.handled && s'.batch == u.batch && s'.queue == u.queue && s'.pushed == u.pushed
    ensures s.pushed <= s'.pushed && All(s') == All(s) + s'.pushed[|s.pushed|..]
  {
    assert s'.pushed[|s.pushed|..] == [Item(|s.pushed|, e)];
  }

  lemma SameAdds(s: State, s': State)
    requires All(s') == All(s) && s'.pushed == s.pushed
    ensures s.pushed <= s'.pushed && All(s') == All(s) + s'.pushed[|s.pushed|..]
  {
    hide All;
  }

  lemma WorkKeepsAll(s: State)
    requires OrderInv(s)
    ensures All(WorkNext(s)) == All(s)
  {
    hide OrderInv, All;
    if s.worker.Take? {
      NoBatch(s);
      TakeKeepsAll(s);
    } else if s.worker.Handling? {
      HandleKeepsAll(s);
    } else {
      SameItems(s, WorkNext(s));
    }
  }

  lemma StepAdds(s: State, step: Step)
    requires OrderInv(s) && Enabled(s, step) && !Clears(s, step)
    ensures var s' := Next(s, step);
            s.pushed <= s'.pushed && All(s') == All(s) + s'.pushed[|s.pushed|..]
  {
    hide OrderInv, All, WorkNext;
    var s' := Next(s, step);
    if step.Work? {
      WorkKeepsAll(s);
      WorkMovesNobody(s);
      SameAdds(s, s');
    } else if step.Produce? && s.producers[step.p].Pushing? {
      PushAdds(s, s.producers[step.p].event, s');
    } else if step.Deinit? && s.shutdown.PushNull? {
      PushAdds(s, None, s');
    } else {
      SameItems(s, s');
      SameAdds(s, s');
    }
  }

  lemma NoBatch(s: State)
    requires OrderInv(s) && s.worker.Take?
    ensures s.batch == []
  {
  }

  lemma {:induction false} ClearsOnce(steps: seq<Step>, states: seq<State>, j: nat, i: nat)
    requires IsRun(steps, states) && j < i < |states| && Clears(states[j], steps[j])
    ensures !states[i].shutdown.NotBegun? && !states[i].shutdown.Clear?
    decreases i
  {
    hide WorkNext;
    if i > j + 1 {
      ClearsOnce(steps, states, j, i - 1);
      WorkMovesNobody(states[i - 1]);
    }
  }

  /**
   Of everything pushed, exactly what was queued when the shutdown cleared the queue is dropped: all
   the rest has been handled, is in the batch or is queued, in order.
   */
  lemma {:induction false} OnlyTheQueueIsDropped(steps: seq<Step>, states: seq<State>, j: nat, i: nat)
    requires IsRun(steps, states) && j < i < |states| && Clears(states[j], steps[j])
    ensures |states[j].pushed| <= |states[i].pushed|
    ensures All(states[i]) == states[j].handled + states[j].batch + states[i].pushed[|states[j].pushed|..]
    decreases i
  {
    hide OrderInv, WakeInv, WorkNext;
    var s, s' := states[i - 1], states[i];
    var k := |states[j].pushed|;
    if i == j + 1 {
      assert s'.pushed[k..] == [];
    } else {
      OnlyTheQueueIsDropped(steps, states, j, i - 1);
      ClearsOnce(steps, states, j, i - 1);
      RunKeeps(steps, states, i - 1);
      StepAdds(s, steps[i - 1]);
      assert s'.pushed[k..] == s.pushed[k..] + s'.pushed[|s.pushed|..];
    }
  }
}
