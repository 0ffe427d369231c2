// The audit pipeline (pkg/audit/audit.go) as a state machine: any number of
// loggers, a bounded queue, a batching worker, and Stop, which drains what the
// worker left. A step is what one of them does between two synchronisations.
module AuditPipeline {

  datatype Event = Event(id: nat)

  /** What became of a batch: stored, written to the fallback file, or lost. */
  datatype Outcome = Stored | FellBack | Lost

  datatype Worker =
    | Absent
    | Waiting(batch: seq<Event>)
    | Flushing(handing: seq<Event>, exiting: bool)
    | Exited

  datatype Phase =
    | Idle
    | Running
    | Stopping
    | Draining(taken: seq<Event>)
    | DrainFlushing(handing: seq<Event>)

  /**
    * `pending` are the events counted but not yet offered to the queue.
    * The last four fields are history: events accepted by the queue, events
    * handed to flushBatch, events accepted since the last drain ended, and
    * events refused by a full queue.
    */
  datatype State = State(
    capacity: nat, batchSize: nat,
    queue: seq<Event>, pending: multiset<Event>, worker: Worker, phase: Phase,
    total: nat, flushed: nat, fallback: nat, dropped: nat,
    accepted: seq<Event>, handed: seq<Event>, late: seq<Event>, refused: nat)

  datatype Step =
    | Count(e: Event)
    | Offer(e: Event)
    | SetBatchSize(n: nat)
    | Start
    | CloseStop
    | Receive
    | Tick
    | SeeStop
    | WorkerFlushed(o: Outcome)
    | BeginDrain
    | DrainTake
    | DrainFlush
    | DrainFlushed(o: Outcome)
    | EndDrain

  predicate Init(s: State)
  {
    && s.batchSize > 0
    && s.queue == [] && s.pending == multiset{} && s.worker == Absent && s.phase == Idle
    && s.total == s.flushed == s.fallback == s.dropped == s.refused == 0
    && s.accepted == s.handed == s.late == []
  }

  /** The counter a finished batch of `n` events goes to. */
  function Settle(s: State, n: nat, o: Outcome): State
  {
    match o
    case Stored => s.(flushed := s.flushed + n)
    case FellBack => s.(fallback := s.fallback + n)
    case Lost => s.(dropped := s.dropped + n)
  }

  predicate Enabled(s: State, a: Step)
  {
    match a
    case Count(e) => true
    case Offer(e) => e in s.pending
    case SetBatchSize(n) => n > 0
    case Start => s.phase == Idle
    case CloseStop => s.phase == Running
    case Receive => s.worker.Waiting? && s.queue != []
    case Tick => s.worker.Waiting? && s.worker.batch != []
    case SeeStop => s.worker.Waiting? && s.phase == Stopping
    case WorkerFlushed(o) => s.worker.Flushing?
    case BeginDrain => s.phase == Stopping && s.worker == Exited
    case DrainTake => s.phase.Draining? && s.queue != [] && (s.phase.taken == [] || |s.phase.taken| < s.batchSize)
    case DrainFlush => s.phase.Draining? && s.phase.taken != [] && (s.queue == [] || |s.phase.taken| >= s.batchSize)
    case DrainFlushed(o) => s.phase.DrainFlushing?
    case EndDrain => s.phase == Draining([]) && s.queue == []
  }

  /** The worker hands its batch to flushBatch. */
  function Hand(s: State, batch: seq<Event>, exiting: bool): State
  {
    s.(worker := Flushing(batch, exiting), handed := s.handed + batch)
  }

  function Apply(s: State, a: Step): State
    requires Enabled(s, a)
  {
    match a
    case Count(e) => s.(total := s.total + 1, pending := s.pending + multiset{e})
    case Offer(e) =>
      var t := s.(pending := s.pending - multiset{e});
      if |s.queue| < s.capacity
      then t.(queue := s.queue + [e], accepted := s.accepted + [e],
              late := if s.phase == Idle then s.late + [e] else s.late)
      else t.(dropped := s.dropped + 1, refused := s.refused + 1)
    case SetBatchSize(n) => s.(batchSize := n)
    case Start => s.(phase := Running, worker := Waiting([]))
    case CloseStop => s.(phase := Stopping)
    case Receive =>
      var batch := s.worker.batch + [s.queue[0]];
      var t := s.(queue := s.queue[1..]);
      if |batch| >= s.batchSize then Hand(t, batch, false) else t.(worker := Waiting(batch))
    case Tick => Hand(s, s.worker.batch, false)
    case SeeStop => if s.worker.batch != [] then Hand(s, s.worker.batch, true) else s.(worker := Exited)
    case WorkerFlushed(o) =>
      Settle(s.(worker := if s.worker.exiting then Exited else Waiting([])), |s.worker.handing|, o)
    case BeginDrain => s.(phase := Draining([]), worker := Absent)
    case DrainTake => s.(queue := s.queue[1..], phase := Draining(s.phase.taken + [s.queue[0]]))
    case DrainFlush => s.(phase := DrainFlushing(s.phase.taken), handed := s.handed + s.phase.taken)
    case DrainFlushed(o) => Settle(s.(phase := Draining([])), |s.phase.handing|, o)
    case EndDrain => s.(phase := Idle, late := [])
  }

  /** A run: each step is enabled and leads to the next state. */
  ghost predicate IsRun(run: seq<State>, steps: seq<Step>)
  {
    && |run| == |steps| + 1
    && forall i :: 0 <= i < |steps| ==> Enabled(run[i], steps[i]) && run[i + 1] == Apply(run[i], steps[i])
  }

  // ----- What every step keeps -----

  /** Events taken from the queue and not yet handed on. */
  function Batched(s: State): seq<Event>
  {
    (if s.worker.Waiting? then s.worker.batch else []) + (if s.phase.Draining? then s.phase.taken else [])
  }

  /** Events handed to flushBatch and not yet counted. */
  function InFlush(s: State): seq<Event>
  {
    (if s.worker.Flushing? then s.worker.handing else []) + (if s.phase.DrainFlushing? then s.phase.handing else [])
  }

  ghost predicate WellFormed(s: State)
  {
    && s.batchSize > 0 && |s.queue| <= s.capacity
    && (s.phase.Running? || s.phase.Stopping? <==> s.worker != Absent)
    && (s.worker == Exited || (s.worker.Flushing? && s.worker.exiting) ==> s.phase.Stopping?)
  }

  /** Every event counted is accounted for. */
  ghost predicate Conserved(s: State)
  {
    s.total == s.flushed + s.fallback + s.dropped + |s.queue| + |Batched(s)| + |InFlush(s)| + |s.pending|
  }

  /** Events are handed on in the order they were accepted, none lost, none twice. */
  ghost predicate Ordered(s: State)
  {
    s.handed + Batched(s) + s.queue == s.accepted
  }

  /** Every event counted was accepted, refused, or is still on its way to the queue. */
  ghost predicate Counted(s: State)
  {
    s.total == |s.accepted| + s.refused + |s.pending|
  }

  /** While no worker and no drain is active, the queue holds just what came since the last drain. */
  ghost predicate LateOnly(s: State)
  {
    s.phase == Idle ==> s.queue == s.late
  }

  ghost predicate Invariant(s: State)
  {
    WellFormed(s) && Conserved(s) && Ordered(s) && Counted(s) && LateOnly(s)
  }

  lemma InitHolds(s: State)
    requires Init(s)
    ensures Invariant(s)
  {
  }

  lemma StepKeepsWellFormed(s: State, a: Step)
    requires WellFormed(s) && LateOnly(s) && Enabled(s, a)
    ensures WellFormed(Apply(s, a)) && LateOnly(Apply(s, a))
  {
  }

  predicate IsLoggerStep(a: Step)
  {
    a.Count? || a.Offer? || a.SetBatchSize? || a.Start? || a.CloseStop? || a.BeginDrain? || a.EndDrain?
  }

  predicate IsFlushed(a: Step)
  {
    a.WorkerFlushed? || a.DrainFlushed?
  }

  lemma LoggerStepConserves(s: State, a: Step)
    requires WellFormed(s) && Conserved(s) && Counted(s) && Enabled(s, a) && IsLoggerStep(a)
    ensures Conserved(Apply(s, a)) && Counted(Apply(s, a))
  {
  }

  lemma FlushedConserves(s: State, a: Step)
    requires WellFormed(s) && Conserved(s) && Counted(s) && Enabled(s, a) && IsFlushed(a)
    ensures Conserved(Apply(s, a)) && Counted(Apply(s, a))
  {
  }

  lemma MovingConserves(s: State, a: Step)
    requires WellFormed(s) && Conserved(s) && Counted(s) && Enabled(s, a) && !IsLoggerStep(a) && !IsFlushed(a)
    ensures Conserved(Apply(s, a)) && Counted(Apply(s, a))
  {
  }

  lemma StepConserves(s: State, a: Step)
    requires WellFormed(s) && Conserved(s) && Counted(s) && Enabled(s, a)
    ensures Conserved(Apply(s, a)) && Counted(Apply(s, a))
  {
    if IsLoggerStep(a) {
      LoggerStepConserves(s, a);
    } else if IsFlushed(a) {
      FlushedConserves(s, a);
    } else {
      MovingConserves(s, a);
    }
  }

  lemma TakingKeepsOrder(s: State, a: Step)
    requires WellFormed(s) && Ordered(s) && Enabled(s, a) && (a.Receive? || a.DrainTake?)
    ensures Ordered(Apply(s, a))
  {
    var head, rest := s.queue[0], s.queue[1..];
    assert s.queue == [head] + rest;
    assert s.handed + (Batched(s) + [head]) + rest == s.handed + Batched(s) + s.queue;
  }

  lemma OtherStepKeepsOrder(s: State, a: Step)
    requires WellFormed(s) && Ordered(s) && Enabled(s, a) && !a.Receive? && !a.DrainTake?
    ensures Ordered(Apply(s, a))
  {
    if a.Offer? {
      assert s.handed + Batched(s) + (s.queue + [a.e]) == s.handed + Batched(s) + s.queue + [a.e];
    }
  }

  lemma StepKeepsOrder(s: State, a: Step)
    requires WellFormed(s) && Ordered(s) && Enabled(s, a)
    ensures Ordered(Apply(s, a))
  {
    if a.Receive? || a.DrainTake? {
      TakingKeepsOrder(s, a);
    } else {
      OtherStepKeepsOrder(s, a);
    }
  }

  lemma StepKeepsInvariant(s: State, a: Step)
    requires Invariant(s) && Enabled(s, a)
    ensures Invariant(Apply(s, a))
  {
    StepKeepsWellFormed(s, a);
    StepConserves(s, a);
    StepKeepsOrder(s, a);
  }

  /** In every interleaving, at every moment. */
  lemma {:induction false} RunKeepsInvariant(run: seq<State>, steps: seq<Step>, i: nat)
    requires IsRun(run, steps) && Init(run[0]) && i < |run|
    ensures Invariant(run[i])
  {
    if i == 0 {
      InitHolds(run[0]);
    } else {
      RunKeepsInvariant(run, steps, i - 1);
      StepKeepsInvariant(run[i - 1], steps[i - 1]);
    }
  }

  /** Once stopped, the counters add up exactly when since the drain ended no event was accepted and none is pending. */
  lemma StoppedIsSettled(run: seq<State>, steps: seq<Step>, i: nat)
    requires IsRun(run, steps) && Init(run[0]) && i < |run| && run[i].phase == Idle
    ensures var s := run[i];
      && Batched(s) == [] && InFlush(s) == []
      && (s.queue == [] <==> s.late == [])
      && (s.total == s.flushed + s.fallback + s.dropped <==> s.late == [] && s.pending == multiset{})
  {
    RunKeepsInvariant(run, steps, i);
  }

  // ----- The same steps as the manager's methods take them -----

  /** `t` is reached from `s` by steps. */
  ghost predicate Reaches(s: State, t: State)
  {
    exists run, steps :: IsRun(run, steps) && run[0] == s && run[|run| - 1] == t
  }

  lemma ReachesItself(s: State)
    ensures Reaches(s, s)
  {
    assert IsRun([s], []);
  }

  lemma ReachesOn(s: State, t: State, a: Step)
    requires Reaches(s, t) && Enabled(t, a)
    ensures Reaches(s, Apply(t, a))
  {
    var run, steps :| IsRun(run, steps) && run[0] == s && run[|run| - 1] == t;
    var run', steps' := run + [Apply(t, a)], steps + [a];
    forall i | 0 <= i < |steps'| ensures Enabled(run'[i], steps'[i]) && run'[i + 1] == Apply(run'[i], steps'[i]) {
      if i < |steps| {
        assert run'[i] == run[i] && run'[i + 1] == run[i + 1];
      }
    }
    assert IsRun(run', steps');
  }

  /** Started and stopped at once, the manager has nothing left to do. */
  lemma StartAndStop(s: State) returns (t: State)
    requires Init(s)
    ensures Reaches(s, t) && t == s
  {
    ReachesItself(s);
    t := s;
    ReachesOn(s, t, Start);
    t := Apply(t, Start);
    ReachesOn(s, t, CloseStop);
    t := Apply(t, CloseStop);
    ReachesOn(s, t, SeeStop);
    t := Apply(t, SeeStop);
    ReachesOn(s, t, BeginDrain);
    t := Apply(t, BeginDrain);
    ReachesOn(s, t, EndDrain);
    t := Apply(t, EndDrain);
  }

  /** An event logged after the stop: queued, it is never counted again; refused by a full queue, it is settled. */
  lemma LateEvent(s: State, e: Event) returns (t: State)
    requires Init(s)
    ensures Reaches(s, t) && t.phase == Idle && t.total == 1
    ensures t.flushed + t.fallback + t.dropped == if s.capacity > 0 then 0 else 1
  {
    t := StartAndStop(s);
    ReachesOn(s, t, Count(e));
    t := Apply(t, Count(e));
    ReachesOn(s, t, Offer(e));
    t := Apply(t, Offer(e));
  }

  lemma Regrouped(a: seq<Event>, b: seq<Event>, c: seq<Event>)
    ensures a + b + c == a + (b + c)
  {
  }

  lemma TwoSteps(from: State, s: State, a: Step, b: Step)
    requires Reaches(from, s) && Invariant(s) && Enabled(s, a) && Enabled(Apply(s, a), b)
    ensures Reaches(from, Apply(Apply(s, a), b)) && Invariant(Apply(Apply(s, a), b))
  {
    ReachesOn(from, s, a);
    ReachesOn(from, Apply(s, a), b);
    StepKeepsInvariant(s, a);
    StepKeepsInvariant(Apply(s, a), b);
  }

  lemma ReceiveRuns(s: State, o: Outcome)
    requires Invariant(s) && Enabled(s, Receive)
    ensures var t := Apply(s, Receive);
      if t.worker.Flushing? then Reaches(s, Apply(t, WorkerFlushed(o))) && Invariant(Apply(t, WorkerFlushed(o)))
      else Reaches(s, t) && Invariant(t)
  {
    ReachesItself(s);
    ReachesOn(s, s, Receive);
    StepKeepsInvariant(s, Receive);
    var t := Apply(s, Receive);
    if t.worker.Flushing? {
      ReachesOn(s, t, WorkerFlushed(o));
      StepKeepsInvariant(t, WorkerFlushed(o));
    }
  }

  class Manager {
    const capacity: nat
    var eventQueue: seq<Event>
    var batchSize: nat
    var totalEvents: nat
    var flushedEvents: nat
    var fallbackEvents: nat
    var droppedEvents: nat
    /** The local slice of the goroutine that is batching, worker or drain. */
    var batch: seq<Event>
    ghost var pending: multiset<Event>
    ghost var draining: bool
    ghost var stopping: bool
    ghost var accepted: seq<Event>
    ghost var handed: seq<Event>
    ghost var refused: nat

    /** The state the manager is in between two iterations of the worker, or of the drain. */
    ghost function View(): State
      reads this
    {
      State(capacity, batchSize, eventQueue, pending,
            if draining then Absent else Waiting(batch),
            if draining then Draining(batch) else if stopping then Stopping else Running,
            totalEvents, flushedEvents, fallbackEvents, droppedEvents, accepted, handed, [], refused)
    }

    /** The atomic increment at the start of Log. */
    method CountEvent(e: Event)
      modifies this`totalEvents, this`pending
      ensures View() == Apply(old(View()), Count(e))
    {
      totalEvents := totalEvents + 1;
      pending := pending + multiset{e};
    }

    /** The select that offers the event without waiting. */
    method OfferEvent(e: Event) returns (ok: bool)
      requires e in pending
      modifies this`eventQueue, this`pending, this`accepted, this`droppedEvents, this`refused
      ensures View() == Apply(old(View()), Offer(e))
      ensures ok <==> |old(eventQueue)| < capacity
    {
      ghost var s := View();
      pending := pending - multiset{e};
      if |eventQueue| < capacity {
        eventQueue := eventQueue + [e];
        accepted := accepted + [e];
        ok := true;
        assert View() == s.(pending := pending, queue := eventQueue, accepted := accepted);
      } else {
        droppedEvents := droppedEvents + 1;
        refused := refused + 1;
        ok := false;
        assert View() == s.(pending := pending, dropped := droppedEvents, refused := refused);
      }
    }

    /** A call of Log that is not interrupted. */
    method Log(e: Event) returns (ok: bool)
      requires Invariant(View())
      modifies this`totalEvents, this`eventQueue, this`pending, this`accepted, this`droppedEvents, this`refused
      ensures Reaches(old(View()), View()) && Invariant(View())
      ensures ok <==> |old(eventQueue)| < capacity
      ensures eventQueue == if ok then old(eventQueue) + [e] else old(eventQueue)
      ensures totalEvents == old(totalEvents) + 1 && droppedEvents == old(droppedEvents) + if ok then 0 else 1
    {
      ReachesItself(View());
      TwoSteps(View(), View(), Count(e), Offer(e));
      CountEvent(e);
      ok := OfferEvent(e);
    }

    /** `flushBatch`: the whole batch is counted once, by what became of it. */
    method FlushBatch(handing: seq<Event>, o: Outcome)
      modifies this`flushedEvents, this`fallbackEvents, this`droppedEvents, this`handed
      ensures flushedEvents == old(flushedEvents) + if o == Stored then |handing| else 0
      ensures fallbackEvents == old(fallbackEvents) + if o == FellBack then |handing| else 0
      ensures droppedEvents == old(droppedEvents) + if o == Lost then |handing| else 0
      ensures handed == old(handed) + handing
    {
      handed := handed + handing;
      if handing == [] {
        return;
      }
      if o == Stored {
        flushedEvents := flushedEvents + |handing|;
      } else if o == FellBack {
        fallbackEvents := fallbackEvents + |handing|;
      } else {
        droppedEvents := droppedEvents + |handing|;
      }
    }

    /** The worker receives an event, and flushes when the batch is full. */
    method Receive(o: Outcome)
      requires Invariant(View()) && !draining && eventQueue != []
      modifies this`eventQueue, this`batch, this`flushedEvents, this`fallbackEvents, this`droppedEvents, this`handed
      ensures Reaches(old(View()), View()) && Invariant(View())
      ensures eventQueue == old(eventQueue)[1..] && handed + batch == old(handed + batch) + [old(eventQueue)[0]]
      ensures batch == if |old(batch)| + 1 >= batchSize then [] else old(batch) + [old(eventQueue)[0]]
    {
      ReceiveRuns(View(), o);
      var full := Append();
      if full {
        FlushOwn(o);
      }
    }

    method Append() returns (full: bool)
      requires !draining && eventQueue != []
      modifies this`eventQueue, this`batch
      ensures batch == old(batch) + [old(eventQueue)[0]] && eventQueue == old(eventQueue)[1..]
      ensures full <==> |batch| >= batchSize
      ensures if full then Hand(View(), batch, false) == Apply(old(View()), Step.Receive)
              else View() == Apply(old(View()), Step.Receive)
    {
      batch := batch + [eventQueue[0]];
      eventQueue := eventQueue[1..];
      full := |batch| >= batchSize;
    }

    /** The worker flushes the batch it has. */
    method FlushOwn(o: Outcome)
      requires !draining && batch != []
      modifies this`batch, this`flushedEvents, this`fallbackEvents, this`droppedEvents, this`handed
      ensures View() == Apply(Hand(old(View()), old(batch), false), WorkerFlushed(o))
      ensures batch == [] && handed == old(handed + batch)
    {
      FlushBatch(batch, o);
      batch := [];
    }

    /** A tick flushes a batch that has begun. */
    method Tick(o: Outcome)
      requires Invariant(View()) && !draining
      modifies this`batch, this`flushedEvents, this`fallbackEvents, this`droppedEvents, this`handed
      ensures Reaches(old(View()), View()) && Invariant(View())
      ensures batch == [] && handed == old(handed + batch)
    {
      ReachesItself(View());
      if batch != [] {
        TwoSteps(View(), View(), Step.Tick, WorkerFlushed(o));
        FlushOwn(o);
      }
    }

    function Settled(): nat
      reads this
    {
      flushedEvents + fallbackEvents + droppedEvents
    }

    /** `flushRemaining`: after the worker has left, batch after batch until the queue is empty. */
    method FlushRemaining(outcome: nat -> Outcome)
      requires Invariant(View()) && draining && batch == []
      modifies this`eventQueue, this`batch, this`flushedEvents, this`fallbackEvents, this`droppedEvents, this`handed
      ensures Reaches(old(View()), View()) && Invariant(View())
      ensures eventQueue == [] && batch == [] && handed == old(handed) + old(eventQueue)
      ensures Settled() == old(Settled()) + |old(eventQueue)|
    {
      ReachesItself(View());
      var flushes := 0;
      while eventQueue != []
        invariant batch == [] && Invariant(View()) && Reaches(old(View()), View())
        invariant handed + eventQueue == old(handed) + old(eventQueue)
        invariant Settled() + |eventQueue| == old(Settled()) + |old(eventQueue)|
        decreases |eventQueue|
      {
        DrainBatch(old(View()), outcome(flushes));
        flushes := flushes + 1;
      }
    }

    /** One round of the drain: take a batch, then flush it. */
    method DrainBatch(ghost from: State, o: Outcome)
      requires Invariant(View()) && draining && batch == [] && eventQueue != [] && Reaches(from, View())
      modifies this`eventQueue, this`batch, this`flushedEvents, this`fallbackEvents, this`droppedEvents, this`handed
      ensures Reaches(from, View()) && Invariant(View()) && batch == []
      ensures handed + eventQueue == old(handed) + old(eventQueue) && |eventQueue| < |old(eventQueue)|
      ensures Settled() + |eventQueue| == old(Settled()) + |old(eventQueue)|
    {
      TakeBatch(from);
      ghost var taken := batch;
      TwoSteps(from, View(), DrainFlush, DrainFlushed(o));
      FlushTaken(o);
      Regrouped(old(handed), taken, eventQueue);
    }

    /** A first event, then up to batchSize - 1 more. */
    method TakeBatch(ghost from: State)
      requires Invariant(View()) && draining && batch == [] && eventQueue != [] && Reaches(from, View())
      modifies this`eventQueue, this`batch
      ensures Reaches(from, View()) && Invariant(View()) && batch != []
      ensures batch + eventQueue == old(eventQueue) && (eventQueue == [] || |batch| >= batchSize)
    {
      TakeOne(from);
      var i := 0;
      while i < batchSize - 1 && eventQueue != []
        invariant |batch| == i + 1 <= batchSize && Invariant(View()) && Reaches(from, View())
        invariant batch + eventQueue == old(eventQueue)
      {
        TakeOne(from);
        i := i + 1;
      }
    }

    /** The flush at the end of a round. */
    method FlushTaken(o: Outcome)
      requires draining && batch != [] && (eventQueue == [] || |batch| >= batchSize)
      modifies this`batch, this`flushedEvents, this`fallbackEvents, this`droppedEvents, this`handed
      ensures View() == Apply(Apply(old(View()), DrainFlush), DrainFlushed(o))
      ensures batch == [] && handed == old(handed) + old(batch) && Settled() == old(Settled()) + |old(batch)|
    {
      FlushBatch(batch, o);
      batch := [];
    }

    /** One receive of the drain. */
    method TakeOne(ghost from: State)
      requires Invariant(View()) && draining && eventQueue != [] && (batch == [] || |batch| < batchSize)
      requires Reaches(from, View())
      modifies this`eventQueue, this`batch
      ensures Invariant(View()) && Reaches(from, View()) && draining
      ensures batch == old(batch) + [old(eventQueue)[0]] && eventQueue == old(eventQueue)[1..]
    {
      ReachesOn(from, View(), DrainTake);
      StepKeepsInvariant(View(), DrainTake);
      batch := batch + [eventQueue[0]];
      eventQueue := eventQueue[1..];
    }
  }
}
