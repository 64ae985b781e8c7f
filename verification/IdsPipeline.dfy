/** The multi-worker event pipeline of the intrusion detection engine, as the interleaved
    atomic steps of producers, workers, and the threads that start and stop the engine. */
module IdsPipeline {
  import opened Options

  /** An event is numbered by the engine or made by the caller, who can also hand over a
      numbered one again. */
  datatype Event = Numbered(id: nat) | Given(key: nat)

  datatype Config = Config(maxQueueSize: int, workerCount: nat, batchSize: int)

  /** Where a worker is in its loop: about to test the stop flag, blocked on the queue, at one
      index of its batch, or gone. The batch of the last flush is processed after the loop. */
  datatype Pc = Checking | Waiting | Processing(next: nat, last: bool) | Exited

  datatype Worker = Worker(pc: Pc, batch: seq<Event>)

  datatype Mark = Mark(event: Event, worker: nat)

  /** calls, taken and processed are histories: the ingest calls begun, the events taken from
      the queue and the events processed, the last two with the worker that did it. drawn holds
      the events between their numbering and their put, refused counts the puts that found the
      queue full and did not reach the drop counter yet. */
  datatype State = State(
    calls: seq<Event>, counter: nat, drawn: multiset<Event>, refused: nat, dropped: nat,
    accepted: seq<Event>, queue: seq<Option<Event>>, taken: seq<Mark>, processed: seq<Mark>,
    workers: seq<Worker>, stopFlag: bool, registered: nat, toSpawn: nat, toPut: nat)

  const INITIAL := State([], 0, multiset{}, 0, 0, [], [], [], [], [], false, 0, 0, 0)

  datatype Step =
    | DrawNumber | HandOver(event: Event) | Put(event: Event) | CountDrop
    | Start | Spawn | StopSet | StopPut | StopClear
    | Check(w: nat) | TimeOut(w: nat) | Take(w: nat) | ProcessOne(w: nat) | Finish(w: nat)

  // ---------------------------------------------------------------- steps

  predicate Full(c: Config, queue: seq<Option<Event>>) {
    0 < c.maxQueueSize <= |queue|
  }

  /** Leaving the loop: what is in the batch is still processed. */
  function Flush(worker: Worker): Worker {
    worker.(pc := if worker.batch == [] then Exited else Processing(0, true))
  }

  function Appended(c: Config, worker: Worker, e: Event): Worker {
    var batch := worker.batch + [e];
    Worker(if |batch| >= c.batchSize then Processing(0, false) else Checking, batch)
  }

  predicate At(s: State, w: nat, pc: Pc) {
    w < |s.workers| && s.workers[w].pc == pc
  }

  predicate InBatch(s: State, w: nat) {
    w < |s.workers| && s.workers[w].pc.Processing?
  }

  function Set(s: State, w: nat, worker: Worker): State
    requires w < |s.workers|
  {
    s.(workers := s.workers[w := worker])
  }

  function PutEvent(c: Config, s: State, e: Event): State {
    var s' := s.(drawn := s.drawn - multiset{e});
    if Full(c, s.queue) then s'.(refused := s.refused + 1)
    else s'.(accepted := s.accepted + [e], queue := s.queue + [Some(e)])
  }

  function TakeNext(c: Config, s: State, w: nat): State
    requires w < |s.workers| && s.queue != []
  {
    var s' := s.(queue := s.queue[1..]);
    match s.queue[0]
    case None => Set(s', w, Flush(s.workers[w]))
    case Some(e) => Set(s'.(taken := s.taken + [Mark(e, w)]), w, Appended(c, s.workers[w], e))
  }

  function ProcessNext(s: State, w: nat): State
    requires InBatch(s, w)
  {
    var worker := s.workers[w];
    if worker.pc.next >= |worker.batch| then s
    else
      Set(s.(processed := s.processed + [Mark(worker.batch[worker.pc.next], w)]), w,
          worker.(pc := Processing(worker.pc.next + 1, worker.pc.last)))
  }

  function FinishBatch(s: State, w: nat): State
    requires InBatch(s, w)
  {
    var worker := s.workers[w];
    if worker.pc.next < |worker.batch| then s
    else if worker.pc.last then Set(s, w, worker.(pc := Exited))
    else Set(s, w, Worker(Checking, []))
  }

  /** One step; a step that is not enabled changes nothing. */
  function Next(c: Config, s: State, step: Step): State {
    match step
    case DrawNumber =>
      var e := Numbered(s.counter + 1);
      s.(counter := s.counter + 1, calls := s.calls + [e], drawn := s.drawn + multiset{e})
    case HandOver(e) => s.(calls := s.calls + [e], drawn := s.drawn + multiset{e})
    case Put(e) => if e in s.drawn then PutEvent(c, s, e) else s
    case CountDrop => if s.refused > 0 then s.(refused := s.refused - 1, dropped := s.dropped + 1) else s
    case Start => if s.registered > 0 then s else s.(stopFlag := false, toSpawn := s.toSpawn + c.workerCount)
    case Spawn =>
      if s.toSpawn == 0 then s
      else s.(toSpawn := s.toSpawn - 1, registered := s.registered + 1, workers := s.workers + [Worker(Checking, [])])
    case StopSet => s.(stopFlag := true, toPut := s.toPut + s.registered)
    case StopPut =>
      if s.toPut == 0 then s
      else if Full(c, s.queue) then s.(toPut := s.toPut - 1)
      else s.(toPut := s.toPut - 1, queue := s.queue + [None])
    case StopClear => if s.toPut == 0 then s.(registered := 0) else s
    case Check(w) =>
      if !At(s, w, Checking) then s
      else if s.stopFlag then Set(s, w, Flush(s.workers[w]))
      else Set(s, w, s.workers[w].(pc := Waiting))
    case TimeOut(w) => if At(s, w, Waiting) && s.queue == [] then Set(s, w, s.workers[w].(pc := Checking)) else s
    case Take(w) => if At(s, w, Waiting) && s.queue != [] then TakeNext(c, s, w) else s
    case ProcessOne(w) => if InBatch(s, w) then ProcessNext(s, w) else s
    case Finish(w) => if InBatch(s, w) then FinishBatch(s, w) else s
  }

  function Run(c: Config, steps: seq<Step>): State {
    if steps == [] then INITIAL else Next(c, Run(c, steps[..|steps| - 1]), steps[|steps| - 1])
  }

  // ---------------------------------------------------------------- what is where

  function EventsOf(marks: seq<Mark>): seq<Event> {
    seq(|marks|, i requires 0 <= i < |marks| => marks[i].event)
  }

  /** The events of one worker, in order. */
  function By(marks: seq<Mark>, w: nat): seq<Event> {
    if marks == [] then []
    else
      var m := marks[|marks| - 1];
      By(marks[..|marks| - 1], w) + if m.worker == w then [m.event] else []
  }

  /** The events in the queue, without the stop sentinels. */
  function EventsIn(queue: seq<Option<Event>>): seq<Event> {
    if queue == [] then []
    else (if queue[0].Some? then [queue[0].value] else []) + EventsIn(queue[1..])
  }

  /** What a worker took and did not process yet. */
  function Pending(worker: Worker): seq<Event> {
    match worker.pc
    case Processing(next, _) => if next <= |worker.batch| then worker.batch[next..] else []
    case Exited => []
    case _ => worker.batch
  }

  function Held(workers: seq<Worker>): multiset<Event> {
    if workers == [] then multiset{}
    else Held(workers[..|workers| - 1]) + multiset(Pending(workers[|workers| - 1]))
  }

  lemma EventsOfAppend(marks: seq<Mark>, m: Mark)
    ensures EventsOf(marks + [m]) == EventsOf(marks) + [m.event]
  {
  }

  lemma ByAppend(marks: seq<Mark>, m: Mark, w: nat)
    ensures By(marks + [m], w) == By(marks, w) + if m.worker == w then [m.event] else []
  {
  }

  lemma {:induction false} EventsInAppend(queue: seq<Option<Event>>, x: Option<Event>)
    ensures EventsIn(queue + [x]) == EventsIn(queue) + if x.Some? then [x.value] else []
  {
    if queue == [] {
      assert queue + [x] == [x];
    } else {
      EventsInAppend(queue[1..], x);
      assert (queue + [x])[1..] == queue[1..] + [x];
      assert EventsIn(queue + [x]) == (if queue[0].Some? then [queue[0].value] else []) + EventsIn(queue[1..] + [x]);
    }
  }

  lemma Shifted(a: multiset<Event>, b: multiset<Event>, c: multiset<Event>, d: multiset<Event>, rest: multiset<Event>)
    requires a + b == c + d
    ensures (a + rest) + b == (c + rest) + d
  {
    assert (a + rest) + b == (a + b) + rest;
    assert (c + rest) + d == (c + d) + rest;
  }

  lemma Grown(taken: multiset<Event>, processed: multiset<Event>, held: multiset<Event>, held': multiset<Event>,
              pending: multiset<Event>, e: Event)
    requires taken == processed + held && held' + pending == held + (pending + multiset{e})
    ensures taken + multiset{e} == processed + held'
  {
    assert held' == held + multiset{e} by {
      forall x ensures held'[x] == (held + multiset{e})[x] {
        assert (held' + pending)[x] == (held + (pending + multiset{e}))[x];
      }
    }
  }

  lemma Shrunk(taken: multiset<Event>, processed: multiset<Event>, held: multiset<Event>, held': multiset<Event>,
               pending: multiset<Event>, e: Event)
    requires taken == processed + held && held' + (multiset{e} + pending) == held + pending
    ensures taken == (processed + multiset{e}) + held'
  {
    assert held' + multiset{e} == held by {
      forall x ensures (held' + multiset{e})[x] == held[x] {
        assert (held' + (multiset{e} + pending))[x] == (held + pending)[x];
      }
    }
  }

  lemma {:induction false} HeldUpdate(workers: seq<Worker>, w: nat, worker: Worker)
    requires w < |workers|
    ensures Held(workers[w := worker]) + multiset(Pending(workers[w])) == Held(workers) + multiset(Pending(worker))
  {
    hide Pending;
    var n := |workers| - 1;
    var after := workers[w := worker];
    if w == n {
      assert after[..n] == workers[..n];
    } else {
      assert after[..n] == workers[..n][w := worker];
      HeldUpdate(workers[..n], w, worker);
      assert workers[..n][w] == workers[w];
      assert Held(after) == Held(after[..n]) + multiset(Pending(workers[n]));
      Shifted(Held(after[..n]), multiset(Pending(workers[w])), Held(workers[..n]), multiset(Pending(worker)),
              multiset(Pending(workers[n])));
    }
  }

  lemma {:induction false} HeldAgrees(before: seq<Worker>, after: seq<Worker>)
    requires |before| == |after|
    requires forall w | 0 <= w < |before| :: Pending(before[w]) == Pending(after[w])
    ensures Held(before) == Held(after)
  {
    hide Pending;
    if before != [] {
      HeldAgrees(before[..|before| - 1], after[..|after| - 1]);
    }
  }

  // ---------------------------------------------------------------- invariants

  /** The queue is first in, first out: what was taken, then what is queued, is what arrived. */
  ghost predicate Fifo(s: State) {
    s.accepted == EventsOf(s.taken) + EventsIn(s.queue)
  }

  /** Each worker processes exactly what it took, in that order. */
  ghost predicate InOrder(s: State) {
    && (forall w | 0 <= w < |s.workers| :: By(s.processed, w) + Pending(s.workers[w]) == By(s.taken, w))
    && (forall m | m in s.taken || m in s.processed :: m.worker < |s.workers|)
  }

  ghost predicate Conserved(s: State) {
    multiset(EventsOf(s.taken)) == multiset(EventsOf(s.processed)) + Held(s.workers)
  }

  ghost predicate Counted(s: State) {
    && |s.calls| == |s.accepted| + s.dropped + s.refused + |s.drawn|
    && multiset(s.accepted) + s.drawn <= multiset(s.calls)
  }

  /** A worker between batches holds fewer events than the batch size, or none. */
  ghost predicate Sized(c: Config, worker: Worker) {
    match worker.pc
    case Processing(next, last) => next <= |worker.batch| && |worker.batch| <= if c.batchSize > 1 then c.batchSize else 1
    case Exited => true
    case _ => worker.batch == [] || |worker.batch| < c.batchSize
  }

  ghost predicate Bounded(c: Config, s: State) {
    forall w | 0 <= w < |s.workers| :: Sized(c, s.workers[w])
  }

  lemma BoundedStep(c: Config, s: State, step: Step)
    requires Bounded(c, s)
    ensures Bounded(c, Next(c, s, step))
  {
    if ByWorker(step) {
      WorkerStaysSized(c, s, step);
      hide Next, Sized;
    } else {
      OthersMoveNobody(c, s, step);
      hide Next;
    }
  }

  /** A worker's step changes that worker alone, and keeps it within its batch size. */
  lemma WorkerStaysSized(c: Config, s: State, step: Step)
    requires Bounded(c, s) && ByWorker(step)
    ensures var s', w := Next(c, s, step), step.w;
            s'.workers == s.workers
            || (w < |s.workers| && s'.workers == s.workers[w := s'.workers[w]] && Sized(c, s'.workers[w]))
  {
    var s', w := Next(c, s, step), step.w;
    if w < |s.workers| {
      assert Sized(c, s.workers[w]);
      assert s'.workers == s.workers[w := s'.workers[w]];
      hide Bounded;
    }
  }

  lemma OthersMoveNobody(c: Config, s: State, step: Step)
    requires !ByWorker(step)
    ensures var s' := Next(c, s, step); s'.workers == s.workers || s'.workers == s.workers + [Worker(Checking, [])]
  {
  }

  lemma FifoStep(c: Config, s: State, step: Step)
    requires Fifo(s)
    ensures Fifo(Next(c, s, step))
  {
    match step
    case Put(e) => PutFifo(c, s, e); hide Fifo, Next;
    case StopPut => StopPutFifo(c, s); hide Fifo, Next;
    case Take(w) => if At(s, w, Waiting) && s.queue != [] { TakeFifo(c, s, w); hide Fifo, TakeNext; }
    case _ => OthersQueueNothing(c, s, step); hide Next, EventsOf, EventsIn;
  }

  lemma OthersQueueNothing(c: Config, s: State, step: Step)
    requires !step.Put? && !step.StopPut? && !step.Take?
    ensures var s' := Next(c, s, step); s'.accepted == s.accepted && s'.queue == s.queue && s'.taken == s.taken
  {
  }

  lemma PutFifo(c: Config, s: State, e: Event)
    requires Fifo(s)
    ensures Fifo(Next(c, s, Put(e)))
  {
    EventsInAppend(s.queue, Some(e));
    hide EventsIn, EventsOf;
  }

  lemma StopPutFifo(c: Config, s: State)
    requires Fifo(s)
    ensures Fifo(Next(c, s, StopPut))
  {
    EventsInAppend(s.queue, None);
    hide EventsIn, EventsOf;
  }

  lemma TakeFifo(c: Config, s: State, w: nat)
    requires Fifo(s) && w < |s.workers| && s.queue != []
    ensures Fifo(TakeNext(c, s, w))
  {
  }

  // Only taking and processing move events between the queue, the batches and the result.

  ghost predicate Still(s: State, s': State) {
    && s'.taken == s.taken && s'.processed == s.processed && |s'.workers| == |s.workers|
    && forall w | 0 <= w < |s.workers| :: Pending(s'.workers[w]) == Pending(s.workers[w])
  }

  ghost predicate Gains(s: State, s': State, w: nat, e: Event) {
    && w < |s.workers| && |s'.workers| == |s.workers|
    && s'.taken == s.taken + [Mark(e, w)] && s'.processed == s.processed
    && s'.workers == s.workers[w := s'.workers[w]]
    && Pending(s'.workers[w]) == Pending(s.workers[w]) + [e]
  }

  ghost predicate Yields(s: State, s': State, w: nat, e: Event) {
    && w < |s.workers| && |s'.workers| == |s.workers|
    && s'.taken == s.taken && s'.processed == s.processed + [Mark(e, w)]
    && s'.workers == s.workers[w := s'.workers[w]]
    && Pending(s.workers[w]) == [e] + Pending(s'.workers[w])
  }

  lemma StepMoves(c: Config, s: State, step: Step)
    requires Bounded(c, s)
    ensures var s' := Next(c, s, step);
            || Still(s, s')
            || (step.Spawn? && s' == s.(toSpawn := s'.toSpawn, registered := s'.registered,
                                        workers := s.workers + [Worker(Checking, [])]))
            || (step.Take? && At(s, step.w, Waiting) && s.queue != [] && s.queue[0].Some?
                && Gains(s, s', step.w, s.queue[0].value))
            || (step.ProcessOne? && InBatch(s, step.w) && s.workers[step.w].pc.next < |s.workers[step.w].batch|
                && Yields(s, s', step.w, s.workers[step.w].batch[s.workers[step.w].pc.next]))
  {
    match step
    case Take(w) => TakeMoves(c, s, w); hide Next;
    case ProcessOne(w) => ProcessMoves(c, s, w); hide Next;
    case Check(w) => CheckMoves(c, s, w); hide Next;
    case TimeOut(w) => hide EventsOf;
    case Finish(w) => FinishMoves(c, s, w); hide Next;
    case Spawn => hide Pending;
    case _ => OthersMoveNothing(c, s, step); hide Next, Pending;
  }

  predicate ByWorker(step: Step) {
    step.Check? || step.TimeOut? || step.Take? || step.ProcessOne? || step.Finish?
  }

  lemma OthersMoveNothing(c: Config, s: State, step: Step)
    requires !ByWorker(step) && !step.Spawn?
    ensures var s' := Next(c, s, step);
            s'.workers == s.workers && s'.taken == s.taken && s'.processed == s.processed
  {
  }

  lemma CheckMoves(c: Config, s: State, w: nat)
    ensures Still(s, Next(c, s, Check(w)))
  {
  }

  lemma FinishMoves(c: Config, s: State, w: nat)
    requires Bounded(c, s)
    ensures Still(s, Next(c, s, Finish(w)))
  {
  }

  lemma TakeMoves(c: Config, s: State, w: nat)
    ensures var s' := Next(c, s, Take(w));
            || Still(s, s')
            || (At(s, w, Waiting) && s.queue != [] && s.queue[0].Some? && Gains(s, s', w, s.queue[0].value))
  {
  }

  lemma ProcessMoves(c: Config, s: State, w: nat)
    requires Bounded(c, s)
    ensures var s' := Next(c, s, ProcessOne(w));
            || Still(s, s')
            || (InBatch(s, w) && s.workers[w].pc.next < |s.workers[w].batch|
                && Yields(s, s', w, s.workers[w].batch[s.workers[w].pc.next]))
  {
  }

  lemma InOrderStep(c: Config, s: State, step: Step)
    requires InOrder(s) && Bounded(c, s)
    ensures InOrder(Next(c, s, step))
  {
    hide Next, Bounded, Pending;
    StepMoves(c, s, step);
    var s' := Next(c, s, step);
    if !Still(s, s') {
      match step {
        case Spawn => SpawnInOrder(s, s');
        case Take(w) => GainsInOrder(s, s', w, s.queue[0].value);
        case ProcessOne(w) => YieldsInOrder(s, s', w, s.workers[w].batch[s.workers[w].pc.next]);
        case _ =>
      }
    }
  }

  lemma SpawnInOrder(s: State, s': State)
    requires InOrder(s) && s'.taken == s.taken && s'.processed == s.processed
    requires s'.workers == s.workers + [Worker(Checking, [])]
    ensures InOrder(s')
  {
    NobodyYet(s.taken, |s.workers|);
    NobodyYet(s.processed, |s.workers|);
    hide By;
  }

  lemma GainsInOrder(s: State, s': State, w: nat, e: Event)
    requires InOrder(s) && Gains(s, s', w, e)
    ensures InOrder(s')
  {
    hide Pending;
    forall v: nat | v < |s.workers|
      ensures By(s'.processed, v) + Pending(s'.workers[v]) == By(s'.taken, v)
    {
      ByAppend(s.taken, Mark(e, w), v);
      hide By;
      assert By(s.processed, v) + Pending(s.workers[v]) == By(s.taken, v);
    }
  }

  lemma YieldsAt(s: State, s': State, w: nat, e: Event, v: nat)
    requires InOrder(s) && Yields(s, s', w, e) && v < |s.workers|
    ensures By(s'.processed, v) + Pending(s'.workers[v]) == By(s'.taken, v)
  {
    hide Pending, By;
    ByAppend(s.processed, Mark(e, w), v);
    assert By(s.processed, v) + Pending(s.workers[v]) == By(s.taken, v);
    if v == w { assert By(s.processed, v) + ([e] + Pending(s'.workers[v])) == By(s.processed, v) + [e] + Pending(s'.workers[v]); }
  }

  lemma YieldsInOrder(s: State, s': State, w: nat, e: Event)
    requires InOrder(s) && Yields(s, s', w, e)
    ensures InOrder(s')
  {
    hide Pending, By;
    forall v: nat | v < |s.workers|
      ensures By(s'.processed, v) + Pending(s'.workers[v]) == By(s'.taken, v)
    {
      YieldsAt(s, s', w, e, v);
    }
  }

  lemma {:induction false} NobodyYet(marks: seq<Mark>, w: nat)
    requires forall m | m in marks :: m.worker < w
    ensures By(marks, w) == []
  {
    if marks != [] {
      assert marks[|marks| - 1] in marks;
      NobodyYet(marks[..|marks| - 1], w);
    }
  }

  lemma ConservedStep(c: Config, s: State, step: Step)
    requires Conserved(s) && Bounded(c, s)
    ensures Conserved(Next(c, s, step))
  {
    hide Next, Bounded, Pending, EventsOf;
    StepMoves(c, s, step);
    var s' := Next(c, s, step);
    if Still(s, s') {
      HeldAgrees(s.workers, s'.workers);
    } else {
      match step {
        case Spawn => SpawnHolds(s.workers);
        case Take(w) => GainsConserve(s, s', w, s.queue[0].value);
        case ProcessOne(w) => YieldsConserve(s, s', w, s.workers[w].batch[s.workers[w].pc.next]);
        case _ =>
      }
    }
  }

  lemma GainsConserve(s: State, s': State, w: nat, e: Event)
    requires Conserved(s) && Gains(s, s', w, e)
    ensures Conserved(s')
  {
    HeldUpdate(s.workers, w, s'.workers[w]);
    EventsOfAppend(s.taken, Mark(e, w));
    hide Pending, EventsOf, Held;
    Grown(multiset(EventsOf(s.taken)), multiset(EventsOf(s.processed)), Held(s.workers), Held(s'.workers),
          multiset(Pending(s.workers[w])), e);
  }

  lemma YieldsConserve(s: State, s': State, w: nat, e: Event)
    requires Conserved(s) && Yields(s, s', w, e)
    ensures Conserved(s')
  {
    HeldUpdate(s.workers, w, s'.workers[w]);
    EventsOfAppend(s.processed, Mark(e, w));
    hide Pending, EventsOf, Held;
    Shrunk(multiset(EventsOf(s.taken)), multiset(EventsOf(s.processed)), Held(s.workers), Held(s'.workers),
           multiset(Pending(s'.workers[w])), e);
  }

  lemma SpawnHolds(workers: seq<Worker>)
    ensures Held(workers + [Worker(Checking, [])]) == Held(workers)
  {
  }

  lemma CountedStep(c: Config, s: State, step: Step)
    requires Counted(s)
    ensures Counted(Next(c, s, step))
  {
    match step
    case DrawNumber => CallCounted(s, Numbered(s.counter + 1));
    case HandOver(e) => CallCounted(s, e);
    case Put(e) => if e in s.drawn { PutCounted(c, s, e); } hide Counted, PutEvent;
    case CountDrop =>
    case _ => OthersCountNothing(c, s, step); hide Next;
  }

  lemma OthersCountNothing(c: Config, s: State, step: Step)
    requires !step.DrawNumber? && !step.HandOver? && !step.Put? && !step.CountDrop?
    ensures var s' := Next(c, s, step);
            && s'.calls == s.calls && s'.accepted == s.accepted && s'.drawn == s.drawn
            && s'.dropped == s.dropped && s'.refused == s.refused
  {
  }

  lemma CallCounted(s: State, e: Event)
    requires Counted(s)
    ensures Counted(s.(calls := s.calls + [e], drawn := s.drawn + multiset{e}))
  {
  }

  lemma PutCounted(c: Config, s: State, e: Event)
    requires Counted(s) && e in s.drawn
    ensures Counted(PutEvent(c, s, e))
  {
  }

  ghost predicate Invariant(c: Config, s: State) {
    Fifo(s) && InOrder(s) && Conserved(s) && Counted(s) && Bounded(c, s)
  }

  /** The invariant holds after every interleaving. */
  lemma {:induction false} EveryRunConserves(c: Config, steps: seq<Step>)
    ensures Invariant(c, Run(c, steps))
  {
    if steps != [] {
      var s, step := Run(c, steps[..|steps| - 1]), steps[|steps| - 1];
      EveryRunConserves(c, steps[..|steps| - 1]);
      BoundedStep(c, s, step);
      FifoStep(c, s, step);
      InOrderStep(c, s, step);
      ConservedStep(c, s, step);
      CountedStep(c, s, step);
    }
  }

  // ---------------------------------------------------------------- results

  /** Accepted events are processed, in a batch or queued, and nothing else is. */
  lemma NothingIsLost(c: Config, steps: seq<Step>)
    ensures var s := Run(c, steps);
            multiset(s.accepted) == multiset(EventsOf(s.processed)) + Held(s.workers) + multiset(EventsIn(s.queue))
  {
    EveryRunConserves(c, steps);
  }

  /** How often the caller handed over the event. */
  function HandedOver(steps: seq<Step>, e: Event): nat {
    if steps == [] then 0
    else HandedOver(steps[..|steps| - 1], e) + if steps[|steps| - 1] == HandOver(e) then 1 else 0
  }

  /** The event is among those the engine has numbered. */
  function Drawn(s: State, e: Event): nat {
    if e.Numbered? && 1 <= e.id <= s.counter then 1 else 0
  }

  lemma CallsAppend(calls: seq<Event>, x: Event, e: Event)
    ensures multiset(calls + [x])[e] == multiset(calls)[e] + if x == e then 1 else 0
  {
    assert multiset(calls + [x]) == multiset(calls) + multiset{x};
  }

  lemma OthersCallNothing(c: Config, s: State, step: Step)
    requires !step.DrawNumber? && !step.HandOver?
    ensures Next(c, s, step).calls == s.calls && Next(c, s, step).counter == s.counter
  {
  }

  lemma DrawCalls(c: Config, s: State, e: Event)
    ensures var s' := Next(c, s, DrawNumber);
            multiset(s'.calls)[e] + Drawn(s, e) == multiset(s.calls)[e] + Drawn(s', e)
  {
    CallsAppend(s.calls, Numbered(s.counter + 1), e);
  }

  lemma HandOverCalls(c: Config, s: State, x: Event, e: Event)
    ensures var s' := Next(c, s, HandOver(x));
            multiset(s'.calls)[e] == multiset(s.calls)[e] + (if x == e then 1 else 0) && s'.counter == s.counter
  {
    CallsAppend(s.calls, x, e);
  }

  lemma StepCalls(c: Config, s: State, step: Step, e: Event)
    ensures multiset(Next(c, s, step).calls)[e] + Drawn(s, e)
         == multiset(s.calls)[e] + Drawn(Next(c, s, step), e) + if step == HandOver(e) then 1 else 0
  {
    hide Next;
    match step
    case DrawNumber => DrawCalls(c, s, e);
    case HandOver(x) => HandOverCalls(c, s, x, e);
    case _ => OthersCallNothing(c, s, step);
  }

  /** The engine gives out every number once; whatever else arrives, the caller handed over. */
  lemma {:induction false} EveryCallCounts(c: Config, steps: seq<Step>, e: Event)
    ensures multiset(Run(c, steps).calls)[e] == HandedOver(steps, e) + Drawn(Run(c, steps), e)
  {
    if steps != [] {
      EveryCallCounts(c, steps[..|steps| - 1], e);
      StepCalls(c, Run(c, steps[..|steps| - 1]), steps[|steps| - 1], e);
      hide Next, Drawn;
    }
  }

  /** An event is processed no more often than it was numbered or handed over. */
  lemma ProcessedAsSubmitted(c: Config, steps: seq<Step>, e: Event)
    ensures multiset(EventsOf(Run(c, steps).processed))[e] <= HandedOver(steps, e) + Drawn(Run(c, steps), e)
  {
    hide Run, Fifo, InOrder, Conserved, Bounded, EventsOf, HandedOver, Drawn;
    EveryRunConserves(c, steps);
    NothingIsLost(c, steps);
    EveryCallCounts(c, steps, e);
    var s := Run(c, steps);
    assert multiset(EventsOf(s.processed))[e] <= multiset(s.accepted)[e] <= multiset(s.calls)[e];
  }

  lemma TwiceIsTwo(done: seq<Event>, i: nat, j: nat)
    requires i < j < |done| && done[i] == done[j]
    ensures multiset(done)[done[i]] >= 2
  {
    assert done == done[..j] + [done[j]] + done[j + 1..];
    assert done[i] in done[..j];
  }

  /** So an event that the caller did not hand over again is processed at most once. */
  lemma NothingIsProcessedTwice(c: Config, steps: seq<Step>, i: nat, j: nat)
    requires i < j < |Run(c, steps).processed| && HandedOver(steps, Run(c, steps).processed[i].event) == 0
    ensures Run(c, steps).processed[i].event != Run(c, steps).processed[j].event
  {
    hide Run, HandedOver;
    var processed := Run(c, steps).processed;
    ProcessedAsSubmitted(c, steps, processed[i].event);
    var done := EventsOf(processed);
    if done[i] == done[j] { TwiceIsTwo(done, i, j); }
  }

  /** A batch is processed as soon as it is full, and not before: otherwise the worker goes on
      reading. A sentinel or the stop flag makes it process what it has and leave. */
  lemma BatchIsProcessedWhenFull(c: Config, s: State, w: nat)
    requires At(s, w, Waiting) && s.queue != [] && s.queue[0].Some?
    ensures var worker, worker' := s.workers[w], Next(c, s, Take(w)).workers[w];
            && worker'.batch == worker.batch + [s.queue[0].value]
            && (worker'.pc == Processing(0, false) <==> |worker'.batch| >= c.batchSize)
            && (worker'.pc != Processing(0, false) ==> worker'.pc == Checking)
  {
  }

  lemma LeavingWorkerFlushes(c: Config, s: State, w: nat)
    requires w < |s.workers|
    ensures At(s, w, Checking) && s.stopFlag ==> Leaves(s.workers[w], Next(c, s, Check(w)).workers[w])
    ensures At(s, w, Checking) && !s.stopFlag ==> Next(c, s, Check(w)).workers[w] == Worker(Waiting, s.workers[w].batch)
    ensures At(s, w, Waiting) && s.queue != [] && s.queue[0].None? ==>
              Leaves(s.workers[w], Next(c, s, Take(w)).workers[w])
  {
  }

  /** The worker is gone, or about to go after the batch it has. */
  predicate Leaves(worker: Worker, worker': Worker) {
    worker'.batch == worker.batch && worker'.pc == if worker.batch == [] then Exited else Processing(0, true)
  }

  /** The starts that found no worker registered. */
  function Starts(c: Config, steps: seq<Step>): nat {
    if steps == [] then 0
    else
      var n := |steps| - 1;
      Starts(c, steps[..n]) + if steps[n] == Start && Run(c, steps[..n]).registered == 0 then 1 else 0
  }

  lemma OthersSpawnNothing(c: Config, s: State, step: Step)
    requires !step.Start? && !step.Spawn?
    ensures |Next(c, s, step).workers| == |s.workers| && Next(c, s, step).toSpawn == s.toSpawn
  {
  }

  /** Every such start asks for the configured number of workers, and no other step does. */
  lemma {:induction false} WorkersAreCounted(c: Config, steps: seq<Step>)
    ensures var s := Run(c, steps); |s.workers| + s.toSpawn == c.workerCount * Starts(c, steps)
  {
    hide Next;
    if steps != [] {
      var n := |steps| - 1;
      var s := Run(c, steps[..n]);
      WorkersAreCounted(c, steps[..n]);
      StepCountsWorkers(c, s, steps[n]);
      OneMore(c.workerCount, Starts(c, steps[..n]));
    }
  }

  lemma OneMore(k: nat, n: nat)
    ensures k * (n + 1) == k * n + k
  {
  }

  lemma StepCountsWorkers(c: Config, s: State, step: Step)
    ensures var s' := Next(c, s, step);
            |s'.workers| + s'.toSpawn
            == |s.workers| + s.toSpawn + if step == Start && s.registered == 0 then c.workerCount else 0
  {
    if !step.Start? && !step.Spawn? {
      OthersSpawnNothing(c, s, step);
      hide Next;
    }
  }

  lemma QueueGrows(c: Config, s: State, step: Step)
    requires c.maxQueueSize > 0 && |s.queue| <= c.maxQueueSize
    ensures |Next(c, s, step).queue| <= c.maxQueueSize
  {
    match step
    case Put(e) => hide EventsOf;
    case StopPut =>
    case Take(w) => if At(s, w, Waiting) && s.queue != [] { assert TakeNext(c, s, w).queue == s.queue[1..]; } hide TakeNext;
    case _ => OthersQueueNothing(c, s, step); hide Next;
  }

  /** A positive bound is kept by every interleaving, sentinels included. */
  lemma {:induction false} QueueIsBounded(c: Config, steps: seq<Step>)
    requires c.maxQueueSize > 0
    ensures |Run(c, steps).queue| <= c.maxQueueSize
  {
    if steps != [] {
      QueueIsBounded(c, steps[..|steps| - 1]);
      QueueGrows(c, Run(c, steps[..|steps| - 1]), steps[|steps| - 1]);
      hide Next;
    }
  }

  /** A pending put is accepted exactly when there is no bound or the queue is below it;
      otherwise nothing arrives and the refusal is one more to count. */
  lemma PutIsAcceptedExactly(c: Config, s: State, e: Event)
    requires e in s.drawn
    ensures var s' := Next(c, s, Put(e));
            && s'.drawn == s.drawn - multiset{e}
            && (s'.accepted == s.accepted + [e] <==> c.maxQueueSize <= 0 || |s.queue| < c.maxQueueSize)
            && (s'.accepted == s.accepted + [e] ==> s'.queue == s.queue + [Some(e)] && s'.refused == s.refused)
            && (s'.accepted != s.accepted + [e] ==>
                  s'.accepted == s.accepted && s'.queue == s.queue && s'.refused == s.refused + 1)
  {
    assert |s.accepted + [e]| == |s.accepted| + 1;
  }

  /** When the ingest calls have returned, each was accepted or counted as dropped. */
  lemma CallsAreCounted(c: Config, steps: seq<Step>)
    requires var s := Run(c, steps); s.drawn == multiset{} && s.refused == 0
    ensures var s := Run(c, steps); |s.calls| == |s.accepted| + s.dropped
  {
    EveryRunConserves(c, steps);
  }

  /** Once every worker is gone, what was accepted and not processed is exactly the tail of the
      arrivals that is still queued. */
  lemma WorkersLeaveNothingBehind(c: Config, steps: seq<Step>)
    requires AllExited(Run(c, steps).workers)
    ensures var s := Run(c, steps);
            && s.accepted == EventsOf(s.taken) + EventsIn(s.queue)
            && multiset(EventsOf(s.processed)) == multiset(EventsOf(s.taken))
            && (multiset(EventsOf(s.processed)) == multiset(s.accepted) <==> EventsIn(s.queue) == [])
  {
    var s := Run(c, steps);
    EveryRunConserves(c, steps);
    NothingHeld(s.workers);
    assert |multiset(s.accepted)| == |multiset(EventsOf(s.taken))| + |multiset(EventsIn(s.queue))|;
  }

  lemma {:induction false} NothingHeld(workers: seq<Worker>)
    requires AllExited(workers)
    ensures Held(workers) == multiset{}
  {
    if workers != [] {
      NothingHeld(workers[..|workers| - 1]);
    }
  }

  ghost predicate AllExited(workers: seq<Worker>) {
    forall w | 0 <= w < |workers| :: workers[w].pc == Exited
  }

  /** Through all restarts, a worker is spawned only when the ones before it are gone. */
  ghost predicate OneAtATime(c: Config, steps: seq<Step>) {
    forall i | 0 <= i < |steps| && steps[i] == Spawn ::
      Run(c, steps[..i]).toSpawn == 0 || AllExited(Run(c, steps[..i]).workers)
  }

  /** What the youngest worker took and did not process yet. */
  function Current(workers: seq<Worker>): seq<Event> {
    if workers == [] then [] else Pending(workers[|workers| - 1])
  }

  ghost predicate Solo(s: State) {
    && (forall w | 0 <= w < |s.workers| - 1 :: s.workers[w].pc == Exited)
    && EventsOf(s.taken) == EventsOf(s.processed) + Current(s.workers)
  }

  lemma ExitedStays(c: Config, s: State, step: Step, w: nat)
    requires w < |s.workers| && s.workers[w].pc == Exited
    ensures w < |Next(c, s, step).workers| && Next(c, s, step).workers[w].pc == Exited
  {
  }

  lemma SoloStill(s: State, s': State)
    requires Solo(s) && Still(s, s')
    requires forall w | 0 <= w < |s.workers| && s.workers[w].pc == Exited :: s'.workers[w].pc == Exited
    ensures Solo(s')
  {
    hide EventsOf, Pending;
  }

  lemma SoloSpawns(s: State, s': State)
    requires Solo(s) && AllExited(s.workers) && s'.taken == s.taken && s'.processed == s.processed
    requires s'.workers == s.workers + [Worker(Checking, [])]
    ensures Solo(s')
  {
    hide EventsOf;
  }

  lemma SoloGains(s: State, s': State, w: nat, e: Event)
    requires Solo(s) && Gains(s, s', w, e) && s.workers[w].pc != Exited
    ensures Solo(s')
  {
    EventsOfAppend(s.taken, Mark(e, w));
    hide EventsOf, Pending;
  }

  lemma SoloYields(s: State, s': State, w: nat, e: Event)
    requires Solo(s) && Yields(s, s', w, e) && s.workers[w].pc != Exited
    ensures Solo(s')
  {
    EventsOfAppend(s.processed, Mark(e, w));
    hide EventsOf, Pending;
  }

  lemma SoloStep(c: Config, s: State, step: Step)
    requires Solo(s) && Bounded(c, s)
    requires step == Spawn ==> s.toSpawn == 0 || AllExited(s.workers)
    ensures Solo(Next(c, s, step))
  {
    hide Solo, Bounded, Next, EventsOf, Pending, Gains, Yields;
    var s' := Next(c, s, step);
    StepMoves(c, s, step);
    forall w: nat | w < |s.workers| && s.workers[w].pc == Exited
      ensures w < |s'.workers| && s'.workers[w].pc == Exited
    {
      ExitedStays(c, s, step, w);
    }
    if Still(s, s') {
      SoloStill(s, s');
    } else {
      hide Still;
      match step {
        case Spawn => SpawnWaits(c, s); SoloSpawns(s, s');
        case Take(w) => SoloGains(s, s', w, s.queue[0].value);
        case ProcessOne(w) => SoloYields(s, s', w, s.workers[w].batch[s.workers[w].pc.next]);
        case _ =>
      }
    }
  }

  lemma SpawnWaits(c: Config, s: State)
    ensures s.toSpawn == 0 ==> Still(s, Next(c, s, Spawn))
  {
  }

  lemma {:induction false} SoloRun(c: Config, steps: seq<Step>)
    requires OneAtATime(c, steps)
    ensures Solo(Run(c, steps))
  {
    hide Next, Solo, Fifo, InOrder, Conserved, Counted, Bounded;
    if steps == [] {
      InitiallySolo();
    } else {
      var n := |steps| - 1;
      assert steps[n] == Spawn ==> Run(c, steps[..n]).toSpawn == 0 || AllExited(Run(c, steps[..n]).workers);
      forall i | 0 <= i < n && steps[..n][i] == Spawn
        ensures Run(c, steps[..n][..i]).toSpawn == 0 || AllExited(Run(c, steps[..n][..i]).workers)
      {
        assert steps[..n][..i] == steps[..i];
      }
      SoloRun(c, steps[..n]);
      EveryRunConserves(c, steps[..n]);
      SoloStep(c, Run(c, steps[..n]), steps[n]);
    }
  }

  lemma InitiallySolo()
    ensures Solo(INITIAL)
  {
  }

  /** An engine with one worker at a time processes in arrival order, restarts included. */
  lemma OneWorkerKeepsOrder(c: Config, steps: seq<Step>)
    requires OneAtATime(c, steps)
    ensures var s := Run(c, steps);
            s.accepted == EventsOf(s.processed) + Current(s.workers) + EventsIn(s.queue)
  {
    hide Run, OneAtATime, EventsOf, Current, EventsIn, InOrder, Conserved, Counted, Bounded;
    EveryRunConserves(c, steps);
    SoloRun(c, steps);
  }

  /** No worker holds more events than one batch. */
  lemma BacklogIsBounded(c: Config, steps: seq<Step>, w: nat)
    requires w < |Run(c, steps).workers|
    ensures |Pending(Run(c, steps).workers[w])| <= if c.batchSize > 1 then c.batchSize else 1
  {
    hide Run, Next, Fifo, InOrder, Conserved, Counted;
    EveryRunConserves(c, steps);
  }
}
