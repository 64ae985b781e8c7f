/** Stopping and restarting the event engine: what a stop leaves in the queue, and what the
    sentinels it leaves do to the next start. */
module IdsShutdown {
  import opened Options
  import opened IdsPipeline

  // ---------------------------------------------------------------- continuations

  function RunFrom(c: Config, s: State, steps: seq<Step>): State
    decreases |steps|
  {
    if steps == [] then s else RunFrom(c, Next(c, s, steps[0]), steps[1..])
  }

  lemma {:induction false} RunFromRun(c: Config, steps: seq<Step>, more: seq<Step>)
    ensures Run(c, steps + more) == RunFrom(c, Run(c, steps), more)
    decreases |more|
  {
    hide Next;
    if more == [] {
      assert steps + more == steps;
    } else {
      assert (steps + [more[0]])[..|steps|] == steps;
      assert steps + more == steps + [more[0]] + more[1..];
      RunFromRun(c, steps + [more[0]], more[1..]);
    }
  }

  lemma {:induction false} RunFromConcat(c: Config, s: State, a: seq<Step>, b: seq<Step>)
    ensures RunFrom(c, s, a + b) == RunFrom(c, RunFrom(c, s, a), b)
    decreases |a|
  {
    hide Next;
    if a == [] {
      assert a + b == b;
    } else {
      assert (a + b)[1..] == a[1..] + b;
      RunFromConcat(c, Next(c, s, a[0]), a[1..], b);
    }
  }

  // ---------------------------------------------------------------- what a stop leaves

  // Once the stop flag is set, a worker that is blocked on the queue takes one more item, and
  // every other worker takes none. Producers do not look at the flag, and what they put comes
  // behind what is queued.

  function Blocked(workers: seq<Worker>): nat {
    if workers == [] then 0
    else Blocked(workers[..|workers| - 1]) + if workers[|workers| - 1].pc == Waiting then 1 else 0
  }

  /** The events among the first m items of the queue that the blocked workers will not take. */
  function Behind(s: State, m: nat): seq<Event>
    requires m <= |s.queue|
  {
    var k := Blocked(s.workers);
    if k >= m then [] else EventsIn(s.queue[k..m])
  }

  /** The queued events that the blocked workers will not take. */
  function Leftover(s: State): seq<Event> {
    Behind(s, |s.queue|)
  }

  lemma {:induction false} BlockedUpdate(workers: seq<Worker>, w: nat, x: Worker)
    requires w < |workers|
    ensures Blocked(workers[w := x]) + (if workers[w].pc == Waiting then 1 else 0)
         == Blocked(workers) + (if x.pc == Waiting then 1 else 0)
  {
    var n := |workers| - 1;
    if w == n {
      assert workers[w := x][..n] == workers[..n];
    } else {
      assert workers[w := x][..n] == workers[..n][w := x];
      BlockedUpdate(workers[..n], w, x);
    }
  }

  lemma BlockedAppend(workers: seq<Worker>, x: Worker)
    ensures Blocked(workers + [x]) == Blocked(workers) + if x.pc == Waiting then 1 else 0
  {
  }

  lemma {:induction false} NobodyBlocked(workers: seq<Worker>)
    requires AllExited(workers)
    ensures Blocked(workers) == 0
  {
    if workers != [] { NobodyBlocked(workers[..|workers| - 1]); }
  }

  /** The flag stays set: the engine is not started again. A start that finds workers changes
      nothing and is allowed. */
  ghost predicate StaysStopped(c: Config, s: State, more: seq<Step>)
    decreases |more|
  {
    s.stopFlag && (more == [] || StaysStopped(c, Next(c, s, more[0]), more[1..]))
  }

  /** Of the items that were queued when the flag was set, m are still in front. Those events
      were accepted before, and none of them but left can be taken. */
  ghost predicate InFront(before: seq<Event>, left: seq<Event>, s: State, m: nat) {
    && m <= |s.queue| && Behind(s, m) == left
    && if m > 0 then EventsOf(s.taken) + EventsIn(s.queue[..m]) == before else before <= EventsOf(s.taken)
  }

  lemma FrontStays(before: seq<Event>, left: seq<Event>, s: State, s': State, m: nat)
    requires InFront(before, left, s, m) && s'.taken == s.taken && s.queue <= s'.queue
    requires m > 0 ==> Blocked(s'.workers) == Blocked(s.workers)
    ensures InFront(before, left, s', m)
  {
    hide Blocked, EventsIn, EventsOf;
    assert s'.queue[..m] == s.queue[..m];
    var k := Blocked(s.workers);
    if k < m { assert s'.queue[k..m] == s.queue[k..m]; }
  }

  /** Taking frees the worker that does it. */
  lemma TakeUnblocks(c: Config, s: State, w: nat)
    requires At(s, w, Waiting) && s.queue != []
    ensures var s' := TakeNext(c, s, w);
            && s'.queue == s.queue[1..] && Blocked(s'.workers) + 1 == Blocked(s.workers)
            && EventsOf(s'.taken) == EventsOf(s.taken) + if s.queue[0].Some? then [s.queue[0].value] else []
  {
    var s' := TakeNext(c, s, w);
    assert s'.workers == s.workers[w := s'.workers[w]];
    BlockedUpdate(s.workers, w, s'.workers[w]);
    if s.queue[0].Some? { EventsOfAppend(s.taken, Mark(s.queue[0].value, w)); }
    hide Blocked, EventsOf;
  }

  lemma NoEvents(queue: seq<Option<Event>>)
    requires queue == []
    ensures EventsIn(queue) == []
  {
  }

  lemma EventsInFirst(queue: seq<Option<Event>>)
    requires queue != []
    ensures EventsIn(queue) == (if queue[0].Some? then [queue[0].value] else []) + EventsIn(queue[1..])
  {
  }

  lemma FrontMoves(before: seq<Event>, left: seq<Event>, s: State, s': State, m: nat)
    requires InFront(before, left, s, m) && s.queue != [] && s'.queue == s.queue[1..]
    requires Blocked(s'.workers) + 1 == Blocked(s.workers)
    requires EventsOf(s'.taken) == EventsOf(s.taken) + if s.queue[0].Some? then [s.queue[0].value] else []
    ensures InFront(before, left, s', if m > 0 then m - 1 else 0)
  {
    hide Blocked, EventsOf, EventsIn;
    if m > 0 {
      var k := Blocked(s.workers);
      EventsInFirst(s.queue[..m]);
      assert s.queue[..m][1..] == s'.queue[..m - 1];
      if k < m { assert s'.queue[k - 1..m - 1] == s.queue[k..m]; }
      if m == 1 { NoEvents(s'.queue[..0]); }
    }
  }

  lemma TakeMovesFront(c: Config, before: seq<Event>, left: seq<Event>, s: State, w: nat, m: nat)
    requires InFront(before, left, s, m) && At(s, w, Waiting) && s.queue != []
    ensures InFront(before, left, TakeNext(c, s, w), if m > 0 then m - 1 else 0)
  {
    hide InFront, TakeNext, Blocked, EventsOf;
    TakeUnblocks(c, s, w);
    FrontMoves(before, left, s, TakeNext(c, s, w), m);
  }

  /** Apart from taking, no worker touches the queue, and none becomes or stops being blocked
      unless the queue is empty. */
  lemma WorkerKeepsQueue(c: Config, s: State, step: Step)
    requires s.stopFlag && ByWorker(step) && !step.Take?
    ensures var s', w := Next(c, s, step), step.w;
            && s'.queue == s.queue && s'.taken == s.taken
            && (s'.workers == s.workers
                || (w < |s.workers| && s'.workers == s.workers[w := s'.workers[w]]
                    && (s.queue == [] || (s.workers[w].pc != Waiting && s'.workers[w].pc != Waiting))))
  {
    var s', w := Next(c, s, step), step.w;
    if w < |s.workers| { assert s'.workers == s.workers[w := s'.workers[w]]; }
  }

  /** Everybody else only appends to the queue, and blocks nobody. */
  lemma OthersAppend(c: Config, s: State, step: Step)
    requires !ByWorker(step)
    ensures var s' := Next(c, s, step);
            && s.queue <= s'.queue && s'.taken == s.taken
            && (s'.workers == s.workers || s'.workers == s.workers + [Worker(Checking, [])])
  {
  }

  lemma StepMovesFront(c: Config, before: seq<Event>, left: seq<Event>, s: State, step: Step, m: nat) returns (m': nat)
    requires InFront(before, left, s, m) && s.stopFlag
    ensures InFront(before, left, Next(c, s, step), m')
  {
    m' := m;
    var s' := Next(c, s, step);
    if step.Take? {
      if At(s, step.w, Waiting) && s.queue != [] {
        TakeMovesFront(c, before, left, s, step.w, m);
        m' := if m > 0 then m - 1 else 0;
      }
      hide InFront, TakeNext;
    } else {
      if ByWorker(step) {
        WorkerKeepsQueue(c, s, step);
        if step.w < |s.workers| { BlockedUpdate(s.workers, step.w, s'.workers[step.w]); }
      } else {
        OthersAppend(c, s, step);
        BlockedAppend(s.workers, Worker(Checking, []));
      }
      hide Next, Blocked, EventsIn, EventsOf;
      FrontStays(before, left, s, s', m);
    }
  }

  lemma {:induction false} RunMovesFront(c: Config, before: seq<Event>, left: seq<Event>, s: State, more: seq<Step>, m: nat)
    returns (m': nat)
    requires InFront(before, left, s, m) && StaysStopped(c, s, more)
    ensures InFront(before, left, RunFrom(c, s, more), m')
    decreases |more|
  {
    hide Next, InFront;
    m' := m;
    if more != [] {
      var n := StepMovesFront(c, before, left, s, more[0], m);
      m' := RunMovesFront(c, before, left, Next(c, s, more[0]), more[1..], n);
    }
  }

  lemma FrontAtTheEnd(before: seq<Event>, left: seq<Event>, s: State, m: nat)
    requires InFront(before, left, s, m) && AllExited(s.workers)
    ensures if left == [] then before <= EventsOf(s.taken)
            else EventsOf(s.taken) + left == before && left <= EventsIn(s.queue)
  {
    NobodyBlocked(s.workers);
    hide Blocked, EventsOf;
    if m > 0 {
      assert s.queue[0..m] == s.queue[..m];
      assert s.queue == s.queue[..m] + s.queue[m..];
      EventsInConcat(s.queue[..m], s.queue[m..]);
    }
  }

  lemma {:induction false} EventsInConcat(a: seq<Option<Event>>, b: seq<Option<Event>>)
    ensures EventsIn(a + b) == EventsIn(a) + EventsIn(b)
  {
    if a == [] {
      assert a + b == b;
    } else {
      EventsInConcat(a[1..], b);
      assert (a + b)[1..] == a[1..] + b;
    }
  }

  /** What a stop leaves is known when the flag is set. Whatever the workers, the producers, the
      sentinels and repeated stops do until the engine is started again, the workers take every
      event accepted before the flag except the leftover, and the leftover stays queued. So
      those events are all processed if and only if there is no leftover. */
  lemma StopLeavesExactly(c: Config, steps: seq<Step>, more: seq<Step>)
    requires StaysStopped(c, Run(c, steps), more) && AllExited(Run(c, steps + more).workers)
    ensures var s, t := Run(c, steps), Run(c, steps + more);
            && (Leftover(s) == [] ==> s.accepted <= EventsOf(t.taken))
            && (Leftover(s) != [] ==> EventsOf(t.taken) + Leftover(s) == s.accepted && Leftover(s) <= EventsIn(t.queue))
            && (multiset(s.accepted) <= multiset(EventsOf(t.processed)) <==> Leftover(s) == [])
  {
    hide Run, StaysStopped, EventsOf, EventsIn, Leftover, Conserved, InOrder, Counted, Bounded;
    var s, t := Run(c, steps), Run(c, steps + more);
    RunFromRun(c, steps, more);
    EveryRunConserves(c, steps);
    StopBegins(s);
    var m := RunMovesFront(c, s.accepted, Leftover(s), s, more, |s.queue|);
    FrontAtTheEnd(s.accepted, Leftover(s), t, m);
    WorkersLeaveNothingBehind(c, steps + more);
    AllButLeftover(s.accepted, EventsOf(t.taken), Leftover(s));
  }

  lemma StopBegins(s: State)
    requires Fifo(s)
    ensures InFront(s.accepted, Leftover(s), s, |s.queue|)
  {
    assert s.queue[..|s.queue|] == s.queue;
    hide EventsOf, Blocked;
  }

  lemma AllButLeftover(before: seq<Event>, taken: seq<Event>, left: seq<Event>)
    requires if left == [] then before <= taken else taken + left == before
    ensures multiset(before) <= multiset(taken) <==> left == []
  {
    if left == [] {
      assert taken == before + taken[|before|..];
    } else {
      assert left[0] in left;
      assert multiset(taken + left) == multiset(taken) + multiset(left);
      assert multiset(before)[left[0]] > multiset(taken)[left[0]];
    }
  }

  lemma {:induction false} QuietAccepts(c: Config, s: State, more: seq<Step>)
    requires forall i | 0 <= i < |more| :: !more[i].Put?
    ensures RunFrom(c, s, more).accepted == s.accepted
    decreases |more|
  {
    if more != [] {
      AcceptsNothing(c, s, more[0]);
      hide Next;
      QuietAccepts(c, Next(c, s, more[0]), more[1..]);
    }
  }

  lemma AcceptsNothing(c: Config, s: State, step: Step)
    requires !step.Put?
    ensures Next(c, s, step).accepted == s.accepted
  {
  }

  /** If nothing is put meanwhile, the leftover is all that is still queued. */
  lemma QuietStopLeaves(c: Config, steps: seq<Step>, more: seq<Step>)
    requires StaysStopped(c, Run(c, steps), more) && AllExited(Run(c, steps + more).workers)
    requires forall i | 0 <= i < |more| :: !more[i].Put?
    ensures EventsIn(Run(c, steps + more).queue) == Leftover(Run(c, steps))
  {
    hide Run, StaysStopped, EventsOf, EventsIn, Leftover;
    StopLeavesExactly(c, steps, more);
    RunFromRun(c, steps, more);
    QuietAccepts(c, Run(c, steps), more);
    WorkersLeaveNothingBehind(c, steps + more);
    var s, t := Run(c, steps), Run(c, steps + more);
    assert EventsOf(t.taken) + EventsIn(t.queue) == s.accepted;
    if Leftover(s) != [] {
      assert EventsIn(t.queue) == s.accepted[|EventsOf(t.taken)|..] == Leftover(s);
    }
  }

  // ---------------------------------------------------------------- every stop can finish

  /** The worker's distance from its end, once the flag is set. */
  function Stage(worker: Worker): nat {
    match worker.pc
    case Waiting => 4
    case Processing(_, last) => if last then 1 else 3
    case Checking => 2
    case Exited => 0
  }

  function Unprocessed(worker: Worker): nat {
    match worker.pc
    case Processing(next, _) => if next <= |worker.batch| then |worker.batch| - next else 0
    case _ => 0
  }

  /** The next step of the worker. */
  function Move(s: State, w: nat): Step
    requires w < |s.workers|
  {
    match s.workers[w].pc
    case Waiting => if s.queue == [] then TimeOut(w) else Take(w)
    case Processing(next, _) => if next < |s.workers[w].batch| then ProcessOne(w) else Finish(w)
    case _ => Check(w)
  }

  lemma MoveAdvances(c: Config, s: State, w: nat)
    requires s.stopFlag && w < |s.workers| && s.workers[w].pc != Exited
    ensures var s' := Next(c, s, Move(s, w));
            && s'.stopFlag && s'.workers == s.workers[w := s'.workers[w]]
            && (Stage(s'.workers[w]) < Stage(s.workers[w])
                || (Stage(s'.workers[w]) == Stage(s.workers[w]) && Unprocessed(s'.workers[w]) < Unprocessed(s.workers[w])))
  {
    var s' := Next(c, s, Move(s, w));
    assert s'.workers == s.workers[w := s'.workers[w]];
  }

  lemma {:induction false} WorkerCanLeave(c: Config, s: State, w: nat) returns (more: seq<Step>)
    requires s.stopFlag && w < |s.workers|
    ensures StaysStopped(c, s, more) && forall i | 0 <= i < |more| :: ByWorker(more[i])
    ensures RunFrom(c, s, more).stopFlag && |RunFrom(c, s, more).workers| == |s.workers|
    ensures RunFrom(c, s, more).workers == s.workers[w := RunFrom(c, s, more).workers[w]]
    ensures RunFrom(c, s, more).workers[w].pc == Exited
    decreases Stage(s.workers[w]), Unprocessed(s.workers[w])
  {
    more := [];
    if s.workers[w].pc != Exited {
      MoveAdvances(c, s, w);
      var rest := WorkerCanLeave(c, Next(c, s, Move(s, w)), w);
      more := [Move(s, w)] + rest;
      assert more[1..] == rest;
      hide Next;
    }
  }

  lemma {:induction false} StaysConcat(c: Config, s: State, a: seq<Step>, b: seq<Step>)
    requires StaysStopped(c, s, a) && StaysStopped(c, RunFrom(c, s, a), b)
    ensures StaysStopped(c, s, a + b)
    decreases |a|
  {
    hide Next;
    if a == [] {
      assert a + b == b;
    } else {
      assert (a + b)[1..] == a[1..] + b;
      StaysConcat(c, Next(c, s, a[0]), a[1..], b);
    }
  }

  /** Whatever the state, the first n workers can all reach their end by their own steps. */
  lemma {:induction false} StopCanFinish(c: Config, s: State, n: nat) returns (more: seq<Step>)
    requires s.stopFlag && n <= |s.workers|
    ensures StaysStopped(c, s, more) && forall i | 0 <= i < |more| :: ByWorker(more[i])
    ensures RunFrom(c, s, more).stopFlag && |RunFrom(c, s, more).workers| == |s.workers|
    ensures AllExited(RunFrom(c, s, more).workers[..n])
  {
    more := [];
    if n > 0 {
      hide StaysStopped, ByWorker, RunFrom, AllExited;
      var first := StopCanFinish(c, s, n - 1);
      var t := RunFrom(c, s, first);
      var last := WorkerCanLeave(c, t, n - 1);
      RunFromConcat(c, s, first, last);
      StaysConcat(c, s, first, last);
      more := first + last;
      OneMoreExited(t.workers, RunFrom(c, t, last).workers, n - 1);
    }
  }

  lemma OneMoreExited(before: seq<Worker>, after: seq<Worker>, w: nat)
    requires w < |before| == |after| && AllExited(before[..w]) && after[w].pc == Exited && after == before[w := after[w]]
    ensures AllExited(after[..w + 1])
  {
    forall v | 0 <= v < w ensures after[v].pc == Exited { assert before[..w][v].pc == Exited; }
  }

  // ---------------------------------------------------------------- restarting

  // Each stop puts one sentinel for every worker, but a worker that sees the stop flag leaves
  // without taking one. The sentinel stays in the queue and ends a worker of the next start.

  predicate Live(worker: Worker) {
    !worker.pc.Exited? && !(worker.pc.Processing? && worker.pc.last)
  }

  /** The engine counts as running, so start does nothing, yet no worker is left. */
  ghost predicate Dead(s: State) {
    s.registered > 0 && s.toSpawn == 0 && forall w | 0 <= w < |s.workers| :: s.workers[w].pc == Exited
  }

  ghost predicate Clean(s: State) {
    !s.stopFlag && s.toPut == 0 && None !in s.queue
  }

  ghost predicate Reachable(c: Config, s: State) {
    exists steps :: Run(c, steps) == s
  }

  lemma ReachNext(c: Config, s: State, step: Step, s': State)
    requires Reachable(c, s) && Next(c, s, step) == s'
    ensures Reachable(c, s')
  {
    hide Next;
    var steps :| Run(c, steps) == s;
    assert (steps + [step])[..|steps|] == steps;
    assert Run(c, steps + [step]) == s';
  }

  const GONE := Worker(Exited, [])
  const READY := Worker(Checking, [])

  lemma StartReaches(c: Config)
    requires c.workerCount == 1
    ensures Reachable(c, INITIAL.(registered := 1, workers := [READY]))
  {
    assert Run(c, []) == INITIAL;
    hide Run, Reachable;
    ReachNext(c, INITIAL, Start, INITIAL.(toSpawn := 1));
    ReachNext(c, INITIAL.(toSpawn := 1), Spawn, INITIAL.(registered := 1, workers := [READY]));
  }

  /** A stop of the one worker can leave an event that was accepted before it. */
  lemma StopLeavesAnEvent(c: Config)
    requires c.workerCount == 1
    ensures exists s ::
      && Reachable(c, s) && s.stopFlag && s.toPut == 0 && s.registered == 0 && AllExited(s.workers)
      && s.accepted == [Numbered(1)] && s.processed == [] && EventsIn(s.queue) == [Numbered(1)]
  {
    StartReaches(c);
    hide Run, Reachable;
    var e := Numbered(1);
    var r := INITIAL.(registered := 1, workers := [READY]);
    var s := r.(counter := 1, calls := [e], accepted := [e], queue := [Some(e)]);
    ReachNext(c, r, DrawNumber, r.(counter := 1, calls := [e], drawn := multiset{e}));
    ReachNext(c, r.(counter := 1, calls := [e], drawn := multiset{e}), Put(e), s);
    EventIsLeft(c, s);
  }

  /** An event accepted while the engine stops can be left although there was no leftover. */
  lemma LateEventIsLeft(c: Config)
    requires c.workerCount == 1
    ensures exists steps, more ::
      var s, t := Run(c, steps), Run(c, steps + more);
      && StaysStopped(c, s, more) && s.accepted == [] && Leftover(s) == []
      && AllExited(t.workers) && t.registered == 0 && t.toPut == 0
      && t.accepted == [Numbered(1)] && t.processed == [] && EventsIn(t.queue) == [Numbered(1)]
  {
    var steps := [Start, Spawn, StopSet];
    var more := [DrawNumber, Put(Numbered(1)), Check(0), StopPut, StopClear];
    LateRunStarts(c);
    LateRunEnds(c, Run(c, steps));
    RunFromRun(c, steps, more);
    hide Run, RunFrom, Next, StaysStopped, Leftover, EventsIn;
    assert Run(c, steps + more) == RunFrom(c, Run(c, steps), more);
  }

  lemma LateRunStarts(c: Config)
    requires c.workerCount == 1
    ensures Run(c, [Start, Spawn, StopSet]) == INITIAL.(stopFlag := true, registered := 1, toPut := 1, workers := [READY])
  {
    assert [Start, Spawn, StopSet][..2] == [Start, Spawn] && [Start, Spawn][..1] == [Start];
    assert Run(c, []) == INITIAL;
    assert Run(c, [Start]) == INITIAL.(toSpawn := 1);
    assert Run(c, [Start, Spawn]) == INITIAL.(registered := 1, workers := [READY]);
  }

  lemma LateRunEnds(c: Config, s: State)
    requires s == INITIAL.(stopFlag := true, registered := 1, toPut := 1, workers := [READY])
    ensures var more, e := [DrawNumber, Put(Numbered(1)), Check(0), StopPut, StopClear], Numbered(1);
            && StaysStopped(c, s, more) && Leftover(s) == []
            && RunFrom(c, s, more).workers == [GONE] && EventsIn(RunFrom(c, s, more).queue) == [e]
            && RunFrom(c, s, more) == s.(counter := 1, calls := [e], accepted := [e],
                                         queue := RunFrom(c, s, more).queue, workers := [GONE], registered := 0, toPut := 0)
  {
    var e := Numbered(1);
    var s1 := s.(counter := 1, calls := [e], drawn := multiset{e});
    var s2 := s1.(drawn := multiset{}, accepted := [e], queue := [Some(e)]);
    var s3 := s2.(workers := [GONE]);
    var s4 := s3.(toPut := 0, queue := if Full(c, s3.queue) then s3.queue else s3.queue + [None]);
    assert Next(c, s, DrawNumber) == s1;
    assert Next(c, s1, Put(e)) == s2;
    assert Next(c, s2, Check(0)) == s3;
    assert Next(c, s3, StopPut) == s4;
    EventsInAppend(s3.queue, None);
    assert EventsIn(s3.queue) == [e];
    LateRun(c, s, s1, s2, s3, s4);
  }

  lemma LateRun(c: Config, s: State, s1: State, s2: State, s3: State, s4: State)
    requires s.stopFlag && s1.stopFlag && s2.stopFlag && s3.stopFlag && s4.stopFlag && s4.toPut == 0
    requires Next(c, s, DrawNumber) == s1 && Next(c, s1, Put(Numbered(1))) == s2 && Next(c, s2, Check(0)) == s3
    requires Next(c, s3, StopPut) == s4
    ensures var more := [DrawNumber, Put(Numbered(1)), Check(0), StopPut, StopClear];
            StaysStopped(c, s, more) && RunFrom(c, s, more) == s4.(registered := 0)
  {
    var t := s4.(registered := 0);
    assert Next(c, s4, StopClear) == t;
    hide Next;
    assert RunFrom(c, s4, [StopClear]) == RunFrom(c, t, []) == t && StaysStopped(c, t, []);
    assert RunFrom(c, s3, [StopPut, StopClear]) == t && StaysStopped(c, s3, [StopPut, StopClear]);
    assert RunFrom(c, s2, [Check(0), StopPut, StopClear]) == t && StaysStopped(c, s2, [Check(0), StopPut, StopClear]);
    var more := [Put(Numbered(1)), Check(0), StopPut, StopClear];
    assert more[1..] == [Check(0), StopPut, StopClear];
    assert RunFrom(c, s1, more) == t && StaysStopped(c, s1, more);
    assert [DrawNumber, Put(Numbered(1)), Check(0), StopPut, StopClear][1..] == more;
  }

  lemma EventIsLeft(c: Config, s: State)
    requires Reachable(c, s) && s.workers == [READY] && s.registered == 1 && s.toPut == 0 && s.processed == []
    requires s.accepted == [Numbered(1)] && s.queue == [Some(Numbered(1))]
    ensures exists t ::
      && Reachable(c, t) && t.stopFlag && t.toPut == 0 && t.registered == 0 && AllExited(t.workers)
      && t.accepted == [Numbered(1)] && t.processed == [] && EventsIn(t.queue) == [Numbered(1)]
  {
    hide Run, Reachable;
    var s1 := s.(stopFlag := true, toPut := 1);
    ReachNext(c, s, StopSet, s1);
    var s2 := s1.(workers := [GONE]);
    ReachNext(c, s1, Check(0), s2);
    var s3 := s2.(toPut := 0, queue := if Full(c, s.queue) then s.queue else s.queue + [None]);
    ReachNext(c, s2, StopPut, s3);
    var t := s3.(registered := 0);
    ReachNext(c, s3, StopClear, t);
    hide Next;
    EventsInAppend(s.queue, None);
    assert EventsIn(s.queue) == [Numbered(1)];
  }

  /** The one worker leaves on the stop flag, and its sentinel stays. */
  lemma StopLeavesSentinel(c: Config)
    requires c.workerCount == 1 && c.maxQueueSize != 1
    ensures Reachable(c, INITIAL.(queue := [None], workers := [GONE], stopFlag := true))
  {
    StartReaches(c);
    hide Run, Reachable;
    var s := INITIAL.(registered := 1, stopFlag := true);
    ReachNext(c, INITIAL.(registered := 1, workers := [READY]), StopSet, s.(toPut := 1, workers := [READY]));
    ReachNext(c, s.(toPut := 1, workers := [READY]), Check(0), s.(toPut := 1, workers := [GONE]));
    ReachNext(c, s.(toPut := 1, workers := [GONE]), StopPut, s.(queue := [None], workers := [GONE]));
    ReachNext(c, s.(queue := [None], workers := [GONE]), StopClear,
              INITIAL.(queue := [None], workers := [GONE], stopFlag := true));
  }

  lemma RestartDies(c: Config)
    requires c.workerCount == 1 && c.maxQueueSize != 1
    ensures Reachable(c, INITIAL.(registered := 1, workers := [GONE, GONE]))
  {
    StopLeavesSentinel(c);
    hide Run, Reachable;
    var s := INITIAL.(queue := [None]);
    var t := s.(registered := 1);
    ReachNext(c, s.(workers := [GONE], stopFlag := true), Start, s.(workers := [GONE], toSpawn := 1));
    ReachNext(c, s.(workers := [GONE], toSpawn := 1), Spawn, t.(workers := [GONE, READY]));
    ReachNext(c, t.(workers := [GONE, READY]), Check(1), t.(workers := [GONE, Worker(Waiting, [])]));
    ReachNext(c, t.(workers := [GONE, Worker(Waiting, [])]), Take(1), INITIAL.(registered := 1, workers := [GONE, GONE]));
  }

  /** Stop, start again, and the engine can be dead with an accepted event in its queue. */
  lemma StaleSentinelKillsRestart(c: Config)
    requires c.workerCount == 1 && c.maxQueueSize != 1
    ensures exists s ::
      Reachable(c, s) && Dead(s) && !s.stopFlag && s.accepted == [Numbered(1)] && EventsIn(s.queue) == [Numbered(1)]
  {
    RestartDies(c);
    hide Run, Reachable;
    var e := Numbered(1);
    var s := INITIAL.(registered := 1, workers := [GONE, GONE], counter := 1, calls := [e]);
    ReachNext(c, INITIAL.(registered := 1, workers := [GONE, GONE]), DrawNumber, s.(drawn := multiset{e}));
    var s' := s.(accepted := [e], queue := [Some(e)]);
    ReachNext(c, s.(drawn := multiset{e}), Put(e), s');
    hide Next;
    assert Dead(s') && EventsIn(s'.queue) == [e];
  }

  lemma DeadStaysDead(c: Config, s: State, step: Step)
    requires Dead(s) && step != StopClear
    ensures Dead(Next(c, s, step)) && Next(c, s, step).processed == s.processed
  {
  }

  /** A dead engine processes nothing until it is stopped once more. */
  lemma {:induction false} DeadUntilStopped(c: Config, s: State, more: seq<Step>)
    requires Dead(s) && StopClear !in more
    ensures Dead(RunFrom(c, s, more)) && RunFrom(c, s, more).processed == s.processed
    decreases |more|
  {
    hide Next, Dead;
    if more != [] {
      DeadStaysDead(c, s, more[0]);
      DeadUntilStopped(c, Next(c, s, more[0]), more[1..]);
    }
  }

  /** No live worker of s has left in t. */
  ghost predicate KeepsLive(s: State, t: State) {
    && |s.workers| <= |t.workers|
    && forall w | 0 <= w < |s.workers| && Live(s.workers[w]) :: Live(t.workers[w])
  }

  lemma CleanStep(c: Config, s: State, step: Step)
    requires Clean(s) && step != StopSet
    ensures Clean(Next(c, s, step)) && KeepsLive(s, Next(c, s, step))
  {
    if step.Take? && At(s, step.w, Waiting) && s.queue != [] {
      assert s.queue[0] in s.queue;
    }
  }

  /** Without a sentinel in the queue a running engine loses no worker before the next stop. */
  lemma {:induction false} CleanKeepsWorkers(c: Config, s: State, more: seq<Step>)
    requires Clean(s) && StopSet !in more
    ensures Clean(RunFrom(c, s, more)) && KeepsLive(s, RunFrom(c, s, more))
    decreases |more|
  {
    hide Next, Clean, Live;
    if more != [] {
      CleanStep(c, s, more[0]);
      CleanKeepsWorkers(c, Next(c, s, more[0]), more[1..]);
    }
  }

  /** The worker's distance from its next item, while the engine runs. */
  function Distance(worker: Worker): nat {
    match worker.pc
    case Processing(next, _) => if next <= |worker.batch| then 2 + |worker.batch| - next else 0
    case Checking => 1
    case _ => 0
  }

  lemma MoveApproaches(c: Config, s: State, w: nat)
    requires !s.stopFlag && Bounded(c, s) && None in s.queue && w < |s.workers| && Live(s.workers[w])
    ensures var s' := Next(c, s, Move(s, w));
            && !s'.stopFlag && Bounded(c, s') && w < |s'.workers| && Move(s, w) != StopSet
            && (Live(s'.workers[w]) ==>
                  && None in s'.queue
                  && (|s'.queue| < |s.queue|
                      || (|s'.queue| == |s.queue| && Distance(s'.workers[w]) < Distance(s.workers[w]))))
  {
    BoundedStep(c, s, Move(s, w));
    hide Bounded;
    assert Sized(c, s.workers[w]);
  }

  /** A sentinel in the queue can end any one of the live workers. */
  lemma {:induction false} SentinelEnds(c: Config, s: State, w: nat) returns (more: seq<Step>)
    requires !s.stopFlag && Bounded(c, s) && None in s.queue && w < |s.workers| && Live(s.workers[w])
    ensures StopSet !in more && w < |RunFrom(c, s, more).workers| && !Live(RunFrom(c, s, more).workers[w])
    decreases |s.queue|, Distance(s.workers[w])
  {
    MoveApproaches(c, s, w);
    var step := Move(s, w);
    var s' := Next(c, s, step);
    hide Next, Bounded, Live, Move, Distance;
    var rest: seq<Step> := [];
    if Live(s'.workers[w]) { rest := SentinelEnds(c, s', w); }
    more := [step] + rest;
    assert more[1..] == rest;
  }

  /** A running engine keeps its live workers until the next stop, whatever happens, if and only
      if there is no sentinel in its queue. */
  lemma KeepsWorkersExactly(c: Config, s: State)
    requires !s.stopFlag && s.toPut == 0 && Bounded(c, s)
    requires exists w | 0 <= w < |s.workers| :: Live(s.workers[w])
    ensures (forall more | StopSet !in more :: KeepsLive(s, RunFrom(c, s, more))) <==> None !in s.queue
  {
    if None in s.queue {
      var w: nat :| w < |s.workers| && Live(s.workers[w]);
      var more := SentinelEnds(c, s, w);
      assert !KeepsLive(s, RunFrom(c, s, more));
    } else {
      forall more | StopSet !in more ensures KeepsLive(s, RunFrom(c, s, more)) { CleanKeepsWorkers(c, s, more); }
    }
  }
}
