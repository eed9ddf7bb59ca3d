/** The worker pool: callers push on a FIFO queue, any number of workers poll it, run the task's work
    and, if that returned, its callback. A run is any interleaving of the atomic steps below. */
module AsyncWorking {
  import opened Wrappers

  /** A submitted task: either function object may be empty. */
  datatype Task = Task(id: string, hasWork: bool, hasCallback: bool)

  /** The program counter of one worker. `k` is the position of its task in the order of pops. */
  datatype Worker =
    | Check             // about to read running_
    | Fetch             // about to take the next task under the mutex
    | Idle              // got an empty work function, sleeping
    | Holding(k: nat)   // got work, activeThreads_ not incremented yet
    | Working(k: nat)
    | Worked(k: nat)    // the work returned
    | Calling(k: nat)   // inside the callback
    | Leaving           // about to decrement activeThreads_
    | Exited

  datatype Event =
    | PoolStarted
    | StopStored
    | Started(w: nat, k: nat)
    | Returned(k: nat)
    | Threw(k: nat)
    | CalledBack(k: nat)

  datatype State = State(
    capacity: nat, running: bool, toSpawn: nat, active: int, workers: seq<Worker>,
    queue: seq<Task>, submitted: seq<Task>, popped: seq<Task>, log: seq<Event>)

  datatype Step =
    | Submit(task: Task)
    | StartStore | Spawn | StopStore | JoinAll
    | ReadRunning(w: nat) | GetNextTask(w: nat) | SleepEnds(w: nat) | Begin(w: nat)
    | WorkReturns(w: nat) | WorkThrows(w: nat) | CallBack(w: nat) | NoCallback(w: nat)
    | CallbackEnds(w: nat) | Leave(w: nat)

  predicate At(s: State, w: nat, pc: Worker) {
    w < |s.workers| && s.workers[w] == pc
  }

  predicate Enabled(s: State, step: Step) {
    match step
    case Submit(_) => true
    case StartStore => s.workers == [] && s.toSpawn == 0
    case Spawn => s.toSpawn > 0
    case StopStore => s.toSpawn == 0
    case JoinAll => !s.running && s.toSpawn == 0 && forall w :: 0 <= w < |s.workers| ==> s.workers[w] == Exited
    case ReadRunning(w) => At(s, w, Check)
    case GetNextTask(w) => At(s, w, Fetch)
    case SleepEnds(w) => At(s, w, Idle)
    case Begin(w) => w < |s.workers| && s.workers[w].Holding?
    case WorkReturns(w) => w < |s.workers| && s.workers[w].Working?
    case WorkThrows(w) => w < |s.workers| && s.workers[w].Working?
    case CallBack(w) =>
      w < |s.workers| && s.workers[w].Worked? && s.workers[w].k < |s.popped| && s.popped[s.workers[w].k].hasCallback
    case NoCallback(w) =>
      w < |s.workers| && s.workers[w].Worked? && s.workers[w].k < |s.popped| && !s.popped[s.workers[w].k].hasCallback
    case CallbackEnds(w) => w < |s.workers| && s.workers[w].Calling?
    case Leave(w) => At(s, w, Leaving)
  }

  function Apply(s: State, step: Step): State
    requires Enabled(s, step)
  {
    match step
    case Submit(task) => s.(queue := s.queue + [task], submitted := s.submitted + [task])
    case StartStore => s.(running := true, toSpawn := s.capacity, log := s.log + [PoolStarted])
    case Spawn => s.(toSpawn := s.toSpawn - 1, workers := s.workers + [Check])
    case StopStore => s.(running := false, log := s.log + [StopStored])
    case JoinAll => s.(workers := [])
    case ReadRunning(w) => s.(workers := s.workers[w := if s.running then Fetch else Exited])
    case GetNextTask(w) =>
      if s.queue == [] then s.(workers := s.workers[w := Idle])
      else
        var task := s.queue[0];
        s.(queue := s.queue[1..], popped := s.popped + [task],
           workers := s.workers[w := if task.hasWork then Holding(|s.popped|) else Idle])
    case SleepEnds(w) => s.(workers := s.workers[w := Check])
    case Begin(w) =>
      var k := s.workers[w].k;
      s.(active := s.active + 1, workers := s.workers[w := Working(k)], log := s.log + [Started(w, k)])
    case WorkReturns(w) =>
      var k := s.workers[w].k;
      s.(workers := s.workers[w := Worked(k)], log := s.log + [Returned(k)])
    case WorkThrows(w) => s.(workers := s.workers[w := Leaving], log := s.log + [Threw(s.workers[w].k)])
    case CallBack(w) =>
      var k := s.workers[w].k;
      s.(workers := s.workers[w := Calling(k)], log := s.log + [CalledBack(k)])
    case NoCallback(w) => s.(workers := s.workers[w := Leaving])
    case CallbackEnds(w) => s.(workers := s.workers[w := Leaving])
    case Leave(w) => s.(active := s.active - 1, workers := s.workers[w := Check])
  }

  function Init(capacity: nat): State {
    State(capacity, false, 0, 0, [], [], [], [], [])
  }

  predicate IsRun(s: State, steps: seq<Step>)
    decreases |steps|
  {
    steps == [] || (Enabled(s, steps[0]) && IsRun(Apply(s, steps[0]), steps[1..]))
  }

  function Run(s: State, steps: seq<Step>): State
    requires IsRun(s, steps)
    decreases |steps|
  {
    if steps == [] then s else Run(Apply(s, steps[0]), steps[1..])
  }

  ghost predicate CanReach(s: State, t: State) {
    exists steps :: IsRun(s, steps) && Run(s, steps) == t
  }

  /** Some interleaving leads here from a freshly constructed pool. */
  ghost predicate Reachable(s: State) {
    CanReach(Init(s.capacity), s)
  }

  lemma {:induction false} Extend(s: State, steps: seq<Step>, step: Step)
    requires IsRun(s, steps) && Enabled(Run(s, steps), step)
    ensures IsRun(s, steps + [step]) && Run(s, steps + [step]) == Apply(Run(s, steps), step)
    decreases |steps|
  {
    var more := steps + [step];
    if steps == [] {
      assert more[1..] == [];
    } else {
      Extend(Apply(s, steps[0]), steps[1..], step);
      assert more[1..] == steps[1..] + [step];
    }
  }

  lemma ReachesItself(s: State)
    ensures CanReach(s, s)
  {
    var none: seq<Step> := [];
    assert IsRun(s, none) && Run(s, none) == s;
  }

  lemma ReachesNext(s: State, t: State, step: Step)
    requires CanReach(s, t) && Enabled(t, step)
    ensures CanReach(s, Apply(t, step))
  {
    var steps :| IsRun(s, steps) && Run(s, steps) == t;
    Extend(s, steps, step);
  }

  // ----- Quantities of a state -----

  predicate InSection(w: Worker) {
    w.Working? || w.Worked? || w.Calling? || w == Leaving
  }

  function CountInSection(workers: seq<Worker>): nat {
    if workers == [] then 0
    else CountInSection(workers[..|workers| - 1]) + (if InSection(workers[|workers| - 1]) then 1 else 0)
  }

  /** Whether a stop was stored since the pool was last started. */
  predicate Stopped(log: seq<Event>) {
    log != [] && log[|log| - 1] != PoolStarted && (log[|log| - 1] == StopStored || Stopped(log[..|log| - 1]))
  }

  /** How many tasks worker `w` started since the first stop of the current start. */
  function StartsAfterStop(log: seq<Event>, w: nat): nat {
    if log == [] || log[|log| - 1] == PoolStarted then 0
    else
      var front := log[..|log| - 1];
      StartsAfterStop(front, w) + (if log[|log| - 1].Started? && log[|log| - 1].w == w && Stopped(front) then 1 else 0)
  }

  /** The pops a worker is answerable for. */
  predicate HasTicket(w: Worker) {
    w.Holding? || w.Working? || w.Worked? || w.Calling?
  }

  // ----- Invariants -----

  ghost predicate FifoInv(s: State) {
    s.popped + s.queue == s.submitted
  }

  ghost predicate ActiveInv(s: State) {
    s.active == CountInSection(s.workers)
  }

  ghost predicate TicketInv(s: State) {
    && (forall w :: 0 <= w < |s.workers| && HasTicket(s.workers[w]) ==>
          s.workers[w].k < |s.popped| && s.popped[s.workers[w].k].hasWork)
    && (forall v, w :: 0 <= v < w < |s.workers| && HasTicket(s.workers[v]) && HasTicket(s.workers[w]) ==>
          s.workers[v].k != s.workers[w].k)
  }

  /** Everything the log says about a ticket, given where its holder is. */
  ghost predicate HolderInv(w: Worker, log: seq<Event>) {
    && (w.Holding? ==> forall v :: Started(v, w.k) !in log)
    && (w.Holding? || w.Working? ==> Returned(w.k) !in log)
    && (w.Holding? || w.Working? || w.Worked? ==> Threw(w.k) !in log && CalledBack(w.k) !in log)
    && (w.Worked? ==> Returned(w.k) in log)
  }

  predicate Mentions(e: Event, k: nat) {
    match e
    case Started(_, j) => j == k
    case Returned(j) => j == k
    case Threw(j) => j == k
    case CalledBack(j) => j == k
    case _ => false
  }

  ghost predicate LogInv(s: State) {
    && (forall w :: 0 <= w < |s.workers| ==> HolderInv(s.workers[w], s.log))
    && (forall p, k: nat :: 0 <= p < |s.log| && Mentions(s.log[p], k) ==> k < |s.popped|)
  }

  /** A callback follows the return of its own work, once, and that work did not throw. */
  ghost predicate CallbackOrder(log: seq<Event>) {
    forall p :: 0 <= p < |log| && log[p].CalledBack? ==>
      Returned(log[p].k) in log[..p] && CalledBack(log[p].k) !in log[..p] && Threw(log[p].k) !in log
  }

  /** No task is started twice. */
  ghost predicate StartOnce(log: seq<Event>) {
    forall p, q :: 0 <= p < q < |log| && log[p].Started? && log[q].Started? ==> log[p].k != log[q].k
  }

  ghost predicate BoundInv(s: State) {
    && (s.running ==> !Stopped(s.log))
    && (!Stopped(s.log) ==> forall w :: StartsAfterStop(s.log, w) == 0)
    && (forall w :: StartsAfterStop(s.log, w) <= 1)
    && (forall w :: 0 <= w < |s.workers| && (s.workers[w] == Fetch || s.workers[w].Holding?) ==> StartsAfterStop(s.log, w) == 0)
  }

  ghost predicate HasStarted(log: seq<Event>, k: nat) {
    exists w :: Started(w, k) in log
  }

  /** What has happened to the k-th popped task so far: no stage is skipped and none is invented. */
  ghost predicate Accounted(s: State, k: nat)
    requires k < |s.popped|
  {
    && (s.popped[k].hasWork ==> Holding(k) in s.workers || HasStarted(s.log, k))
    && (HasStarted(s.log, k) ==> s.popped[k].hasWork && (Working(k) in s.workers || Returned(k) in s.log || Threw(k) in s.log))
    && (Returned(k) in s.log && s.popped[k].hasCallback ==> Worked(k) in s.workers || CalledBack(k) in s.log)
    && (CalledBack(k) in s.log ==> s.popped[k].hasCallback)
  }

  ghost predicate AccountInv(s: State) {
    forall k :: 0 <= k < |s.popped| ==> Accounted(s, k)
  }

  ghost predicate SizeInv(s: State) {
    s.workers != [] || s.toSpawn > 0 ==> |s.workers| + s.toSpawn == s.capacity
  }

  ghost predicate Inv(s: State) {
    && FifoInv(s) && ActiveInv(s) && TicketInv(s) && LogInv(s)
    && CallbackOrder(s.log) && StartOnce(s.log) && AccountInv(s) && BoundInv(s) && SizeInv(s)
  }

  // ----- Preservation -----

  lemma StepFifo(s: State, step: Step)
    requires FifoInv(s) && Enabled(s, step)
    ensures FifoInv(Apply(s, step))
  {
    if step.Submit? {
      assert s.popped + (s.queue + [step.task]) == s.submitted + [step.task];
    } else if step.GetNextTask? && s.queue != [] {
      assert s.queue == [s.queue[0]] + s.queue[1..];
    }
  }

  lemma {:induction false} CountUpdate(workers: seq<Worker>, w: nat, pc: Worker)
    requires w < |workers|
    ensures CountInSection(workers[w := pc])
            == CountInSection(workers) - (if InSection(workers[w]) then 1 else 0) + (if InSection(pc) then 1 else 0)
    decreases |workers|
  {
    var n := |workers| - 1;
    if w == n {
      assert workers[w := pc][..n] == workers[..n];
    } else {
      assert workers[w := pc][..n] == workers[..n][w := pc];
      CountUpdate(workers[..n], w, pc);
    }
  }

  lemma {:induction false} CountZero(workers: seq<Worker>)
    requires forall w :: 0 <= w < |workers| ==> !InSection(workers[w])
    ensures CountInSection(workers) == 0
    decreases |workers|
  {
    if workers != [] {
      CountZero(workers[..|workers| - 1]);
    }
  }

  /** The worker a step moves, if it moves one. */
  function Actor(step: Step): Option<nat> {
    match step
    case ReadRunning(w) => Some(w)
    case GetNextTask(w) => Some(w)
    case SleepEnds(w) => Some(w)
    case Begin(w) => Some(w)
    case WorkReturns(w) => Some(w)
    case WorkThrows(w) => Some(w)
    case CallBack(w) => Some(w)
    case NoCallback(w) => Some(w)
    case CallbackEnds(w) => Some(w)
    case Leave(w) => Some(w)
    case _ => None
  }

  /** The counter moves exactly when a worker enters or leaves the work section. */
  lemma MoveIsCounted(s: State, step: Step, w: nat)
    requires Enabled(s, step) && Actor(step) == Some(w)
    ensures w < |s.workers| && Apply(s, step).workers == s.workers[w := Apply(s, step).workers[w]]
    ensures Apply(s, step).active - s.active
            == (if InSection(Apply(s, step).workers[w]) then 1 else 0) - (if InSection(s.workers[w]) then 1 else 0)
  {
  }

  lemma StepActive(s: State, step: Step)
    requires ActiveInv(s) && Enabled(s, step)
    ensures ActiveInv(Apply(s, step))
  {
    match Actor(step)
    case Some(w) =>
      MoveIsCounted(s, step, w);
      CountUpdate(s.workers, w, Apply(s, step).workers[w]);
    case None =>
      if step.Spawn? {
        assert (s.workers + [Check])[..|s.workers|] == s.workers;
      } else if step.JoinAll? {
        CountZero(s.workers);
      }
  }

  /** A worker may drop its ticket, keep it, or take the one of the next pop. */
  lemma TicketUpdate(s: State, t: State, w: nat, pc: Worker)
    requires TicketInv(s) && w < |s.workers| && t.workers == s.workers[w := pc]
    requires HasTicket(pc) ==>
               || (t.popped == s.popped && HasTicket(s.workers[w]) && s.workers[w].k == pc.k)
               || (pc.k == |s.popped| < |t.popped| && t.popped[pc.k].hasWork)
    requires s.popped <= t.popped
    ensures TicketInv(t)
  {
    forall v, u | 0 <= v < u < |t.workers| && HasTicket(t.workers[v]) && HasTicket(t.workers[u])
      ensures t.workers[v].k != t.workers[u].k
    {
      assert t.workers[v] == if v == w then pc else s.workers[v];
      assert t.workers[u] == if u == w then pc else s.workers[u];
    }
  }

  lemma StepTicket(s: State, step: Step)
    requires TicketInv(s) && Enabled(s, step)
    ensures TicketInv(Apply(s, step))
  {
    var t := Apply(s, step);
    if Actor(step).Some? {
      var w := Actor(step).value;
      TicketUpdate(s, t, w, t.workers[w]);
    }
  }

  /** Nothing in the log is about a pop still to come. */
  lemma FreshTicket(s: State)
    requires LogInv(s)
    ensures HolderInv(Holding(|s.popped|), s.log)
  {
    forall e | e in s.log ensures !Mentions(e, |s.popped|) {
      var p :| 0 <= p < |s.log| && s.log[p] == e;
    }
    assert forall v :: Mentions(Started(v, |s.popped|), |s.popped|);
    assert Mentions(Returned(|s.popped|), |s.popped|) && Mentions(Threw(|s.popped|), |s.popped|);
    assert Mentions(CalledBack(|s.popped|), |s.popped|);
  }

  lemma StepHolders(s: State, step: Step)
    requires TicketInv(s) && LogInv(s) && Enabled(s, step)
    ensures forall w :: 0 <= w < |Apply(s, step).workers| ==> HolderInv(Apply(s, step).workers[w], Apply(s, step).log)
  {
    FreshTicket(s);
  }

  lemma StepMentions(s: State, step: Step)
    requires TicketInv(s) && LogInv(s) && Enabled(s, step)
    ensures LogInv(Apply(s, step))
  {
    StepHolders(s, step);
  }

  lemma StepCallback(s: State, step: Step)
    requires LogInv(s) && CallbackOrder(s.log) && Enabled(s, step)
    ensures CallbackOrder(Apply(s, step).log)
  {
    var log := Apply(s, step).log;
    assert log[..|s.log|] == s.log;
    forall p | 0 <= p < |log| && log[p].CalledBack?
      ensures Returned(log[p].k) in log[..p] && CalledBack(log[p].k) !in log[..p] && Threw(log[p].k) !in log
    {
      if p < |s.log| {
        assert log[..p] == s.log[..p];
        assert log[p] == s.log[p] && log[p] in s.log;
      }
    }
  }

  lemma StepStartOnce(s: State, step: Step)
    requires LogInv(s) && StartOnce(s.log) && Enabled(s, step)
    ensures StartOnce(Apply(s, step).log)
  {
  }

  /** Other entries of the worker list survive an update. */
  lemma StaysInList(workers: seq<Worker>, w: nat, pc: Worker, x: Worker)
    requires w < |workers| && x in workers && x != workers[w]
    ensures x in workers[w := pc]
  {
    var v :| 0 <= v < |workers| && workers[v] == x;
    assert workers[w := pc][v] == x;
  }

  lemma StepAccount(s: State, step: Step)
    requires TicketInv(s) && LogInv(s) && AccountInv(s) && Enabled(s, step)
    ensures AccountInv(Apply(s, step))
  {
    var t := Apply(s, step);
    FreshTicket(s);
    forall k | 0 <= k < |t.popped| ensures Accounted(t, k) {
      if Actor(step).Some? {
        var w := Actor(step).value;
        assert t.workers[w] in t.workers;
        forall x | x in [Holding(k), Working(k), Worked(k)] && x in s.workers && x != s.workers[w]
          ensures x in t.workers
        {
          StaysInList(s.workers, w, t.workers[w], x);
        }
      }
      if k < |s.popped| {
        assert Accounted(s, k);
      }
    }
  }

  lemma StartsAfterStopSnoc(log: seq<Event>, ev: Event, w: nat)
    ensures Stopped(log + [ev]) == (ev != PoolStarted && (ev == StopStored || Stopped(log)))
    ensures StartsAfterStop(log + [ev], w)
            == if ev == PoolStarted then 0
               else StartsAfterStop(log, w) + (if ev.Started? && ev.w == w && Stopped(log) then 1 else 0)
  {
    assert (log + [ev])[..|log|] == log;
  }

  lemma StepBound(s: State, step: Step)
    requires BoundInv(s) && Enabled(s, step)
    ensures BoundInv(Apply(s, step))
  {
    var t := Apply(s, step);
    if t.log != s.log {
      var ev := t.log[|s.log|];
      assert t.log == s.log + [ev];
      forall w ensures StartsAfterStop(t.log, w) == if ev == PoolStarted then 0
               else StartsAfterStop(s.log, w) + (if ev.Started? && ev.w == w && Stopped(s.log) then 1 else 0) {
        StartsAfterStopSnoc(s.log, ev, w);
      }
      StartsAfterStopSnoc(s.log, ev, 0);
    }
  }

  lemma StepSize(s: State, step: Step)
    requires SizeInv(s) && Enabled(s, step)
    ensures SizeInv(Apply(s, step))
  {
  }

  lemma {:induction false} RunKeepsInv(s: State, steps: seq<Step>)
    requires Inv(s) && IsRun(s, steps)
    ensures Inv(Run(s, steps))
    decreases |steps|
  {
    if steps != [] {
      StepFifo(s, steps[0]);
      StepActive(s, steps[0]);
      StepTicket(s, steps[0]);
      StepMentions(s, steps[0]);
      StepCallback(s, steps[0]);
      StepStartOnce(s, steps[0]);
      StepAccount(s, steps[0]);
      StepBound(s, steps[0]);
      StepSize(s, steps[0]);
      RunKeepsInv(Apply(s, steps[0]), steps[1..]);
    }
  }

  lemma ReachableInv(s: State)
    requires Reachable(s)
    ensures Inv(s)
  {
    var steps :| IsRun(Init(s.capacity), steps) && Run(Init(s.capacity), steps) == s;
    RunKeepsInv(Init(s.capacity), steps);
  }

  // ----- What every run guarantees -----

  /** Exact first-in-first-out: what was popped, then what is queued, is what was submitted, in order. */
  lemma PopsFollowSubmissions(s: State)
    requires Reachable(s)
    ensures s.popped + s.queue == s.submitted
  {
    ReachableInv(s);
  }

  lemma ActiveThreadsCountsTheWorkSection(s: State)
    requires Reachable(s)
    ensures s.active == CountInSection(s.workers)
    ensures s.workers == [] ==> s.active == 0
  {
    ReachableInv(s);
  }

  /** A callback runs once, after its own work returned, and never for work that threw. */
  lemma CallbackFollowsItsWork(s: State, p: nat)
    requires Reachable(s) && p < |s.log| && s.log[p].CalledBack?
    ensures Returned(s.log[p].k) in s.log[..p]
    ensures CalledBack(s.log[p].k) !in s.log[..p] && Threw(s.log[p].k) !in s.log
  {
    ReachableInv(s);
  }

  lemma NoTaskStartsTwice(s: State, p: nat, q: nat)
    requires Reachable(s) && p < q < |s.log| && s.log[p].Started? && s.log[q].Started?
    ensures s.log[p].k != s.log[q].k && s.log[q].k < |s.submitted|
  {
    ReachableInv(s);
    assert Mentions(s.log[q], s.log[q].k);
    assert s.submitted == s.popped + s.queue;
  }

  /** No stage is skipped: once the workers are gone, every popped task that has work was started and
      returned or threw, and if it returned its callback, if any, was called. */
  lemma NothingPoppedIsDropped(s: State, k: nat)
    requires Reachable(s) && s.workers == [] && k < |s.popped|
    ensures s.popped[k].hasWork <==> exists w :: Started(w, k) in s.log
    ensures s.popped[k].hasWork ==> Returned(k) in s.log || Threw(k) in s.log
    ensures Returned(k) in s.log ==> (CalledBack(k) in s.log <==> s.popped[k].hasCallback)
  {
    ReachableInv(s);
    assert Accounted(s, k);
  }

  /** Once the stop flag is stored, each worker starts at most one more task until the next start. */
  lemma AtMostOneStartPerWorkerAfterStop(s: State, w: nat)
    requires Reachable(s)
    ensures StartsAfterStop(s.log, w) <= 1
  {
    ReachableInv(s);
  }

  // ----- What one worker does when nobody interferes -----

  /** `t` is reached from `s` by at most n steps, all of worker `w`. */
  ghost predicate Alone(s: State, t: State, w: nat, n: nat) {
    exists steps :: IsRun(s, steps) && Run(s, steps) == t && |steps| <= n && forall x :: x in steps ==> Actor(x) == Some(w)
  }

  lemma AloneItself(s: State, w: nat)
    ensures Alone(s, s, w, 0)
  {
    var none: seq<Step> := [];
    assert IsRun(s, none) && Run(s, none) == s && forall x :: x in none ==> Actor(x) == Some(w);
  }

  lemma AloneStep(s: State, t: State, w: nat, n: nat, step: Step, u: State)
    requires Alone(s, t, w, n) && Actor(step) == Some(w) && Enabled(t, step) && u == Apply(t, step)
    ensures Alone(s, u, w, n + 1)
  {
    var steps :| IsRun(s, steps) && Run(s, steps) == t && |steps| <= n && forall x :: x in steps ==> Actor(x) == Some(w);
    Extend(s, steps, step);
    var more := steps + [step];
    assert IsRun(s, more) && Run(s, more) == u && |more| <= n + 1 && forall x :: x in more ==> Actor(x) == Some(w);
  }

  lemma AloneMore(s: State, t: State, w: nat, n: nat, m: nat)
    requires Alone(s, t, w, n) && n <= m
    ensures Alone(s, t, w, m)
  {
    var steps :| IsRun(s, steps) && Run(s, steps) == t && |steps| <= n && forall x :: x in steps ==> Actor(x) == Some(w);
    assert |steps| <= m;
  }

  lemma {:induction false} RunThen(s: State, first: seq<Step>, second: seq<Step>)
    requires IsRun(s, first) && IsRun(Run(s, first), second)
    ensures IsRun(s, first + second) && Run(s, first + second) == Run(Run(s, first), second)
    decreases |first|
  {
    if first == [] {
      assert first + second == second;
    } else {
      RunThen(Apply(s, first[0]), first[1..], second);
      assert (first + second)[1..] == first[1..] + second;
    }
  }

  lemma AloneThen(s: State, t: State, u: State, w: nat, n: nat, m: nat)
    requires Alone(s, t, w, n) && Alone(t, u, w, m)
    ensures Alone(s, u, w, n + m)
  {
    var first :| IsRun(s, first) && Run(s, first) == t && |first| <= n && forall x :: x in first ==> Actor(x) == Some(w);
    var second :| IsRun(t, second) && Run(t, second) == u && |second| <= m && forall x :: x in second ==> Actor(x) == Some(w);
    RunThen(s, first, second);
    var both := first + second;
    assert IsRun(s, both) && Run(s, both) == u && |both| <= n + m && forall x :: x in both ==> Actor(x) == Some(w);
  }

  /** The worker is in its loop with empty hands. */
  predicate EmptyHanded(pc: Worker) {
    pc == Check || pc == Fetch || pc == Idle
  }

  /** What the log gets from the k-th popped task, whose work fails or not. */
  function TaskEvents(w: nat, k: nat, task: Task, fails: bool): seq<Event> {
    if !task.hasWork then []
    else if fails then [Started(w, k), Threw(k)]
    else if task.hasCallback then [Started(w, k), Returned(k), CalledBack(k)]
    else [Started(w, k), Returned(k)]
  }

  function QueueEvents(w: nat, k: nat, queue: seq<Task>, failing: set<nat>): seq<Event>
    decreases |queue|
  {
    if queue == [] then [] else TaskEvents(w, k, queue[0], k in failing) + QueueEvents(w, k + 1, queue[1..], failing)
  }

  /** The front task has been dealt with and the worker is back at its loop condition. */
  function AfterOne(s: State, w: nat, fails: bool): State
    requires s.queue != []
  {
    s.(queue := s.queue[1..], popped := s.popped + [s.queue[0]],
       log := s.log + TaskEvents(w, |s.popped|, s.queue[0], fails))
  }

  lemma OneWithoutWork(s: State, w: nat)
    requires s.running && At(s, w, Check) && s.queue != [] && !s.queue[0].hasWork
    ensures Alone(s, AfterOne(s, w, false), w, 7) && Alone(s, AfterOne(s, w, true), w, 7)
  {
    var fetching := s.(workers := s.workers[w := Fetch]);
    var idle := s.(workers := s.workers[w := Idle], queue := s.queue[1..], popped := s.popped + [s.queue[0]]);
    var done := AfterOne(s, w, false);
    assert s.log + [] == s.log && s.workers[w := Check] == s.workers;
    AloneItself(s, w);
    AloneStep(s, s, w, 0, ReadRunning(w), fetching);
    AloneStep(s, fetching, w, 1, GetNextTask(w), idle);
    AloneStep(s, idle, w, 2, SleepEnds(w), done);
    AloneMore(s, done, w, 3, 7);
  }

  /** The work of the front task is about to end. */
  function AtWork(s: State, w: nat): State
    requires s.queue != [] && w < |s.workers|
  {
    var k := |s.popped|;
    s.(workers := s.workers[w := Working(k)], queue := s.queue[1..], popped := s.popped + [s.queue[0]],
       active := s.active + 1, log := s.log + [Started(w, k)])
  }

  lemma FetchesWork(s: State, w: nat)
    requires At(s, w, Fetch) && s.queue != [] && s.queue[0].hasWork
    ensures Alone(s, AtWork(s, w), w, 2)
  {
    var k := |s.popped|;
    var holding := s.(workers := s.workers[w := Holding(k)], queue := s.queue[1..], popped := s.popped + [s.queue[0]]);
    AloneItself(s, w);
    AloneStep(s, s, w, 0, GetNextTask(w), holding);
    AloneStep(s, holding, w, 1, Begin(w), AtWork(s, w));
  }

  lemma GetsToWork(s: State, w: nat)
    requires s.running && At(s, w, Check) && s.queue != [] && s.queue[0].hasWork
    ensures Alone(s, AtWork(s, w), w, 3)
  {
    var fetching := s.(workers := s.workers[w := Fetch]);
    AloneItself(s, w);
    AloneStep(s, s, w, 0, ReadRunning(w), fetching);
    FetchesWork(fetching, w);
    assert AtWork(fetching, w) == AtWork(s, w);
    AloneThen(s, fetching, AtWork(s, w), w, 1, 2);
  }

  /** A worker of a running pool, alone, takes and starts the front task within four steps. */
  lemma FrontTaskStartsWithinFourSteps(s: State, w: nat)
    requires s.running && w < |s.workers| && EmptyHanded(s.workers[w]) && s.queue != [] && s.queue[0].hasWork
    ensures exists t :: Alone(s, t, w, 4) && t.log == s.log + [Started(w, |s.popped|)] && t.queue == s.queue[1..]
                        && t.popped == s.popped + [s.queue[0]] && t.active == s.active + 1
  {
    var t := AtWork(s, w);
    match s.workers[w] {
      case Check => GetsToWork(s, w);
        AloneMore(s, t, w, 3, 4);
      case Fetch => FetchesWork(s, w);
        AloneMore(s, t, w, 2, 4);
      case Idle =>
        var checking := s.(workers := s.workers[w := Check]);
        AloneItself(s, w);
        AloneStep(s, s, w, 0, SleepEnds(w), checking);
        GetsToWork(checking, w);
        assert AtWork(checking, w) == t;
        AloneThen(s, checking, t, w, 1, 3);
    }
  }

  lemma OneThatThrows(s: State, w: nat)
    requires s.running && At(s, w, Check) && s.queue != [] && s.queue[0].hasWork
    ensures Alone(s, AfterOne(s, w, true), w, 7)
  {
    var k, working, done := |s.popped|, AtWork(s, w), AfterOne(s, w, true);
    var leaving := working.(workers := s.workers[w := Leaving], log := done.log);
    assert s.log + [Started(w, k)] + [Threw(k)] == done.log && s.workers[w := Check] == s.workers;
    GetsToWork(s, w);
    AloneStep(s, working, w, 3, WorkThrows(w), leaving);
    AloneStep(s, leaving, w, 4, Leave(w), done);
    AloneMore(s, done, w, 5, 7);
  }

  /** The work of the front task has returned. */
  function WorkDone(s: State, w: nat): State
    requires s.queue != [] && w < |s.workers|
  {
    var k := |s.popped|;
    s.(workers := s.workers[w := Worked(k)], queue := s.queue[1..], popped := s.popped + [s.queue[0]],
       active := s.active + 1, log := s.log + [Started(w, k), Returned(k)])
  }

  lemma GetsWorkDone(s: State, w: nat)
    requires s.running && At(s, w, Check) && s.queue != [] && s.queue[0].hasWork
    ensures Alone(s, WorkDone(s, w), w, 4)
  {
    var k := |s.popped|;
    GetsToWork(s, w);
    assert s.log + [Started(w, k)] + [Returned(k)] == s.log + [Started(w, k), Returned(k)];
    assert Apply(AtWork(s, w), WorkReturns(w)) == WorkDone(s, w);
    AloneStep(s, AtWork(s, w), w, 3, WorkReturns(w), WorkDone(s, w));
  }

  lemma LeavesSection(s: State, w: nat, n: nat, t: State, done: State)
    requires Alone(s, t, w, n) && At(t, w, Leaving)
    requires done == t.(active := t.active - 1, workers := t.workers[w := Check])
    ensures Alone(s, done, w, n + 1)
  {
    AloneStep(s, t, w, n, Leave(w), done);
  }

  lemma OneThatCallsBack(s: State, w: nat)
    requires s.running && At(s, w, Check) && s.queue != [] && s.queue[0].hasWork && s.queue[0].hasCallback
    ensures Alone(s, AfterOne(s, w, false), w, 7)
  {
    var k, worked, done := |s.popped|, WorkDone(s, w), AfterOne(s, w, false);
    var calling := worked.(workers := s.workers[w := Calling(k)], log := done.log);
    var leaving := calling.(workers := s.workers[w := Leaving]);
    assert worked.log + [CalledBack(k)] == done.log && s.workers[w := Check] == s.workers;
    GetsWorkDone(s, w);
    AloneStep(s, worked, w, 4, CallBack(w), calling);
    AloneStep(s, calling, w, 5, CallbackEnds(w), leaving);
    LeavesSection(s, w, 6, leaving, done);
  }

  lemma OneThatReturns(s: State, w: nat)
    requires s.running && At(s, w, Check) && s.queue != [] && s.queue[0].hasWork && !s.queue[0].hasCallback
    ensures Alone(s, AfterOne(s, w, false), w, 7)
  {
    var worked, done := WorkDone(s, w), AfterOne(s, w, false);
    var leaving := worked.(workers := s.workers[w := Leaving]);
    assert s.workers[w := Check] == s.workers;
    GetsWorkDone(s, w);
    AloneStep(s, worked, w, 4, NoCallback(w), leaving);
    LeavesSection(s, w, 5, leaving, done);
    AloneMore(s, done, w, 6, 7);
  }

  lemma OneTask(s: State, w: nat, fails: bool)
    requires s.running && At(s, w, Check) && s.queue != []
    ensures Alone(s, AfterOne(s, w, fails), w, 7)
  {
    if !s.queue[0].hasWork {
      OneWithoutWork(s, w);
    } else if fails {
      OneThatThrows(s, w);
    } else if s.queue[0].hasCallback {
      OneThatCallsBack(s, w);
    } else {
      OneThatReturns(s, w);
    }
  }

  /** Everything in the queue has been dealt with by one worker. */
  function Drained(s: State, w: nat, failing: set<nat>): State {
    s.(queue := [], popped := s.popped + s.queue, log := s.log + QueueEvents(w, |s.popped|, s.queue, failing))
  }

  lemma Associate<T>(a: seq<T>, b: seq<T>, c: seq<T>)
    ensures a + (b + c) == a + b + c
  {
  }

  lemma DrainedAfterOne(s: State, w: nat, failing: set<nat>)
    requires s.queue != []
    ensures Drained(AfterOne(s, w, |s.popped| in failing), w, failing) == Drained(s, w, failing)
  {
    var first, rest, k := [s.queue[0]], s.queue[1..], |s.popped|;
    assert s.queue == first + rest;
    Associate(s.popped, first, rest);
    Associate(s.log, TaskEvents(w, k, s.queue[0], k in failing), QueueEvents(w, k + 1, rest, failing));
  }

  /** One worker of a running pool, left alone, empties the queue: it starts the tasks with work in the
      order of submission, each returns or throws as given, and callbacks follow exactly the returns. The
      counter is back where it was, and at most seven steps go into a task. */
  lemma {:induction false} OneWorkerDrainsTheQueue(s: State, w: nat, failing: set<nat>)
    requires s.running && At(s, w, Check)
    ensures Alone(s, Drained(s, w, failing), w, 7 * |s.queue|)
    decreases |s.queue|
  {
    if s.queue == [] {
      assert s.popped + [] == s.popped && s.log + [] == s.log;
      assert Drained(s, w, failing) == s;
      AloneItself(s, w);
    } else {
      var fails := |s.popped| in failing;
      var t := AfterOne(s, w, fails);
      OneTask(s, w, fails);
      OneWorkerDrainsTheQueue(t, w, failing);
      DrainedAfterOne(s, w, failing);
      AloneThen(s, t, Drained(s, w, failing), w, 7, 7 * |t.queue|);
    }
  }

  /** How far a worker is from leaving its loop once the flag is down. */
  function StepsToExit(pc: Worker): nat {
    match pc
    case Exited => 0
    case Check => 1
    case Idle => 2
    case Leaving => 2
    case Calling(_) => 3
    case Worked(_) => 4
    case Working(_) => 5
    case Holding(_) => 6
    case Fetch => 7
  }

  lemma ExitMoves(s: State, w: nat) returns (step: Step)
    requires !s.running && TicketInv(s) && w < |s.workers| && s.workers[w] != Exited
    ensures Actor(step) == Some(w) && Enabled(s, step) && !Apply(s, step).running && w < |Apply(s, step).workers|
    ensures StepsToExit(Apply(s, step).workers[w]) < StepsToExit(s.workers[w])
  {
    match s.workers[w] {
      case Check => step := ReadRunning(w);
      case Fetch => step := GetNextTask(w);
      case Idle => step := SleepEnds(w);
      case Holding(_) => step := Begin(w);
      case Working(_) => step := WorkReturns(w);
      case Worked(k) => step := if s.popped[k].hasCallback then CallBack(w) else NoCallback(w);
      case Calling(_) => step := CallbackEnds(w);
      case Leaving => step := Leave(w);
    }
  }

  lemma {:induction false} LeavesSoon(o: State, s: State, w: nat, n: nat) returns (t: State)
    requires Alone(o, s, w, n) && !s.running && TicketInv(s) && w < |s.workers|
    ensures Alone(o, t, w, n + StepsToExit(s.workers[w])) && At(t, w, Exited)
    decreases StepsToExit(s.workers[w])
  {
    if s.workers[w] == Exited {
      t := s;
    } else {
      var step := ExitMoves(s, w);
      var next := Apply(s, step);
      StepTicket(s, step);
      AloneStep(o, s, w, n, step, next);
      t := LeavesSoon(o, next, w, n + 1);
      AloneMore(o, t, w, n + 1 + StepsToExit(next.workers[w]), n + StepsToExit(s.workers[w]));
    }
  }

  /** Once the flag is down every worker leaves its loop within seven steps of its own, the task it may
      still start included; so the joins return. */
  lemma StoppedWorkerLeavesWithinSevenSteps(s: State, w: nat)
    requires Reachable(s) && !s.running && w < |s.workers|
    ensures exists t :: Alone(s, t, w, 7) && At(t, w, Exited)
  {
    ReachableInv(s);
    AloneItself(s, w);
    var t := LeavesSoon(s, s, w, 0);
    AloneMore(s, t, w, StepsToExit(s.workers[w]), 7);
  }

  // ----- The loop of `Start` -----

  /** The capacity of the thread vector, whose size was `size` before the loop, after `i` insertions;
      `grow` is the library's growth policy for a full vector. */
  function CapacityAfter(grow: nat -> nat, size: nat, capacity: nat, i: nat): nat {
    if i == 0 then capacity
    else
      var before := CapacityAfter(grow, size, capacity, i - 1);
      if size + i - 1 == before then grow(before) else before
  }

  lemma {:induction false} CapacityStaysAbove(grow: nat -> nat, size: nat, capacity: nat, i: nat)
    requires forall c: nat :: grow(c) > c
    requires size <= capacity
    ensures size + i <= CapacityAfter(grow, size, capacity, i)
    ensures i <= capacity - size ==> CapacityAfter(grow, size, capacity, i) == capacity
  {
    if i > 0 {
      CapacityStaysAbove(grow, size, capacity, i - 1);
    }
  }

  /** The loop compares its counter with a capacity that its own insertions can raise. It ends exactly
      when it began on an empty vector, and then with as many threads as the reserved capacity. */
  lemma StartEndsIffEmpty(grow: nat -> nat, size: nat, capacity: nat)
    requires forall c: nat :: grow(c) > c
    requires size <= capacity
    ensures (exists i: nat :: i >= CapacityAfter(grow, size, capacity, i)) <==> size == 0
    ensures size == 0 ==> CapacityAfter(grow, size, capacity, capacity) == capacity
                          && forall i: nat :: i < capacity ==> i < CapacityAfter(grow, size, capacity, i)
  {
    forall i: nat ensures size + i <= CapacityAfter(grow, size, capacity, i) {
      CapacityStaysAbove(grow, size, capacity, i);
    }
    CapacityStaysAbove(grow, size, capacity, capacity);
    if size == 0 {
      forall i: nat | i < capacity ensures i < CapacityAfter(grow, size, capacity, i) {
        CapacityStaysAbove(grow, size, capacity, i);
      }
    }
  }

  // ----- The same steps on mutable fields -----

  class AsyncWorker {
    const capacity: nat
    var workers: seq<Worker>
    var toSpawn: nat
    var tasks: seq<Task>
    var activeThreads: int
    var running: bool
    var submitted: seq<Task>
    var popped: seq<Task>
    var log: seq<Event>

    ghost function View(): State
      reads this
    {
      State(capacity, running, toSpawn, activeThreads, workers, tasks, submitted, popped, log)
    }

    constructor (threadCount: nat)
      ensures capacity == threadCount && View() == Init(threadCount)
    {
      capacity, running, toSpawn, activeThreads := threadCount, false, 0, 0;
      workers, tasks, submitted, popped, log := [], [], [], [], [];
    }

    method Start()
      requires workers == [] && toSpawn == 0
      modifies this
      ensures running && toSpawn == 0 && |workers| == capacity && forall w :: 0 <= w < capacity ==> workers[w] == Check
      ensures log == old(log) + [PoolStarted] && unchanged(`tasks, `activeThreads, `submitted, `popped)
      ensures CanReach(old(View()), View())
    {
      ReachesItself(View());
      ReachesNext(View(), View(), StartStore);
      running, toSpawn, log := true, capacity, log + [PoolStarted];
      for i := 0 to capacity
        invariant running && |workers| == i && toSpawn == capacity - i
        invariant forall w :: 0 <= w < i ==> workers[w] == Check
        invariant log == old(log) + [PoolStarted] && unchanged(`tasks, `activeThreads, `submitted, `popped)
        invariant CanReach(old(View()), View())
      {
        ReachesNext(old(View()), View(), Spawn);
        workers, toSpawn := workers + [Check], toSpawn - 1;
      }
    }

    method StoreStop()
      requires toSpawn == 0
      modifies this
      ensures View() == Apply(old(View()), StopStore)
      ensures !running && log == old(log) + [StopStored] && unchanged(`workers, `toSpawn, `tasks, `activeThreads)
    {
      running, log := false, log + [StopStored];
    }

    /** Every join has returned: the threads are gone, the queue keeps what nobody took. */
    method JoinWorkers()
      requires Enabled(View(), JoinAll)
      modifies this
      ensures View() == Apply(old(View()), JoinAll)
      ensures workers == [] && unchanged(`running, `toSpawn, `tasks, `activeThreads, `log)
    {
      workers := [];
    }

    method Submit(task: Task)
      modifies this
      ensures View() == Apply(old(View()), Step.Submit(task))
      ensures tasks == old(tasks) + [task] && unchanged(`running, `workers, `toSpawn, `activeThreads, `popped, `log)
    {
      tasks, submitted := tasks + [task], submitted + [task];
    }

    /** The critical section of a worker: the front task, or an empty one. */
    method TakeNext() returns (task: Task)
      modifies this
      ensures old(tasks) == [] ==> task == Task("", false, false) && View() == old(View())
      ensures old(tasks) != [] ==> task == old(tasks)[0] && popped == old(popped) + [task] && tasks == old(tasks)[1..]
      ensures unchanged(`workers, `toSpawn, `activeThreads, `running, `submitted, `log)
    {
      if tasks == [] {
        return Task("", false, false);
      }
      task := tasks[0];
      tasks, popped := tasks[1..], popped + [task];
    }

    /** The next step of worker `w`; `throws` says how its work ends if that is what happens next. */
    method WorkerStep(w: nat, throws: bool) returns (step: Step)
      requires w < |workers| && workers[w] != Exited
      requires workers[w].Worked? ==> workers[w].k < |popped|
      modifies this
      ensures Enabled(old(View()), step) && View() == Apply(old(View()), step)
    {
      match workers[w] {
        case Check =>
          step := ReadRunning(w);
          workers := workers[w := if running then Fetch else Exited];
        case Fetch =>
          step := GetNextTask(w);
          var task := TakeNext();
          workers := workers[w := if task.hasWork then Holding(|popped| - 1) else Idle];
        case Idle =>
          step := SleepEnds(w);
          workers := workers[w := Check];
        case Holding(k) =>
          step := Begin(w);
          activeThreads, log, workers := activeThreads + 1, log + [Started(w, k)], workers[w := Working(k)];
        case Working(k) =>
          if throws {
            step := WorkThrows(w);
            log, workers := log + [Threw(k)], workers[w := Leaving];
          } else {
            step := WorkReturns(w);
            log, workers := log + [Returned(k)], workers[w := Worked(k)];
          }
        case Worked(k) =>
          if popped[k].hasCallback {
            step := CallBack(w);
            log, workers := log + [CalledBack(k)], workers[w := Calling(k)];
          } else {
            step := NoCallback(w);
            workers := workers[w := Leaving];
          }
        case Calling(_) =>
          step := CallbackEnds(w);
          workers := workers[w := Leaving];
        case Leaving =>
          step := Leave(w);
          activeThreads, workers := activeThreads - 1, workers[w := Check];
      }
    }
  }
}
