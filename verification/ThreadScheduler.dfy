/** The deadline scheduler: callers push timed tasks under a mutex, one worker pops and runs them.

    `State`, `Enabled` and `Apply` are the atomic steps of every thread involved; a run is any
    sequence of enabled steps, so the lemmas below speak about every interleaving. The class at
    the end of the file performs the same steps on mutable fields. */
module ThreadScheduling {
  import opened Wrappers

  /** A queued task. `pushedAt` is the position of its push in the log, which identifies it. */
  datatype Entry = Entry(pushedAt: nat, when: int)

  /** What happened so far; `Popped.at` is the clock value the deadline was compared with. */
  datatype Event =
    | Pushed(entry: Entry)
    | Popped(entry: Entry, at: int)
    | Finished(entry: Entry)
    | StopStored
    | Joined

  /** Where a caller of `Schedule` is inside its critical section. */
  datatype Caller = Entered | Stamped(at: int) | Published | Notified

  datatype Mutex = Free | HeldByWorker | HeldByCaller(stage: Caller)

  /** The program counter of the worker thread. */
  datatype Worker =
    | Check                // about to read running_ in the loop condition
    | Enter                // read true, about to lock
    | Inspect              // locked, about to look at tasks_.empty()
    | Decide(seen: int)    // locked, queue non-empty, clock read
    | TestPredicate        // locked, inside the untimed wait
    | AboutToBlock         // locked, the predicate was false
    | Asleep               // blocked in the untimed wait
    | AsleepUntil(w: int)  // blocked in the timed wait
    | Woken                // must relock and test the predicate again
    | WokenTimed           // must relock, then loops
    | Running(entry: Entry)
    | Exited

  datatype State = State(
    now: int, constructed: bool, running: bool, mutex: Mutex, worker: Worker,
    pending: multiset<Entry>, log: seq<Event>)

  datatype Step =
    | Tick(d: nat)
    | Construct
    | CallerLock | CallerReadClock | CallerPush(delay: int) | CallerNotify | CallerUnlock
    | StopStore | StopNotify | Join
    | ReadRunning | WorkerLock | LookAtQueue | Compare(top: Entry)
    | EvaluatePredicate | Block | Timeout | Spurious | Relock | Finish

  /** The top of the queue: the `greater` comparator puts a least deadline there, ties in any order. */
  predicate IsTop(pending: multiset<Entry>, top: Entry) {
    top in pending && forall e :: e in pending ==> top.when <= e.when
  }

  predicate Enabled(s: State, step: Step) {
    match step
    case Tick(_) => true
    case Construct => !s.constructed
    case CallerLock => s.constructed && s.mutex == Free
    case CallerReadClock => s.mutex == HeldByCaller(Entered)
    case CallerPush(_) => s.mutex.HeldByCaller? && s.mutex.stage.Stamped?
    case CallerNotify => s.mutex == HeldByCaller(Published)
    case CallerUnlock => s.mutex == HeldByCaller(Notified)
    case StopStore => s.constructed
    case StopNotify => s.constructed && !s.running
    case Join => s.constructed && !s.running && s.worker == Exited
    case ReadRunning => s.worker == Check
    case WorkerLock => s.worker == Enter && s.mutex == Free
    case LookAtQueue => s.worker == Inspect
    case Compare(top) => s.worker.Decide? && IsTop(s.pending, top)
    case EvaluatePredicate => s.worker == TestPredicate
    case Block => s.worker == AboutToBlock
    case Timeout => s.worker.AsleepUntil? && s.worker.w <= s.now
    case Spurious => s.worker == Asleep || s.worker.AsleepUntil?
    case Relock => (s.worker == Woken || s.worker == WokenTimed) && s.mutex == Free
    case Finish => s.worker.Running?
  }

  /** What a notification, a timeout or a spurious wake-up does to the worker. */
  function Wake(w: Worker): Worker {
    if w == Asleep then Woken else if w.AsleepUntil? then WokenTimed else w
  }

  function Apply(s: State, step: Step): State
    requires Enabled(s, step)
  {
    match step
    case Tick(d) => s.(now := s.now + d)
    case Construct => s.(constructed := true, running := true)
    case CallerLock => s.(mutex := HeldByCaller(Entered))
    case CallerReadClock => s.(mutex := HeldByCaller(Stamped(s.now)))
    case CallerPush(delay) =>
      var e := Entry(|s.log|, s.mutex.stage.at + delay);
      s.(mutex := HeldByCaller(Published), pending := s.pending + multiset{e}, log := s.log + [Pushed(e)])
    case CallerNotify => s.(mutex := HeldByCaller(Notified), worker := Wake(s.worker))
    case CallerUnlock => s.(mutex := Free)
    case StopStore => s.(running := false, log := s.log + [StopStored])
    case StopNotify => s.(worker := Wake(s.worker))
    case Join => s.(log := s.log + [Joined])
    case ReadRunning => s.(worker := if s.running then Enter else Exited)
    case WorkerLock => s.(mutex := HeldByWorker, worker := Inspect)
    case LookAtQueue => s.(worker := if s.pending == multiset{} then TestPredicate else Decide(s.now))
    case Compare(top) =>
      if top.when <= s.worker.seen then
        s.(mutex := Free, worker := Running(top), pending := s.pending - multiset{top},
           log := s.log + [Popped(top, s.worker.seen)])
      else
        s.(mutex := Free, worker := AsleepUntil(top.when))
    case EvaluatePredicate =>
      if s.pending != multiset{} || !s.running then s.(mutex := Free, worker := Check)
      else s.(worker := AboutToBlock)
    case Block => s.(mutex := Free, worker := Asleep)
    case Timeout => s.(worker := WokenTimed)
    case Spurious => s.(worker := Wake(s.worker))
    case Relock =>
      if s.worker == Woken then s.(mutex := HeldByWorker, worker := TestPredicate)
      else s.(worker := Check)
    case Finish => s.(worker := Check, log := s.log + [Finished(s.worker.entry)])
  }

  /** The worker thread is started before running_ is initialised, so it may read either value until
      the constructor has finished. */
  function Init(now: int, garbage: bool): State {
    State(now, false, garbage, Free, Check, multiset{}, [])
  }

  predicate IsRun(s: State, steps: seq<Step>)
    decreases |steps|
  {
    steps == [] || (Enabled(s, steps[0]) && IsRun(Apply(s, steps[0]), steps[1..]))
  }

  function Run(s: State, steps: seq<Step>): State
    requires IsRun(s, steps)
    decreases |steps|
  {
    if steps == [] then s else Run(Apply(s, steps[0]), steps[1..])
  }

  lemma {:induction false} Extend(s: State, steps: seq<Step>, step: Step) returns (more: seq<Step>)
    requires IsRun(s, steps) && Enabled(Run(s, steps), step)
    ensures more == steps + [step] && IsRun(s, more) && Run(s, more) == Apply(Run(s, steps), step)
    decreases |steps|
  {
    more := steps + [step];
    if steps == [] {
      assert more[1..] == [];
    } else {
      var rest := Extend(Apply(s, steps[0]), steps[1..], step);
      assert more[1..] == rest;
    }
  }

  // ----- Bags of tasks read off the log -----

  function PushedBag(log: seq<Event>): multiset<Entry> {
    if log == [] then multiset{}
    else PushedBag(log[..|log| - 1]) + (if log[|log| - 1].Pushed? then multiset{log[|log| - 1].entry} else multiset{})
  }

  function PoppedBag(log: seq<Event>): multiset<Entry> {
    if log == [] then multiset{}
    else PoppedBag(log[..|log| - 1]) + (if log[|log| - 1].Popped? then multiset{log[|log| - 1].entry} else multiset{})
  }

  function FinishedBag(log: seq<Event>): multiset<Entry> {
    if log == [] then multiset{}
    else FinishedBag(log[..|log| - 1]) + (if log[|log| - 1].Finished? then multiset{log[|log| - 1].entry} else multiset{})
  }

  function RunningBag(w: Worker): multiset<Entry> {
    if w.Running? then multiset{w.entry} else multiset{}
  }

  /** How many tasks were popped after the first store of `Stop`. */
  function StartsAfterStop(log: seq<Event>): nat {
    if log == [] then 0
    else
      var front := log[..|log| - 1];
      StartsAfterStop(front) + (if log[|log| - 1].Popped? && StopStored in front then 1 else 0)
  }

  // ----- The invariant, one concern at a time -----

  ghost predicate LockInv(s: State) {
    && (s.mutex == HeldByWorker <==> s.worker in {Inspect, TestPredicate, AboutToBlock} || s.worker.Decide?)
    && (!s.constructed ==> !s.mutex.HeldByCaller? && !s.worker.Running? && s.log == [] && s.pending == multiset{})
    && (s.worker == AboutToBlock ==> s.pending == multiset{})
    && (s.worker.Decide? ==> s.pending != multiset{} && s.worker.seen <= s.now)
  }

  /** A sleeper that a pending task could concern is about to be notified by the caller that pushed it. */
  ghost predicate WakeInv(s: State) {
    s.mutex != HeldByCaller(Published) ==>
      && (s.worker == Asleep ==> s.pending == multiset{})
      && (s.worker.AsleepUntil? ==> forall e :: e in s.pending ==> s.worker.w <= e.when)
  }

  /** A timed sleep ends at the deadline of a pending task. */
  ghost predicate SleepInv(s: State) {
    s.worker.AsleepUntil? ==> exists e :: e in s.pending && e.when == s.worker.w
  }

  ghost predicate BagInv(s: State) {
    && PushedBag(s.log) == s.pending + PoppedBag(s.log)
    && PoppedBag(s.log) == RunningBag(s.worker) + FinishedBag(s.log)
  }

  ghost predicate PushInv(s: State) {
    && (forall e :: e in s.pending ==> e.pushedAt < |s.log| && s.log[e.pushedAt] == Pushed(e))
    && (forall k :: 0 <= k < |s.log| && s.log[k].Pushed? ==> s.log[k].entry.pushedAt == k)
  }

  ghost predicate PopInv(s: State) {
    forall k :: 0 <= k < |s.log| && s.log[k].Popped? ==>
      && s.log[k].entry.pushedAt < k && s.log[s.log[k].entry.pushedAt] == Pushed(s.log[k].entry)
      && s.log[k].entry.when <= s.log[k].at <= s.now
  }

  ghost predicate LogInv(s: State) {
    PushInv(s) && PopInv(s)
  }

  /** A queued task that should have preceded a popped one was pushed after that pop. */
  ghost predicate PendingOrder(pending: multiset<Entry>, log: seq<Event>) {
    forall p, e :: 0 <= p < |log| && log[p].Popped? && e in pending && e.when < log[p].entry.when ==> p < e.pushedAt
  }

  /** The same between two pops. */
  ghost predicate PopOrder(log: seq<Event>) {
    forall p, q | 0 <= p < q < |log| && log[p].Popped? && log[q].Popped? ::
      log[q].entry.when < log[p].entry.when ==> p < log[q].entry.pushedAt
  }

  ghost predicate FlagInv(s: State) {
    StopStored in s.log <==> s.constructed && !s.running
  }

  /** A worker that may still pop has read running_ as true, so it did not start one after the stop yet. */
  ghost predicate BoundInv(s: State) {
    && StartsAfterStop(s.log) <= 1
    && (s.worker in {Enter, Inspect} || s.worker.Decide? ==> StartsAfterStop(s.log) == 0)
    && (StopStored !in s.log ==> StartsAfterStop(s.log) == 0)
  }

  ghost predicate JoinInv(s: State) {
    && (Joined in s.log ==> s.worker == Exited)
    && (forall p, q :: 0 <= p < q < |s.log| && s.log[p] == Joined ==> !s.log[q].Popped?)
  }

  /** A worker that left its loop without a stop left before the constructor was done, and popped nothing. */
  ghost predicate EarlyExitInv(s: State) {
    s.worker == Exited && s.running ==> forall k :: 0 <= k < |s.log| ==> !s.log[k].Popped?
  }

  ghost predicate Inv(s: State) {
    && LockInv(s) && WakeInv(s) && BagInv(s) && LogInv(s)
    && PendingOrder(s.pending, s.log) && PopOrder(s.log) && FlagInv(s) && BoundInv(s)
    && JoinInv(s) && EarlyExitInv(s) && SleepInv(s)
  }

  // ----- Preservation -----

  lemma StepLock(s: State, step: Step)
    requires LockInv(s) && Enabled(s, step)
    ensures LockInv(Apply(s, step))
  {
  }

  lemma StepWake(s: State, step: Step)
    requires LockInv(s) && WakeInv(s) && Enabled(s, step)
    ensures WakeInv(Apply(s, step))
  {
  }

  lemma StepSleep(s: State, step: Step)
    requires SleepInv(s) && Enabled(s, step)
    ensures SleepInv(Apply(s, step))
  {
    var t := Apply(s, step);
    if t.worker.AsleepUntil? {
      if s.worker.AsleepUntil? {
        var e :| e in s.pending && e.when == s.worker.w;
        assert e in t.pending;
      } else {
        assert step.top in t.pending;
      }
    }
  }

  /** The steps the worker takes by itself, without a spurious wake-up. */
  predicate WorkerOwn(step: Step) {
    step in {ReadRunning, WorkerLock, LookAtQueue, EvaluatePredicate, Block, Timeout, Relock, Finish} || step.Compare?
  }

  /** The event a step leaves in the log, if any. */
  function Emitted(s: State, step: Step): Option<Event>
    requires Enabled(s, step)
  {
    match step
    case CallerPush(delay) => Some(Pushed(Entry(|s.log|, s.mutex.stage.at + delay)))
    case StopStore => Some(StopStored)
    case Join => Some(Joined)
    case Compare(top) => if top.when <= s.worker.seen then Some(Popped(top, s.worker.seen)) else None
    case Finish => Some(Finished(s.worker.entry))
    case _ => None
  }

  /** What one step does to the log, the queue and the running task, whatever else it changes. */
  ghost predicate Grows(s: State, t: State, ev: Option<Event>) {
    && s.now <= t.now
    && t.log == (if ev.None? then s.log else s.log + [ev.value])
    && match ev
       case Some(Pushed(e)) =>
         && e.pushedAt == |s.log| && t.pending == s.pending + multiset{e}
         && RunningBag(t.worker) == RunningBag(s.worker)
       case Some(Popped(e, at)) =>
         && IsTop(s.pending, e) && e.when <= at <= t.now && t.pending == s.pending - multiset{e}
         && RunningBag(s.worker) == multiset{} && RunningBag(t.worker) == multiset{e}
       case Some(Finished(e)) =>
         t.pending == s.pending && RunningBag(s.worker) == multiset{e} && RunningBag(t.worker) == multiset{}
       case _ =>
         t.pending == s.pending && RunningBag(t.worker) == RunningBag(s.worker)
  }

  lemma PushGrows(s: State, delay: int)
    requires Enabled(s, CallerPush(delay))
    ensures Grows(s, Apply(s, CallerPush(delay)), Emitted(s, CallerPush(delay)))
  {
  }

  lemma CompareGrows(s: State, top: Entry)
    requires LockInv(s) && Enabled(s, Compare(top))
    ensures Grows(s, Apply(s, Compare(top)), Emitted(s, Compare(top)))
  {
  }

  lemma FinishGrows(s: State)
    requires Enabled(s, Finish)
    ensures Grows(s, Apply(s, Finish), Emitted(s, Finish))
  {
  }

  /** The other steps of callers and of `Stop` leave the queue and the running task alone. */
  lemma OutsiderGrows(s: State, step: Step)
    requires Enabled(s, step) && !WorkerOwn(step) && !step.CallerPush?
    ensures Grows(s, Apply(s, step), Emitted(s, step))
  {
  }

  lemma WorkerGrows(s: State, step: Step)
    requires Enabled(s, step) && WorkerOwn(step) && !step.Compare? && step != Finish
    ensures Grows(s, Apply(s, step), Emitted(s, step))
  {
  }

  lemma StepGrows(s: State, step: Step)
    requires LockInv(s) && Enabled(s, step)
    ensures Grows(s, Apply(s, step), Emitted(s, step))
  {
    if step.CallerPush? {
      PushGrows(s, step.delay);
    } else if step.Compare? {
      CompareGrows(s, step.top);
    } else if step == Finish {
      FinishGrows(s);
    } else if WorkerOwn(step) {
      WorkerGrows(s, step);
    } else {
      OutsiderGrows(s, step);
    }
  }

  lemma PushedSnoc(log: seq<Event>, ev: Event)
    ensures PushedBag(log + [ev]) == PushedBag(log) + (if ev.Pushed? then multiset{ev.entry} else multiset{})
  {
    assert (log + [ev])[..|log|] == log;
  }

  lemma PoppedSnoc(log: seq<Event>, ev: Event)
    ensures PoppedBag(log + [ev]) == PoppedBag(log) + (if ev.Popped? then multiset{ev.entry} else multiset{})
  {
    assert (log + [ev])[..|log|] == log;
  }

  lemma FinishedSnoc(log: seq<Event>, ev: Event)
    ensures FinishedBag(log + [ev]) == FinishedBag(log) + (if ev.Finished? then multiset{ev.entry} else multiset{})
  {
    assert (log + [ev])[..|log|] == log;
  }

  lemma JoinBag(all: multiset<Entry>, left: multiset<Entry>, right: multiset<Entry>, e: Entry)
    requires all == left + right
    ensures all + multiset{e} == (left + multiset{e}) + right
  {
  }

  lemma MoveInBag(all: multiset<Entry>, left: multiset<Entry>, right: multiset<Entry>, e: Entry)
    requires all == left + right && e in left
    ensures all == (left - multiset{e}) + (right + multiset{e})
  {
  }

  lemma StepPushedBag(s: State, t: State, ev: Option<Event>)
    requires PushedBag(s.log) == s.pending + PoppedBag(s.log) && Grows(s, t, ev)
    ensures PushedBag(t.log) == t.pending + PoppedBag(t.log)
  {
    match ev
    case None =>
    case Some(event) =>
      PushedSnoc(s.log, event);
      PoppedSnoc(s.log, event);
      match event {
        case Pushed(e) => JoinBag(PushedBag(s.log), s.pending, PoppedBag(s.log), e);
        case Popped(e, _) => MoveInBag(PushedBag(s.log), s.pending, PoppedBag(s.log), e);
        case _ =>
      }
  }

  lemma StepPoppedBag(s: State, t: State, ev: Option<Event>)
    requires PoppedBag(s.log) == RunningBag(s.worker) + FinishedBag(s.log) && Grows(s, t, ev)
    ensures PoppedBag(t.log) == RunningBag(t.worker) + FinishedBag(t.log)
  {
    if ev.Some? {
      PoppedSnoc(s.log, ev.value);
      FinishedSnoc(s.log, ev.value);
    }
  }

  lemma StepBag(s: State, t: State, ev: Option<Event>)
    requires BagInv(s) && Grows(s, t, ev)
    ensures BagInv(t)
  {
    StepPushedBag(s, t, ev);
    StepPoppedBag(s, t, ev);
  }

  lemma StepPush(s: State, t: State, ev: Option<Event>)
    requires PushInv(s) && Grows(s, t, ev)
    ensures PushInv(t)
  {
  }

  lemma StepLog(s: State, t: State, ev: Option<Event>)
    requires LogInv(s) && Grows(s, t, ev)
    ensures LogInv(t)
  {
    StepPush(s, t, ev);
    forall k | 0 <= k < |t.log| && t.log[k].Popped?
      ensures t.log[k].entry.pushedAt < k && t.log[t.log[k].entry.pushedAt] == Pushed(t.log[k].entry)
      ensures t.log[k].entry.when <= t.log[k].at <= t.now
    {
      if k < |s.log| {
        assert t.log[k] == s.log[k];
      }
    }
  }

  lemma StepPendingOrder(s: State, t: State, ev: Option<Event>)
    requires LogInv(s) && PendingOrder(s.pending, s.log) && Grows(s, t, ev)
    ensures PendingOrder(t.pending, t.log)
  {
    forall p, e | 0 <= p < |t.log| && t.log[p].Popped? && e in t.pending && e.when < t.log[p].entry.when
      ensures p < e.pushedAt
    {
      if p < |s.log| {
        assert t.log[p] == s.log[p];
      }
    }
  }

  lemma StepPopOrder(s: State, t: State, ev: Option<Event>)
    requires PendingOrder(s.pending, s.log) && PopOrder(s.log) && Grows(s, t, ev)
    ensures PopOrder(t.log)
  {
    forall p, q | 0 <= p < q < |t.log| && t.log[p].Popped? && t.log[q].Popped?
      ensures t.log[q].entry.when < t.log[p].entry.when ==> p < t.log[q].entry.pushedAt
    {
      assert t.log[p] == s.log[p];
      if q < |s.log| {
        assert t.log[q] == s.log[q];
      }
    }
  }

  lemma StepFlag(s: State, step: Step)
    requires LockInv(s) && FlagInv(s) && Enabled(s, step)
    ensures FlagInv(Apply(s, step))
  {
  }

  lemma StepBound(s: State, step: Step)
    requires FlagInv(s) && BoundInv(s) && Enabled(s, step)
    ensures BoundInv(Apply(s, step))
  {
    if Emitted(s, step).Some? {
      assert Apply(s, step).log[..|s.log|] == s.log;
    }
  }

  lemma StepJoin(s: State, step: Step)
    requires JoinInv(s) && Enabled(s, step)
    ensures JoinInv(Apply(s, step))
  {
    var t := Apply(s, step);
    forall p, q | 0 <= p < q < |t.log| && t.log[p] == Joined ensures !t.log[q].Popped? {
      assert t.log[p] == s.log[p];
      if q < |s.log| {
        assert t.log[q] == s.log[q];
      }
    }
  }

  lemma StepEarlyExit(s: State, step: Step)
    requires LockInv(s) && EarlyExitInv(s) && Enabled(s, step)
    ensures EarlyExitInv(Apply(s, step))
  {
  }

  lemma {:induction false} RunKeepsInv(s: State, steps: seq<Step>)
    requires Inv(s) && IsRun(s, steps)
    ensures Inv(Run(s, steps))
    decreases |steps|
  {
    if steps != [] {
      StepLock(s, steps[0]);
      StepWake(s, steps[0]);
      StepSleep(s, steps[0]);
      StepGrows(s, steps[0]);
      StepBag(s, Apply(s, steps[0]), Emitted(s, steps[0]));
      StepLog(s, Apply(s, steps[0]), Emitted(s, steps[0]));
      StepPendingOrder(s, Apply(s, steps[0]), Emitted(s, steps[0]));
      StepPopOrder(s, Apply(s, steps[0]), Emitted(s, steps[0]));
      StepFlag(s, steps[0]);
      StepBound(s, steps[0]);
      StepJoin(s, steps[0]);
      StepEarlyExit(s, steps[0]);
      RunKeepsInv(Apply(s, steps[0]), steps[1..]);
    }
  }

  ghost predicate CanReach(s: State, t: State) {
    exists steps :: IsRun(s, steps) && Run(s, steps) == t
  }

  lemma ReachesItself(s: State)
    ensures CanReach(s, s)
  {
    var none: seq<Step> := [];
    assert IsRun(s, none) && Run(s, none) == s;
  }

  lemma ReachesNext(s: State, t: State, step: Step, u: State)
    requires CanReach(s, t) && Enabled(t, step) && u == Apply(t, step)
    ensures CanReach(s, u)
  {
    var steps :| IsRun(s, steps) && Run(s, steps) == t;
    var more := Extend(s, steps, step);
  }

  /** Some interleaving leads here from a freshly allocated scheduler. */
  ghost predicate Reachable(s: State) {
    exists now, garbage :: CanReach(Init(now, garbage), s)
  }

  lemma ReachableInv(s: State)
    requires Reachable(s)
    ensures Inv(s)
  {
    var now, garbage :| CanReach(Init(now, garbage), s);
    var steps :| IsRun(Init(now, garbage), steps) && Run(Init(now, garbage), steps) == s;
    RunKeepsInv(Init(now, garbage), steps);
  }

  // ----- What every run guarantees -----

  /** If a task is dispatched before another with a strictly earlier deadline, the later-dispatched one
      was pushed only after the first was popped. Tasks pending together leave in deadline order. */
  lemma DispatchFollowsDeadlines(s: State, p: nat, q: nat)
    requires Reachable(s) && p < q < |s.log| && s.log[p].Popped? && s.log[q].Popped?
    requires s.log[q].entry.when < s.log[p].entry.when
    ensures p < s.log[q].entry.pushedAt < q && s.log[s.log[q].entry.pushedAt] == Pushed(s.log[q].entry)
  {
    ReachableInv(s);
  }

  lemma {:induction false} PushedOnce(log: seq<Event>, e: Entry)
    requires forall k :: 0 <= k < |log| && log[k].Pushed? ==> log[k].entry.pushedAt == k
    ensures PushedBag(log)[e] <= if e.pushedAt < |log| then 1 else 0
  {
    if log != [] {
      PushedOnce(log[..|log| - 1], e);
    }
  }

  /** Nothing is lost, invented, started twice or started early. */
  lemma TasksAreConserved(s: State)
    requires Reachable(s)
    ensures PushedBag(s.log) == s.pending + RunningBag(s.worker) + FinishedBag(s.log)
    ensures forall e :: PoppedBag(s.log)[e] <= PushedBag(s.log)[e] <= 1
    ensures forall k :: 0 <= k < |s.log| && s.log[k].Popped? ==> s.log[k].entry.when <= s.log[k].at <= s.now
  {
    ReachableInv(s);
    forall e ensures PoppedBag(s.log)[e] <= PushedBag(s.log)[e] <= 1 {
      PushedOnce(s.log, e);
      assert PushedBag(s.log)[e] == s.pending[e] + PoppedBag(s.log)[e];
    }
  }

  /** Outside a caller's window between push and notify, the worker sleeps without a deadline only on an
      empty queue, and with a deadline exactly until the least one pending. */
  lemma SleepersMatchTheQueue(s: State)
    requires Reachable(s) && s.mutex != HeldByCaller(Published)
    ensures s.worker == Asleep ==> s.pending == multiset{}
    ensures s.worker.AsleepUntil? ==> exists top :: IsTop(s.pending, top) && s.worker.w == top.when
  {
    ReachableInv(s);
    if s.worker.AsleepUntil? {
      var top :| top in s.pending && top.when == s.worker.w;
      assert IsTop(s.pending, top);
    }
  }

  /** Inside that window, too, a timed sleep ends at some pending deadline. */
  lemma SleepEndsAtADeadline(s: State)
    requires Reachable(s) && s.worker.AsleepUntil?
    ensures exists e :: e in s.pending && e.when == s.worker.w
  {
    ReachableInv(s);
  }

  lemma DueTaskMoves(s: State, e: Entry)
    requires LockInv(s) && WakeInv(s) && s.mutex == Free && s.worker != Exited && !s.worker.Running?
    requires e in s.pending && e.when <= s.now
    ensures Enabled(s, ReadRunning) || Enabled(s, WorkerLock) || Enabled(s, Timeout) || Enabled(s, Relock)
  {
  }

  /** So a due task never depends on a spurious wake-up: with the mutex free, a worker that is alive and
      not running a task has a step of its own. */
  lemma DueTaskIsNotSleptPast(s: State, e: Entry)
    requires Reachable(s) && s.mutex == Free && s.worker != Exited && !s.worker.Running?
    requires e in s.pending && e.when <= s.now
    ensures Enabled(s, ReadRunning) || Enabled(s, WorkerLock) || Enabled(s, Timeout) || Enabled(s, Relock)
  {
    ReachableInv(s);
    DueTaskMoves(s, e);
  }

  /** How many of its own steps separate a worker from popping a due task. */
  function Distance(w: Worker): nat {
    match w
    case Decide(_) => 1
    case Inspect => 2
    case Enter => 3
    case Check => 4
    case TestPredicate => 5
    case WokenTimed => 5
    case _ => 6
  }

  /** The worker is on its way to a due task and nobody is in its way. */
  ghost predicate OnItsWay(s: State, e: Entry) {
    && s.running && !s.mutex.HeldByCaller? && LockInv(s) && WakeInv(s) && e in s.pending && e.when <= s.now
    && s.worker != Exited && !s.worker.Running? && (s.worker.Decide? ==> e.when <= s.worker.seen)
  }

  lemma {:induction false} TopExists(pending: multiset<Entry>) returns (top: Entry)
    requires pending != multiset{}
    ensures IsTop(pending, top)
    decreases |pending|
  {
    var first :| first in pending;
    var rest := pending - multiset{first};
    top := first;
    if rest == multiset{} {
      assert pending == multiset{first} + rest;
    } else {
      var other := TopExists(rest);
      top := if other.when < first.when then other else first;
      assert other in pending;
      forall e | e in pending ensures top.when <= e.when {
        if e != first {
          assert e in rest;
        }
      }
    }
  }

  lemma MoveOn(s: State, e: Entry) returns (step: Step)
    requires OnItsWay(s, e)
    ensures WorkerOwn(step) && Enabled(s, step)
    ensures s.worker.Decide? ==> Apply(s, step).worker.Running? && Apply(s, step).worker.entry.when <= e.when
    ensures !s.worker.Decide? ==>
      OnItsWay(Apply(s, step), e) && Distance(Apply(s, step).worker) < Distance(s.worker)
  {
    match s.worker {
      case Decide(_) =>
        var top := TopExists(s.pending);
        step := Compare(top);
      case Check => step := ReadRunning;
      case Enter => step := WorkerLock;
      case Inspect => step := LookAtQueue;
      case TestPredicate => step := EvaluatePredicate;
      case AsleepUntil(_) => step := Timeout;
      case _ => step := Relock;
    }
  }

  /** The worker alone, on its own steps, gets from `s` to starting a task at least as urgent as `e`. */
  ghost predicate LeadsToStart(s: State, e: Entry, steps: seq<Step>) {
    && IsRun(s, steps) && (forall step :: step in steps ==> WorkerOwn(step))
    && Run(s, steps).worker.Running? && Run(s, steps).worker.entry.when <= e.when
  }

  lemma {:induction false} ReachesPop(s: State, e: Entry) returns (steps: seq<Step>)
    requires OnItsWay(s, e)
    ensures LeadsToStart(s, e, steps) && |steps| <= Distance(s.worker)
    decreases Distance(s.worker)
  {
    var step := MoveOn(s, e);
    var rest: seq<Step> := [];
    if !s.worker.Decide? {
      rest := ReachesPop(Apply(s, step), e);
    }
    steps := [step] + rest;
    assert steps[1..] == rest;
  }

  /** Left to itself, a live and idle worker starts a task at least as urgent as any due one within six
      steps of its own, none of them a spurious wake-up. */
  lemma DueTaskStartsWithinSixSteps(s: State, e: Entry)
    requires Reachable(s) && s.running && s.mutex == Free && s.worker != Exited && !s.worker.Running?
    requires e in s.pending && e.when <= s.now
    ensures exists steps :: LeadsToStart(s, e, steps) && |steps| <= 6
  {
    ReachableInv(s);
    var steps := ReachesPop(s, e);
    assert LeadsToStart(s, e, steps) && |steps| <= 6;
  }

  // ----- What an undisturbed worker does -----

  /** `t` is reached from `s` by at most n steps of the worker's own. */
  ghost predicate Alone(s: State, t: State, n: nat) {
    exists steps :: IsRun(s, steps) && Run(s, steps) == t && |steps| <= n && forall step :: step in steps ==> WorkerOwn(step)
  }

  lemma AloneItself(s: State)
    ensures Alone(s, s, 0)
  {
    var none: seq<Step> := [];
    assert IsRun(s, none) && Run(s, none) == s && forall step :: step in none ==> WorkerOwn(step);
  }

  lemma AloneCons(s: State, step: Step, t: State, n: nat)
    requires WorkerOwn(step) && Enabled(s, step) && Alone(Apply(s, step), t, n)
    ensures Alone(s, t, n + 1)
  {
    var later :| IsRun(Apply(s, step), later) && Run(Apply(s, step), later) == t && |later| <= n
                 && forall x :: x in later ==> WorkerOwn(x);
    var steps := [step] + later;
    assert steps[1..] == later;
    assert IsRun(s, steps) && Run(s, steps) == t && forall x :: x in steps ==> WorkerOwn(x);
  }

  lemma {:induction false} AloneThen(s: State, t: State, u: State, n: nat, m: nat)
    requires Alone(s, t, n) && Alone(t, u, m)
    ensures Alone(s, u, n + m)
    decreases n
  {
    var steps :| IsRun(s, steps) && Run(s, steps) == t && |steps| <= n && forall x :: x in steps ==> WorkerOwn(x);
    if steps == [] {
      var later :| IsRun(t, later) && Run(t, later) == u && |later| <= m && forall x :: x in later ==> WorkerOwn(x);
      assert IsRun(s, later) && |later| <= n + m;
    } else {
      assert steps[0] in steps;
      assert Alone(Apply(s, steps[0]), t, n - 1) by {
        assert forall x :: x in steps[1..] ==> x in steps;
        assert IsRun(Apply(s, steps[0]), steps[1..]) && Run(Apply(s, steps[0]), steps[1..]) == t && |steps[1..]| <= n - 1;
      }
      AloneThen(Apply(s, steps[0]), t, u, n - 1, m);
      AloneCons(s, steps[0], u, n - 1 + m);
    }
  }

  predicate SomeDue(pending: multiset<Entry>, at: int) {
    exists e :: e in pending && e.when <= at
  }

  /** Nobody is in the worker's way, and what it knows of the clock is current. */
  ghost predicate Undisturbed(s: State) {
    && s.running && !s.mutex.HeldByCaller? && LockInv(s) && WakeInv(s) && SleepInv(s)
    && s.worker != Exited && !s.worker.Running? && (s.worker.Decide? ==> s.worker.seen == s.now)
  }

  /** Where the worker of `s` comes to rest: running a top that is due, or asleep until the top, or asleep
      without a deadline. */
  ghost predicate Settled(s: State, t: State) {
    && t == s.(mutex := Free, worker := t.worker, pending := t.pending, log := t.log)
    && if SomeDue(s.pending, s.now) then
         && t.worker.Running? && IsTop(s.pending, t.worker.entry) && t.worker.entry.when <= s.now
         && t.pending == s.pending - multiset{t.worker.entry} && t.log == s.log + [Popped(t.worker.entry, s.now)]
       else
         && t.pending == s.pending && t.log == s.log
         && if s.pending == multiset{} then t.worker == Asleep
            else t.worker.AsleepUntil? && exists top :: IsTop(s.pending, top) && t.worker.w == top.when
  }

  predicate AtRest(s: State) {
    s.worker == Asleep || (s.worker.AsleepUntil? && !SomeDue(s.pending, s.now))
  }

  function StepsToRest(s: State): nat {
    var empty := s.pending == multiset{};
    match s.worker
    case Asleep => 0
    case AsleepUntil(_) => if AtRest(s) then 0 else 6
    case Decide(_) => 1
    case AboutToBlock => 1
    case Inspect => if empty then 3 else 2
    case Enter => if empty then 4 else 3
    case Check => if empty then 5 else 4
    case TestPredicate => if empty then 2 else 5
    case Woken => if empty then 3 else 6
    case WokenTimed => if empty then 6 else 5
    case _ => 6
  }

  lemma CompareSettles(s: State) returns (top: Entry)
    requires Undisturbed(s) && s.worker.Decide?
    ensures IsTop(s.pending, top) && Settled(s, Apply(s, Compare(top)))
  {
    top := TopExists(s.pending);
    assert SomeDue(s.pending, s.now) <==> top.when <= s.now;
  }

  lemma AloneMore(s: State, t: State, n: nat, m: nat)
    requires Alone(s, t, n) && n <= m
    ensures Alone(s, t, m)
  {
    var steps :| IsRun(s, steps) && Run(s, steps) == t && |steps| <= n && forall x :: x in steps ==> WorkerOwn(x);
    assert |steps| <= m;
  }

  /** Between two looks at the queue the worker gets one step nearer to its rest. */
  lemma SettleMoves(s: State) returns (step: Step)
    requires Undisturbed(s) && !AtRest(s) && !s.worker.Decide?
    ensures WorkerOwn(step) && Enabled(s, step) && Undisturbed(Apply(s, step))
    ensures Apply(s, step) == s.(mutex := Apply(s, step).mutex, worker := Apply(s, step).worker)
    ensures StepsToRest(Apply(s, step)) < StepsToRest(s)
  {
    match s.worker {
      case Check => step := ReadRunning;
      case Enter => step := WorkerLock;
      case Inspect => step := LookAtQueue;
      case TestPredicate => step := EvaluatePredicate;
      case AboutToBlock => step := Block;
      case AsleepUntil(_) =>
        var e :| e in s.pending && e.when <= s.now;
        step := Timeout;
      case _ => step := Relock;
    }
  }

  lemma RestIsSettled(s: State)
    requires Undisturbed(s) && AtRest(s)
    ensures Settled(s, s)
  {
    if s.worker.AsleepUntil? {
      var top :| top in s.pending && top.when == s.worker.w;
      assert IsTop(s.pending, top);
    }
  }

  lemma {:induction false} Settle(s: State) returns (t: State)
    requires Undisturbed(s)
    ensures Alone(s, t, StepsToRest(s)) && Settled(s, t)
    decreases StepsToRest(s)
  {
    if AtRest(s) {
      t := s;
      RestIsSettled(s);
      AloneItself(s);
    } else if s.worker.Decide? {
      var top := CompareSettles(s);
      t := Apply(s, Compare(top));
      AloneItself(t);
      AloneCons(s, Compare(top), t, 0);
    } else {
      var step := SettleMoves(s);
      t := Settle(Apply(s, step));
      AloneCons(s, step, t, StepsToRest(Apply(s, step)));
      AloneMore(s, t, StepsToRest(Apply(s, step)) + 1, StepsToRest(s));
    }
  }

  /** A live and idle worker, left to itself, comes to rest within six steps: it runs the most urgent task
      if one is due, sleeps exactly until the least deadline if none is, and without one on an empty queue. */
  lemma WorkerSettlesWithinSixSteps(s: State)
    requires Reachable(s) && s.running && s.mutex == Free && s.worker != Exited && !s.worker.Running?
    ensures exists t :: Alone(s, t, 6) && Settled(s, t)
  {
    ReachableInv(s);
    var t := Settle(s);
    AloneMore(s, t, StepsToRest(s), 6);
  }

  lemma {:induction false} RunThen(s: State, first: seq<Step>, second: seq<Step>)
    requires IsRun(s, first) && IsRun(Run(s, first), second)
    ensures IsRun(s, first + second) && Run(s, first + second) == Run(Run(s, first), second)
    decreases |first|
  {
    if first == [] {
      assert first + second == second;
    } else {
      RunThen(Apply(s, first[0]), first[1..], second);
      assert (first + second)[1..] == first[1..] + second;
    }
  }

  lemma ReachableAlone(s: State, t: State, n: nat)
    requires Reachable(s) && Alone(s, t, n)
    ensures Reachable(t)
  {
    var now, garbage :| CanReach(Init(now, garbage), s);
    var first :| IsRun(Init(now, garbage), first) && Run(Init(now, garbage), first) == s;
    var second :| IsRun(s, second) && Run(s, second) == t && |second| <= n && forall x :: x in second ==> WorkerOwn(x);
    RunThen(Init(now, garbage), first, second);
    assert CanReach(Init(now, garbage), t);
  }

  lemma FinishServes(s: State, u: State) returns (t: State)
    requires Settled(s, u) && SomeDue(s.pending, s.now) && s.mutex == Free
    ensures Enabled(u, Finish) && t == Apply(u, Finish)
    ensures t == s.(worker := Check, pending := s.pending - multiset{u.worker.entry},
                    log := s.log + [Popped(u.worker.entry, s.now)] + [Finished(u.worker.entry)])
  {
    t := Apply(u, Finish);
  }

  /** One due task is run and finished; the queue is shorter by it. */
  lemma ServeOne(s: State) returns (t: State, n: nat, top: Entry)
    requires Reachable(s) && s.running && s.mutex == Free && s.worker != Exited && !s.worker.Running?
    requires SomeDue(s.pending, s.now)
    ensures Alone(s, t, n) && IsTop(s.pending, top) && top.when <= s.now && t.pending == s.pending - multiset{top}
    ensures t == s.(worker := Check, pending := t.pending, log := s.log + [Popped(top, s.now)] + [Finished(top)])
  {
    ReachableInv(s);
    var u := Settle(s);
    top := u.worker.entry;
    t := FinishServes(s, u);
    AloneItself(t);
    AloneCons(u, Finish, t, 0);
    n := StepsToRest(s) + 1;
    AloneThen(s, u, t, StepsToRest(s), 1);
  }

  /** Of the queue, exactly what is due at `now` has gone. */
  predicate OnlyLaterLeft(before: multiset<Entry>, after: multiset<Entry>, now: int) {
    && (forall e :: e in after ==> e in before && now < e.when)
    && forall e :: e in before && now < e.when ==> e in after
  }

  lemma OneLess(before: multiset<Entry>, top: Entry, after: multiset<Entry>, now: int)
    requires top in before && top.when <= now && OnlyLaterLeft(before - multiset{top}, after, now)
    ensures OnlyLaterLeft(before, after, now) && |before - multiset{top}| < |before|
  {
    forall e | e in before && now < e.when ensures e in after {
      assert e != top && e in before - multiset{top};
    }
  }

  lemma ServedIsPushed(log: seq<Event>, top: Entry, now: int)
    ensures PushedBag(log + [Popped(top, now)] + [Finished(top)]) == PushedBag(log)
  {
    PushedSnoc(log, Popped(top, now));
    PushedSnoc(log + [Popped(top, now)], Finished(top));
  }

  lemma {:induction false} ServeAll(s: State) returns (t: State, n: nat)
    requires Reachable(s) && s.running && s.mutex == Free && s.worker != Exited && !s.worker.Running?
    ensures Alone(s, t, n) && t.now == s.now && !t.worker.Running? && PushedBag(t.log) == PushedBag(s.log)
    ensures OnlyLaterLeft(s.pending, t.pending, s.now)
    decreases |s.pending|
  {
    if SomeDue(s.pending, s.now) {
      var u, m, top := ServeOne(s);
      ReachableAlone(s, u, m);
      ServedIsPushed(s.log, top, s.now);
      assert |u.pending| < |s.pending|;
      var k: nat;
      t, k := ServeAll(u);
      OneLess(s.pending, top, t.pending, s.now);
      n := m + k;
      AloneThen(s, u, t, m, k);
    } else {
      AloneItself(s);
      t, n := s, 0;
    }
  }

  /** Left to itself a worker runs every due task to its end and no other. */
  lemma DueTasksAllFinish(s: State)
    requires Reachable(s) && s.running && s.mutex == Free && s.worker != Exited && !s.worker.Running?
    ensures exists t, n :: Alone(s, t, n) && OnlyLaterLeft(s.pending, t.pending, s.now)
                           && forall e :: e in s.pending && e.when <= s.now ==> e in FinishedBag(t.log)
  {
    var t, n := ServeAll(s);
    ReachableAlone(s, t, n);
    TasksAreConserved(s);
    TasksAreConserved(t);
    forall e | e in s.pending && e.when <= s.now ensures e in FinishedBag(t.log) {
      assert e in PushedBag(s.log) && PushedBag(t.log)[e] == t.pending[e] + FinishedBag(t.log)[e];
    }
  }

  /** After the first store of `Stop` at most one task starts; after the join none does. */
  lemma AtMostOneStartAfterStop(s: State)
    requires Reachable(s)
    ensures StartsAfterStop(s.log) <= 1
    ensures forall p, q :: 0 <= p < q < |s.log| && s.log[p] == Joined ==> !s.log[q].Popped?
  {
    ReachableInv(s);
  }

  lemma OneMoreStart(log: seq<Event>, top: Entry, at: int)
    requires StartsAfterStop(log) == 0
    ensures StartsAfterStop(log + [StopStored] + [Popped(top, at)]) == 1
  {
    var stored := log + [StopStored];
    assert stored[..|log|] == log;
    assert (stored + [Popped(top, at)])[..|stored|] == stored && stored[|log|] == StopStored;
  }

  /** The bound is tight: a worker already past the loop condition takes a due task after the store. */
  lemma OneStartAfterStopHappens(s: State, top: Entry)
    requires Reachable(s) && s.constructed && s.running && s.worker == Enter && s.mutex == Free
    requires IsTop(s.pending, top) && top.when <= s.now
    ensures exists t :: CanReach(s, t) && StartsAfterStop(t.log) == 1
  {
    assert FlagInv(s) && BoundInv(s) by {
      ReachableInv(s);
    }
    var log := s.log + [StopStored];
    var stored := s.(running := false, log := log);
    var locked := stored.(mutex := HeldByWorker, worker := Inspect);
    var looked := locked.(worker := Decide(s.now));
    var popped := stored.(mutex := Free, worker := Running(top), pending := s.pending - multiset{top},
                          log := log + [Popped(top, s.now)]);
    ReachesItself(s);
    ReachesNext(s, s, StopStore, stored);
    ReachesNext(s, stored, WorkerLock, locked);
    ReachesNext(s, locked, LookAtQueue, looked);
    ReachesNext(s, looked, Compare(top), popped);
    OneMoreStart(s.log, top, s.now);
  }

  // ----- Where stop and start fall short -----

  predicate Sleeps(w: Worker) {
    w == Asleep || w.AsleepUntil?
  }

  /** The worker can get to a wait without reading `running_` again. */
  predicate CommittedToSleep(s: State) {
    match s.worker
    case AboutToBlock => true
    case Decide(seen) => !SomeDue(s.pending, seen)
    case Inspect => s.pending != multiset{} && !SomeDue(s.pending, s.now)
    case Enter => !SomeDue(s.pending, s.now)
    case _ => false
  }

  ghost predicate AwakeForGood(s: State) {
    s.constructed && !s.running && LockInv(s) && !Sleeps(s.worker) && !CommittedToSleep(s)
  }

  lemma DueStaysDue(s: State, step: Step, at: int)
    requires Enabled(s, step) && SomeDue(s.pending, at) && !step.Compare?
    ensures at <= s.now ==> SomeDue(Apply(s, step).pending, Apply(s, step).now)
    ensures SomeDue(Apply(s, step).pending, at)
  {
    var e :| e in s.pending && e.when <= at;
    assert e in Apply(s, step).pending;
  }

  lemma AwakeWorkerStep(s: State, step: Step)
    requires AwakeForGood(s) && Enabled(s, step) && WorkerOwn(step)
    ensures !Sleeps(Apply(s, step).worker) && !CommittedToSleep(Apply(s, step))
  {
    if step.Compare? {
      var e :| e in s.pending && e.when <= s.worker.seen;
      assert step.top.when <= e.when;
    }
  }

  lemma AwakeOtherStep(s: State, step: Step)
    requires AwakeForGood(s) && Enabled(s, step) && !WorkerOwn(step)
    ensures !Sleeps(Apply(s, step).worker) && !CommittedToSleep(Apply(s, step))
  {
    assert Apply(s, step).worker == s.worker;
    if s.worker.Decide? {
      DueStaysDue(s, step, s.worker.seen);
    } else if s.worker == Enter || (s.worker == Inspect && s.pending != multiset{}) {
      DueStaysDue(s, step, s.now);
    }
  }

  lemma StepFlagStays(s: State, step: Step)
    requires Enabled(s, step) && s.constructed && !s.running
    ensures Apply(s, step).constructed && !Apply(s, step).running
  {
  }

  lemma AwakeStep(s: State, step: Step)
    requires AwakeForGood(s) && Enabled(s, step)
    ensures AwakeForGood(Apply(s, step))
  {
    StepLock(s, step);
    StepFlagStays(s, step);
    if WorkerOwn(step) {
      AwakeWorkerStep(s, step);
    } else {
      AwakeOtherStep(s, step);
    }
  }

  lemma {:induction false} AwakeStaysAwake(s: State, steps: seq<Step>)
    requires AwakeForGood(s) && IsRun(s, steps)
    ensures AwakeForGood(Run(s, steps))
    decreases |steps|
  {
    if steps != [] {
      AwakeStep(s, steps[0]);
      AwakeStaysAwake(Apply(s, steps[0]), steps[1..]);
    }
  }

  /** From `s` the run can go on to a timed sleep. */
  ghost predicate LeadsToTimedSleep(s: State) {
    exists t :: CanReach(s, t) && t.worker.AsleepUntil?
  }

  lemma CompareSleeps(origin: State, s: State)
    requires CanReach(origin, s) && s.worker.Decide? && s.pending != multiset{} && !SomeDue(s.pending, s.worker.seen)
    ensures LeadsToTimedSleep(origin)
  {
    var top := TopExists(s.pending);
    ReachesNext(origin, s, Compare(top), Apply(s, Compare(top)));
  }

  lemma InspectSleeps(origin: State, s: State)
    requires CanReach(origin, s) && s.worker == Inspect && s.pending != multiset{} && !SomeDue(s.pending, s.now)
    ensures LeadsToTimedSleep(origin)
  {
    ReachesNext(origin, s, LookAtQueue, Apply(s, LookAtQueue));
    CompareSleeps(origin, Apply(s, LookAtQueue));
  }

  /** How far a caller is from leaving the queue non-empty and the mutex free. */
  function CallerRank(m: Mutex, empty: bool): nat {
    match m
    case HeldByCaller(Entered) => 4
    case HeldByCaller(Stamped(_)) => 3
    case HeldByCaller(Published) => if empty then 7 else 2
    case HeldByCaller(Notified) => if empty then 6 else 1
    case _ => if empty then 5 else 0
  }

  /** What a state needs for a worker about to lock to find a queue without a due task. */
  predicate NothingDueAhead(s: State) {
    s.constructed && s.worker == Enter && s.mutex != HeldByWorker && !SomeDue(s.pending, s.now)
  }

  lemma PushNotDue(pending: multiset<Entry>, e: Entry, now: int)
    requires !SomeDue(pending, now) && now < e.when
    ensures pending + multiset{e} != multiset{} && !SomeDue(pending + multiset{e}, now)
  {
    assert e in pending + multiset{e};
  }

  lemma CallerPushes(s: State, at: int) returns (step: Step, t: State)
    requires NothingDueAhead(s) && s.mutex == HeldByCaller(Stamped(at))
    ensures Enabled(s, step) && t == Apply(s, step) && NothingDueAhead(t)
    ensures t.pending != multiset{} && t.mutex == HeldByCaller(Published)
  {
    var e := Entry(|s.log|, s.now + 1);
    PushNotDue(s.pending, e, s.now);
    step := CallerPush(s.now - at + 1);
    t := s.(mutex := HeldByCaller(Published), pending := s.pending + multiset{e}, log := s.log + [Pushed(e)]);
  }

  lemma CallerAdvances(s: State, empty: bool) returns (step: Step, t: State)
    requires s.constructed && s.worker == Enter && s.mutex != HeldByWorker && (s.mutex != Free || empty)
    requires !(s.mutex.HeldByCaller? && s.mutex.stage.Stamped?)
    ensures Enabled(s, step) && t == Apply(s, step) && t == s.(mutex := t.mutex) && t.mutex != HeldByWorker
    ensures CallerRank(t.mutex, empty) < CallerRank(s.mutex, empty)
  {
    if s.mutex == Free {
      step, t := CallerLock, s.(mutex := HeldByCaller(Entered));
    } else if s.mutex.stage == Entered {
      step, t := CallerReadClock, s.(mutex := HeldByCaller(Stamped(s.now)));
    } else if s.mutex.stage == Published {
      step, t := CallerNotify, s.(mutex := HeldByCaller(Notified));
    } else {
      step, t := CallerUnlock, s.(mutex := Free);
    }
  }

  /** Some step brings a caller nearer; what it pushes, if anything, is not due yet. */
  lemma CallerMoves(s: State) returns (step: Step, t: State)
    requires NothingDueAhead(s) && (s.mutex != Free || s.pending == multiset{})
    ensures Enabled(s, step) && t == Apply(s, step) && NothingDueAhead(t)
    ensures CallerRank(t.mutex, t.pending == multiset{}) < CallerRank(s.mutex, s.pending == multiset{})
  {
    if s.mutex.HeldByCaller? && s.mutex.stage.Stamped? {
      step, t := CallerPushes(s, s.mutex.stage.at);
    } else {
      step, t := CallerAdvances(s, s.pending == multiset{});
    }
  }

  lemma {:induction false} EnterSleeps(origin: State, s: State)
    requires CanReach(origin, s) && NothingDueAhead(s)
    ensures LeadsToTimedSleep(origin)
    decreases CallerRank(s.mutex, s.pending == multiset{})
  {
    if s.mutex == Free && s.pending != multiset{} {
      ReachesNext(origin, s, WorkerLock, Apply(s, WorkerLock));
      InspectSleeps(origin, Apply(s, WorkerLock));
    } else {
      var step, t := CallerMoves(s);
      ReachesNext(origin, s, step, t);
      EnterSleeps(origin, t);
    }
  }

  lemma CommittedSleeps(s: State)
    requires LockInv(s) && s.constructed && CommittedToSleep(s)
    ensures exists t :: CanReach(s, t) && Sleeps(t.worker)
  {
    ReachesItself(s);
    match s.worker {
      case AboutToBlock => ReachesNext(s, s, Block, Apply(s, Block));
      case Decide(_) => CompareSleeps(s, s);
      case Inspect => InspectSleeps(s, s);
      case Enter => EnterSleeps(s, s);
    }
  }

  /** `Stop` stores and notifies without the mutex, so its notification can be lost, and a join wait for a
      sleep that begins after it. Exactly when: the worker has passed its last look at the flag, and what
      it read or will read of the queue sends it to sleep. A due task saves it, an empty queue does not,
      since a later caller may push a task for the future. */
  lemma StopMissesSleeperIff(s: State)
    requires Reachable(s) && Enabled(s, StopNotify)
    ensures (exists t :: CanReach(Apply(s, StopNotify), t) && Sleeps(t.worker)) <==> CommittedToSleep(s)
  {
    var t := Apply(s, StopNotify);
    ReachableInv(s);
    StepLock(s, StopNotify);
    if CommittedToSleep(s) {
      CommittedSleeps(t);
    } else {
      forall steps | IsRun(t, steps) ensures !Sleeps(Run(t, steps).worker) {
        AwakeStaysAwake(t, steps);
      }
    }
  }

  ghost predicate NeverUntimed(s: State) {
    s.constructed && !s.running && s.worker != Asleep && s.worker != AboutToBlock
  }

  lemma {:induction false} NeverUntimedInRun(s: State, steps: seq<Step>)
    requires NeverUntimed(s) && IsRun(s, steps)
    ensures NeverUntimed(Run(s, steps))
    decreases |steps|
  {
    if steps != [] {
      assert NeverUntimed(Apply(s, steps[0]));
      NeverUntimedInRun(Apply(s, steps[0]), steps[1..]);
    }
  }

  /** The sleep without a deadline, from which the join never returns by itself, follows exactly if the
      worker had found the wait predicate false before the store and had not blocked yet. */
  lemma StopMissesUntimedSleeperIff(s: State)
    requires Enabled(s, StopNotify)
    ensures (exists t :: CanReach(Apply(s, StopNotify), t) && t.worker == Asleep) <==> s.worker == AboutToBlock
  {
    var t := Apply(s, StopNotify);
    if s.worker == AboutToBlock {
      ReachesItself(t);
      ReachesNext(t, t, Block, Apply(t, Block));
    } else {
      forall steps | IsRun(t, steps) ensures Run(t, steps).worker != Asleep {
        NeverUntimedInRun(t, steps);
      }
    }
  }

  function StepsToExit(w: Worker): nat {
    match w
    case Exited => 0
    case Check => 1
    case TestPredicate => 2
    case Running(_) => 2
    case Woken => 3
    case WokenTimed => 2
    case Decide(_) => 3
    case Inspect => 4
    case _ => 5
  }

  lemma ExitMoves(s: State) returns (step: Step)
    requires AwakeForGood(s) && !s.mutex.HeldByCaller? && s.worker != Exited
    ensures WorkerOwn(step) && Enabled(s, step) && !Apply(s, step).mutex.HeldByCaller?
    ensures StepsToExit(Apply(s, step).worker) < StepsToExit(s.worker)
  {
    match s.worker {
      case Check => step := ReadRunning;
      case Enter => step := WorkerLock;
      case Inspect => step := LookAtQueue;
      case Decide(seen) =>
        var top := TopExists(s.pending);
        var e :| e in s.pending && e.when <= seen;
        step := Compare(top);
      case TestPredicate => step := EvaluatePredicate;
      case Running(_) => step := Finish;
      case _ => step := Relock;
    }
  }

  lemma {:induction false} LeavesSoon(s: State) returns (t: State)
    requires AwakeForGood(s) && !s.mutex.HeldByCaller?
    ensures Alone(s, t, StepsToExit(s.worker)) && t.worker == Exited
    decreases StepsToExit(s.worker)
  {
    if s.worker == Exited {
      t := s;
      AloneItself(s);
    } else {
      var step := ExitMoves(s);
      AwakeStep(s, step);
      t := LeavesSoon(Apply(s, step));
      AloneCons(s, step, t, StepsToExit(Apply(s, step).worker));
      AloneMore(s, t, StepsToExit(Apply(s, step).worker) + 1, StepsToExit(s.worker));
    }
  }

  lemma NotifiedStaysAwake(s: State)
    requires LockInv(s) && Enabled(s, StopNotify) && !CommittedToSleep(s)
    ensures AwakeForGood(Apply(s, StopNotify)) && StepsToExit(Apply(s, StopNotify).worker) <= 5
  {
    StepLock(s, StopNotify);
  }

  /** In all other positions the worker, once notified and undisturbed, leaves its loop within five steps of
      its own, the end of a task it may be running included; so the join returns. */
  lemma StoppedWorkerLeavesWithinFiveSteps(s: State)
    requires Reachable(s) && Enabled(s, StopNotify) && !CommittedToSleep(s) && !s.mutex.HeldByCaller?
    ensures exists t :: Alone(Apply(s, StopNotify), t, 5) && t.worker == Exited
  {
    ReachableInv(s);
    NotifiedStaysAwake(s);
    var t := Apply(s, StopNotify);
    var u := LeavesSoon(t);
    AloneMore(t, u, StepsToExit(t.worker), 5);
  }

  ghost predicate StopExplainsExit(s: State) {
    && (s.worker == Exited ==> StopStored in s.log)
    && (s.running || StopStored in s.log)
  }

  lemma {:induction false} StopExplainsExitInRun(s: State, steps: seq<Step>)
    requires StopExplainsExit(s) && IsRun(s, steps)
    ensures StopExplainsExit(Run(s, steps))
    decreases |steps|
  {
    if steps != [] {
      assert StopExplainsExit(Apply(s, steps[0]));
      StopExplainsExitInRun(Apply(s, steps[0]), steps[1..]);
    }
  }

  /** The thread member is initialised before `running_`. Exactly when the uninitialised flag reads
      false can the worker leave its loop although nobody called `Stop`. */
  lemma WorkerCanQuitBeforeStopIff(now: int, garbage: bool)
    ensures (exists t :: CanReach(Init(now, garbage), t) && t.worker == Exited && StopStored !in t.log) <==> !garbage
  {
    var s := Init(now, garbage);
    if garbage {
      forall steps | IsRun(s, steps) ensures StopExplainsExit(Run(s, steps)) {
        StopExplainsExitInRun(s, steps);
      }
    } else {
      ReachesItself(s);
      ReachesNext(s, s, ReadRunning, Apply(s, ReadRunning));
    }
  }

  // ----- The same steps on mutable fields -----

  /** The effect of one whole critical section of `Schedule`. */
  function Section(s: State, delay: int): State {
    var e := Entry(|s.log|, s.now + delay);
    s.(worker := Wake(s.worker), pending := s.pending + multiset{e}, log := s.log + [Pushed(e)])
  }

  lemma SectionReaches(s: State, delay: int)
    requires s.constructed && s.mutex == Free
    ensures CanReach(s, Section(s, delay))
  {
    var locked := s.(mutex := HeldByCaller(Entered));
    var stamped := s.(mutex := HeldByCaller(Stamped(s.now)));
    var e := Entry(|s.log|, s.now + delay);
    var pushed := s.(mutex := HeldByCaller(Published), pending := s.pending + multiset{e}, log := s.log + [Pushed(e)]);
    var notified := pushed.(mutex := HeldByCaller(Notified), worker := Wake(s.worker));
    ReachesItself(s);
    ReachesNext(s, s, CallerLock, locked);
    ReachesNext(s, locked, CallerReadClock, stamped);
    ReachesNext(s, stamped, CallerPush(delay), pushed);
    ReachesNext(s, pushed, CallerNotify, notified);
    ReachesNext(s, notified, CallerUnlock, Section(s, delay));
  }

  lemma RemoveAt(tasks: seq<Entry>, k: nat)
    requires k < |tasks|
    ensures multiset(tasks[..k] + tasks[k + 1..]) == multiset(tasks) - multiset{tasks[k]}
  {
    assert tasks == tasks[..k] + [tasks[k]] + tasks[k + 1..];
  }

  class ThreadScheduler {
    var tasks: seq<Entry>
    var running: bool
    var mutex: Mutex
    var worker: Worker
    var now: int
    var constructed: bool
    var log: seq<Event>

    ghost function View(): State
      reads this
    {
      State(now, constructed, running, mutex, worker, multiset(tasks), log)
    }

    /** The members exist and the thread runs, but `running_` still holds whatever was in memory. */
    constructor Allocate(now: int, garbage: bool)
      ensures View() == Init(now, garbage) && tasks == []
    {
      this.now, constructed, running, mutex, worker := now, false, garbage, Free, Check;
      tasks, log := [], [];
    }

    method FinishConstruction()
      requires Enabled(View(), Construct)
      modifies this
      ensures View() == Apply(old(View()), Construct) && tasks == old(tasks)
    {
      constructed, running := true, true;
    }

    /** One uninterrupted critical section of a caller. */
    method Schedule(delay: int)
      requires constructed && mutex == Free
      modifies this
      ensures tasks == old(tasks) + [Entry(|old(log)|, now + delay)] && worker == Wake(old(worker))
      ensures View() == Section(old(View()), delay) && CanReach(old(View()), View())
    {
      SectionReaches(View(), delay);
      mutex := HeldByCaller(Entered);
      mutex := HeldByCaller(Stamped(now));
      var e := Entry(|log|, mutex.stage.at + delay);
      tasks, log, mutex := tasks + [e], log + [Pushed(e)], HeldByCaller(Published);
      worker, mutex := Wake(worker), HeldByCaller(Notified);
      mutex := Free;
    }

    /** The store and the notification of `Stop`, which take no lock. */
    method StopWithoutJoin()
      requires constructed
      modifies this
      ensures !running && worker == Wake(old(worker)) && CanReach(old(View()), View())
      ensures unchanged(`now, `tasks, `mutex, `constructed)
    {
      running, log := false, log + [StopStored];
      ReachesItself(old(View()));
      ReachesNext(old(View()), old(View()), StopStore, View());
      ghost var stored := View();
      worker := Wake(worker);
      ReachesNext(old(View()), stored, StopNotify, View());
    }

    /** The position of a least deadline. */
    method Top() returns (k: nat)
      requires tasks != []
      ensures k < |tasks| && IsTop(multiset(tasks), tasks[k])
    {
      k := 0;
      for i := 1 to |tasks|
        invariant k < |tasks|
        invariant forall j :: 0 <= j < i ==> tasks[k].when <= tasks[j].when
      {
        if tasks[i].when < tasks[k].when {
          k := i;
        }
      }
      forall e | e in multiset(tasks) ensures tasks[k].when <= e.when {
        var j :| 0 <= j < |tasks| && tasks[j] == e;
      }
    }

    method PopTop(k: nat, seen: int)
      requires k < |tasks|
      modifies `tasks, `mutex, `worker, `log
      ensures multiset(tasks) == multiset(old(tasks)) - multiset{old(tasks)[k]}
      ensures mutex == Free && worker == Running(old(tasks)[k]) && log == old(log) + [Popped(old(tasks)[k], seen)]
    {
      var top := tasks[k];
      var rest := tasks[..k] + tasks[k + 1..];
      RemoveAt(tasks, k);
      tasks := rest;
      mutex, worker, log := Free, Running(top), log + [Popped(top, seen)];
    }

    /** The comparison, pop and unlock of the worker, with the clock value it read. */
    method CompareTop(seen: int) returns (step: Step)
      requires worker == Decide(seen) && tasks != []
      modifies this
      ensures Enabled(old(View()), step) && View() == Apply(old(View()), step) && step.Compare?
      ensures if step.top.when <= seen then
                worker == Running(step.top) && multiset(tasks) == multiset(old(tasks)) - multiset{step.top}
                && log == old(log) + [Popped(step.top, seen)]
              else worker == AsleepUntil(step.top.when) && tasks == old(tasks) && log == old(log)
    {
      var k := Top();
      var top := tasks[k];
      step := Compare(top);
      if top.when <= seen {
        PopTop(k, seen);
      } else {
        mutex, worker := Free, AsleepUntil(top.when);
      }
    }

    /** The worker's next step while it holds the mutex. */
    method LockedStep() returns (step: Step)
      requires worker in {Inspect, TestPredicate, AboutToBlock}
      modifies this
      ensures Enabled(old(View()), step) && View() == Apply(old(View()), step)
    {
      match worker {
        case Inspect =>
          step, worker := LookAtQueue, if tasks == [] then TestPredicate else Decide(now);
        case TestPredicate =>
          step := EvaluatePredicate;
          if tasks != [] || !running {
            mutex, worker := Free, Check;
          } else {
            worker := AboutToBlock;
          }
        case AboutToBlock =>
          step, mutex, worker := Block, Free, Asleep;
      }
    }

    /** Whatever the worker does next, if it can move at all. */
    method WorkerStep() returns (step: Step)
      requires worker in {Enter, Woken, WokenTimed} ==> mutex == Free
      requires worker != Exited && worker != Asleep && (worker.AsleepUntil? ==> worker.w <= now)
      requires worker.Decide? ==> tasks != []
      modifies this
      ensures Enabled(old(View()), step) && View() == Apply(old(View()), step)
    {
      match worker {
        case Check =>
          step, worker := ReadRunning, if running then Enter else Exited;
        case Enter =>
          step, mutex, worker := WorkerLock, HeldByWorker, Inspect;
        case Decide(seen) =>
          step := CompareTop(seen);
        case AsleepUntil(_) =>
          step, worker := Timeout, WokenTimed;
        case Woken =>
          step, mutex, worker := Relock, HeldByWorker, TestPredicate;
        case WokenTimed =>
          step, worker := Relock, Check;
        case Running(entry) =>
          step, worker, log := Finish, Check, log + [Finished(entry)];
        case Inspect =>
          step := LockedStep();
        case TestPredicate =>
          step := LockedStep();
        case AboutToBlock =>
          step := LockedStep();
      }
    }
  }
}
