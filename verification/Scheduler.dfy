/** The frame scheduler: `Update` sweeps the task vector once per server frame, running due tasks and
    erasing each one after it returned. An exception leaves the sweep and is caught by the frame loop. */
module Scheduling {

  /** A scheduled task; `id` numbers the calls of `Schedule`. */
  datatype Timed = Timed(id: nat, when: int)

  /** One call of a task's function, and whether it threw. */
  datatype Attempt = Attempt(task: Timed, at: int, threw: bool)

  datatype Sweep = Sweep(kept: seq<Timed>, attempts: seq<Attempt>)

  /** One sweep, where the tasks whose ids are in `failing` throw when they are called. */
  function SweepOf(tasks: seq<Timed>, now: int, failing: set<nat>): Sweep {
    if tasks == [] then Sweep([], [])
    else if tasks[0].when > now then
      var rest := SweepOf(tasks[1..], now, failing);
      Sweep([tasks[0]] + rest.kept, rest.attempts)
    else if tasks[0].id in failing then Sweep(tasks, [Attempt(tasks[0], now, true)])
    else
      var rest := SweepOf(tasks[1..], now, failing);
      Sweep(rest.kept, [Attempt(tasks[0], now, false)] + rest.attempts)
  }

  // ----- The independent description: a stable partition up to the first failure -----

  /** Where the sweep is cut off: the first due task that throws. */
  function Cut(tasks: seq<Timed>, now: int, failing: set<nat>): (c: nat)
    ensures c <= |tasks|
    ensures forall i :: 0 <= i < c ==> tasks[i].when > now || tasks[i].id !in failing
    ensures c < |tasks| ==> tasks[c].when <= now && tasks[c].id in failing
  {
    if tasks == [] || (tasks[0].when <= now && tasks[0].id in failing) then 0
    else 1 + Cut(tasks[1..], now, failing)
  }

  /** The tasks that are due, or those that are not, in their order. */
  function Select(tasks: seq<Timed>, now: int, due: bool): seq<Timed> {
    if tasks == [] then []
    else (if (tasks[0].when <= now) == due then [tasks[0]] else []) + Select(tasks[1..], now, due)
  }

  function Calls(tasks: seq<Timed>, now: int): seq<Attempt> {
    if tasks == [] then [] else [Attempt(tasks[0], now, false)] + Calls(tasks[1..], now)
  }

  lemma SplitHead(tasks: seq<Timed>, c: nat)
    requires 0 < c <= |tasks|
    ensures tasks[..c] != [] && tasks[..c][0] == tasks[0] && tasks[..c][1..] == tasks[1..][..c - 1]
    ensures tasks[c..] == tasks[1..][c - 1..]
  {
  }

  lemma Associate<T>(a: seq<T>, b: seq<T>, c: seq<T>)
    ensures a + (b + c) == a + b + c
  {
  }

  lemma {:induction false} KeptPart(tasks: seq<Timed>, now: int, failing: set<nat>)
    ensures var c := Cut(tasks, now, failing);
            SweepOf(tasks, now, failing).kept == Select(tasks[..c], now, false) + tasks[c..]
  {
    var c := Cut(tasks, now, failing);
    if c == 0 {
      assert tasks[..c] == [] && tasks[c..] == tasks;
    } else {
      var rest := tasks[1..];
      KeptPart(rest, now, failing);
      SplitHead(tasks, c);
      var later := Select(rest[..c - 1], now, false);
      if tasks[0].when > now {
        Associate([tasks[0]], later, rest[c - 1..]);
      } else {
        assert [] + later == later;
      }
    }
  }

  lemma {:induction false} CalledPart(tasks: seq<Timed>, now: int, failing: set<nat>)
    ensures var c := Cut(tasks, now, failing);
            SweepOf(tasks, now, failing).attempts
            == Calls(Select(tasks[..c], now, true), now) + (if c < |tasks| then [Attempt(tasks[c], now, true)] else [])
  {
    var c := Cut(tasks, now, failing);
    if c == 0 {
      assert tasks[..c] == [];
    } else {
      CalledPart(tasks[1..], now, failing);
      SplitHead(tasks, c);
      var rest := Select(tasks[..c][1..], now, true);
      if tasks[0].when > now {
        assert [] + rest == rest;
      } else {
        assert ([tasks[0]] + rest)[1..] == rest;
      }
    }
  }

  /** Before the cut, due tasks run once in insertion order and leave, the others stay in order. From
      the cut on nothing is touched; the throwing task was called and is kept. */
  lemma SweepIsAStablePartition(tasks: seq<Timed>, now: int, failing: set<nat>)
    ensures var c := Cut(tasks, now, failing);
            && SweepOf(tasks, now, failing).kept == Select(tasks[..c], now, false) + tasks[c..]
            && SweepOf(tasks, now, failing).attempts
               == Calls(Select(tasks[..c], now, true), now) + (if c < |tasks| then [Attempt(tasks[c], now, true)] else [])
  {
    KeptPart(tasks, now, failing);
    CalledPart(tasks, now, failing);
  }

  // ----- The erase loop -----

  /** What a sweep leaves behind: the vector, the log, and whether an exception ended it. */
  datatype Outcome = Outcome(tasks: seq<Timed>, log: seq<Attempt>, threw: bool)

  /** The loop from position `it` on, one iteration at a time. */
  function Loop(tasks: seq<Timed>, it: nat, log: seq<Attempt>, now: int, failing: set<nat>): Outcome
    requires it <= |tasks|
    decreases |tasks| - it
  {
    if it == |tasks| then Outcome(tasks, log, false)
    else if tasks[it].when > now then Loop(tasks, it + 1, log, now, failing)
    else if tasks[it].id in failing then Outcome(tasks, log + [Attempt(tasks[it], now, true)], true)
    else Loop(tasks[..it] + tasks[it + 1..], it, log + [Attempt(tasks[it], now, false)], now, failing)
  }

  lemma ErasedRest(tasks: seq<Timed>, it: nat)
    requires it < |tasks|
    ensures tasks[it..] == [tasks[it]] + tasks[it + 1..] && tasks[..it] + [tasks[it]] == tasks[..it + 1]
    ensures (tasks[..it] + tasks[it + 1..])[..it] == tasks[..it]
    ensures (tasks[..it] + tasks[it + 1..])[it..] == tasks[it + 1..]
  {
  }

  /** Erasing while iterating sweeps what is ahead and keeps what was passed over. */
  lemma {:induction false} LoopSweeps(tasks: seq<Timed>, it: nat, log: seq<Attempt>, now: int, failing: set<nat>)
    requires it <= |tasks|
    ensures var sweep := SweepOf(tasks[it..], now, failing);
      Loop(tasks, it, log, now, failing)
      == Outcome(tasks[..it] + sweep.kept, log + sweep.attempts, Cut(tasks[it..], now, failing) < |tasks| - it)
    decreases |tasks| - it
  {
    if it < |tasks| {
      ErasedRest(tasks, it);
      var rest := SweepOf(tasks[it + 1..], now, failing);
      if tasks[it].when > now {
        LoopSweeps(tasks, it + 1, log, now, failing);
        Associate(tasks[..it], [tasks[it]], rest.kept);
      } else if tasks[it].id !in failing {
        var call := [Attempt(tasks[it], now, false)];
        LoopSweeps(tasks[..it] + tasks[it + 1..], it, log + call, now, failing);
        Associate(log, call, rest.attempts);
      }
    }
  }

  // ----- Sequences of frames -----

  datatype Op = Schedule(now: int, delay: int) | Frame(now: int, failing: set<nat>) | Clear

  /** The fields of the scheduler, with the tasks that `Clear` dropped. */
  datatype State = State(tasks: seq<Timed>, scheduled: seq<Timed>, cleared: multiset<Timed>, log: seq<Attempt>)

  function Apply(s: State, op: Op): State {
    match op
    case Schedule(now, delay) =>
      var task := Timed(|s.scheduled|, now + delay);
      s.(tasks := s.tasks + [task], scheduled := s.scheduled + [task])
    case Frame(now, failing) =>
      var sweep := SweepOf(s.tasks, now, failing);
      s.(tasks := sweep.kept, log := s.log + sweep.attempts)
    case Clear => s.(tasks := [], cleared := s.cleared + multiset(s.tasks))
  }

  function Run(s: State, ops: seq<Op>): State
    decreases |ops|
  {
    if ops == [] then s else Run(Apply(s, ops[0]), ops[1..])
  }

  const EMPTY := State([], [], multiset{}, [])

  class Scheduler {
    var tasks: seq<Timed>
    var scheduled: seq<Timed>
    var cleared: multiset<Timed>
    var log: seq<Attempt>

    ghost function View(): State
      reads this
    {
      State(tasks, scheduled, cleared, log)
    }

    constructor ()
      ensures View() == EMPTY
    {
      tasks, scheduled, cleared, log := [], [], multiset{}, [];
    }

    method Schedule(now: int, delay: int)
      modifies this
      ensures View() == Apply(old(View()), Op.Schedule(now, delay))
      ensures tasks == old(tasks) + [Timed(|old(scheduled)|, now + delay)] && unchanged(`log, `cleared)
    {
      var task := Timed(|scheduled|, now + delay);
      tasks, scheduled := tasks + [task], scheduled + [task];
    }

    /** One frame; the result says whether an exception left the sweep. */
    method Update(now: int, failing: set<nat>) returns (threw: bool)
      modifies `tasks, `log
      ensures View() == Apply(old(View()), Frame(now, failing))
      ensures threw <==> Cut(old(tasks), now, failing) < |old(tasks)|
    {
      ghost var whole := Loop(tasks, 0, log, now, failing);
      LoopSweeps(tasks, 0, log, now, failing);
      assert tasks[0..] == tasks && tasks[..0] == [];
      var it := 0;
      while it < |tasks|
        invariant 0 <= it <= |tasks| && Loop(tasks, it, log, now, failing) == whole
        decreases |tasks| - it
      {
        var task := tasks[it];
        if task.when <= now {
          if task.id in failing {
            log := log + [Attempt(task, now, true)];
            return true;
          }
          log := log + [Attempt(task, now, false)];
          tasks := tasks[..it] + tasks[it + 1..];
        } else {
          it := it + 1;
        }
      }
      return false;
    }

    method Clear()
      modifies this
      ensures View() == Apply(old(View()), Op.Clear)
      ensures tasks == [] && cleared == old(cleared) + multiset(old(tasks)) && unchanged(`log, `scheduled)
    {
      tasks, cleared := [], cleared + multiset(tasks);
    }
  }

  function Completed(log: seq<Attempt>): multiset<Timed> {
    if log == [] then multiset{}
    else Completed(log[..|log| - 1]) + (if log[|log| - 1].threw then multiset{} else multiset{log[|log| - 1].task})
  }

  predicate Increasing(tasks: seq<Timed>) {
    forall i, j :: 0 <= i < j < |tasks| ==> tasks[i].id < tasks[j].id
  }

  ghost predicate Inv(s: State) {
    && Increasing(s.tasks)
    && (forall t :: t in s.tasks ==> t.id < |s.scheduled|)
    && (forall i :: 0 <= i < |s.log| ==> s.log[i].task.id < |s.scheduled| && s.log[i].task.when <= s.log[i].at)
    && (forall i, t :: 0 <= i < |s.log| && !s.log[i].threw && t in s.tasks ==> s.log[i].task.id != t.id)
    && (forall i, j :: 0 <= i < j < |s.log| && s.log[i].task.id == s.log[j].task.id ==> s.log[i].threw)
  }

  ghost predicate Balance(s: State) {
    multiset(s.scheduled) == multiset(s.tasks) + s.cleared + Completed(s.log)
  }

  lemma {:induction false} CompletedConcat(a: seq<Attempt>, b: seq<Attempt>)
    ensures Completed(a + b) == Completed(a) + Completed(b)
    decreases |b|
  {
    if b == [] {
      assert a + b == a;
    } else {
      assert (a + b)[..|a + b| - 1] == a + b[..|b| - 1];
      CompletedConcat(a, b[..|b| - 1]);
    }
  }

  /** A sweep keeps and calls only tasks it was given, and calls none early. */
  lemma {:induction false} SweepMembers(tasks: seq<Timed>, now: int, failing: set<nat>)
    ensures forall t :: t in SweepOf(tasks, now, failing).kept ==> t in tasks
    ensures forall a :: a in SweepOf(tasks, now, failing).attempts ==> a.task in tasks && a.at == now && a.task.when <= now
  {
    if tasks != [] {
      SweepMembers(tasks[1..], now, failing);
    }
  }

  lemma IncreasingTail(tasks: seq<Timed>)
    requires Increasing(tasks) && tasks != []
    ensures Increasing(tasks[1..]) && forall t :: t in tasks[1..] ==> tasks[0].id < t.id
  {
  }

  predicate CallsInOrder(attempts: seq<Attempt>) {
    forall i, j :: 0 <= i < j < |attempts| ==> attempts[i].task.id < attempts[j].task.id
  }

  lemma IncreasingCons(first: Timed, rest: seq<Timed>)
    requires Increasing(rest) && forall t :: t in rest ==> first.id < t.id
    ensures Increasing([first] + rest)
  {
  }

  lemma CallsInOrderCons(first: Attempt, rest: seq<Attempt>)
    requires CallsInOrder(rest) && forall a :: a in rest ==> first.task.id < a.task.id
    ensures CallsInOrder([first] + rest)
  {
  }

  lemma {:induction false} SweepKeepsOrder(tasks: seq<Timed>, now: int, failing: set<nat>)
    requires Increasing(tasks)
    ensures Increasing(SweepOf(tasks, now, failing).kept) && CallsInOrder(SweepOf(tasks, now, failing).attempts)
  {
    if tasks != [] {
      var first, rest := tasks[0], SweepOf(tasks[1..], now, failing);
      IncreasingTail(tasks);
      SweepKeepsOrder(tasks[1..], now, failing);
      SweepMembers(tasks[1..], now, failing);
      IncreasingCons(first, rest.kept);
      CallsInOrderCons(Attempt(first, now, false), rest.attempts);
    }
  }

  lemma {:induction false} SweepErasesCompleted(tasks: seq<Timed>, now: int, failing: set<nat>)
    requires Increasing(tasks)
    ensures forall a, t :: a in SweepOf(tasks, now, failing).attempts && !a.threw && t in SweepOf(tasks, now, failing).kept ==>
              a.task.id != t.id
  {
    if tasks != [] {
      IncreasingTail(tasks);
      SweepErasesCompleted(tasks[1..], now, failing);
      SweepMembers(tasks[1..], now, failing);
    }
  }

  lemma CompletedOne(a: Attempt)
    ensures Completed([a]) == if a.threw then multiset{} else multiset{a.task}
  {
    assert [a][..0] == [];
  }

  lemma {:induction false} SweepBalance(tasks: seq<Timed>, now: int, failing: set<nat>)
    ensures multiset(tasks)
            == multiset(SweepOf(tasks, now, failing).kept) + Completed(SweepOf(tasks, now, failing).attempts)
  {
    if tasks != [] {
      assert multiset(tasks) == multiset{tasks[0]} + multiset(tasks[1..]) by {
        assert tasks == [tasks[0]] + tasks[1..];
      }
      CompletedOne(Attempt(tasks[0], now, true));
      CompletedOne(Attempt(tasks[0], now, false));
      if tasks[0].when > now || tasks[0].id !in failing {
        SweepBalance(tasks[1..], now, failing);
        CompletedConcat([Attempt(tasks[0], now, false)], SweepOf(tasks[1..], now, failing).attempts);
      }
    }
  }

  lemma LaterEntries(a: seq<Attempt>, b: seq<Attempt>)
    ensures forall i :: 0 <= i < |a| ==> (a + b)[i] == a[i]
    ensures forall i :: |a| <= i < |a + b| ==> (a + b)[i] == b[i - |a|] && (a + b)[i] in b
  {
  }

  lemma FrameKeepsInv(s: State, now: int, failing: set<nat>)
    requires Inv(s)
    ensures Inv(Apply(s, Frame(now, failing)))
  {
    SweepMembers(s.tasks, now, failing);
    SweepKeepsOrder(s.tasks, now, failing);
    SweepErasesCompleted(s.tasks, now, failing);
    var t := Apply(s, Frame(now, failing));
    var sw := SweepOf(s.tasks, now, failing);
    LaterEntries(s.log, sw.attempts);
    forall i, j | 0 <= i < j < |t.log| && t.log[i].task.id == t.log[j].task.id ensures t.log[i].threw {
      if j < |s.log| {
        assert t.log[i] == s.log[i] && t.log[j] == s.log[j];
      }
    }
  }

  lemma ScheduleKeepsInv(s: State, now: int, delay: int)
    requires Inv(s)
    ensures Inv(Apply(s, Schedule(now, delay)))
  {
  }

  lemma StepBalance(s: State, op: Op)
    requires Balance(s)
    ensures Balance(Apply(s, op))
  {
    if op.Frame? {
      SweepBalance(s.tasks, op.now, op.failing);
      CompletedConcat(s.log, SweepOf(s.tasks, op.now, op.failing).attempts);
    }
  }

  lemma StepInv(s: State, op: Op)
    requires Inv(s)
    ensures Inv(Apply(s, op))
  {
    match op
    case Schedule(now, delay) => ScheduleKeepsInv(s, now, delay);
    case Frame(now, failing) => FrameKeepsInv(s, now, failing);
    case Clear =>
  }

  lemma {:induction false} RunKeepsInv(s: State, ops: seq<Op>)
    requires Inv(s) && Balance(s)
    ensures Inv(Run(s, ops)) && Balance(Run(s, ops))
    decreases |ops|
  {
    if ops != [] {
      StepInv(s, ops[0]);
      StepBalance(s, ops[0]);
      RunKeepsInv(Apply(s, ops[0]), ops[1..]);
    }
  }

  /** Over any sequence of frames, schedules and clears: no call is early, a call that did not throw is
      the last one of its task, and every scheduled task is pending, cleared or completed. */
  lemma EveryTaskCompletesAtMostOnce(ops: seq<Op>)
    ensures var s := Run(EMPTY, ops);
            && (forall i :: 0 <= i < |s.log| ==> s.log[i].task.when <= s.log[i].at)
            && (forall i, j :: 0 <= i < j < |s.log| && s.log[i].task.id == s.log[j].task.id ==> s.log[i].threw)
            && multiset(s.scheduled) == multiset(s.tasks) + s.cleared + Completed(s.log)
            && Increasing(s.tasks)
  {
    RunKeepsInv(EMPTY, ops);
  }

  // ----- Which tasks are called -----

  predicate Called(attempts: seq<Attempt>, y: Timed) {
    exists a :: a in attempts && a.task == y
  }

  /** The task y is pending and due, and no due task ahead of it throws. */
  predicate ReachedBy(tasks: seq<Timed>, now: int, failing: set<nat>, y: Timed) {
    y in tasks && y.when <= now && forall t :: t in tasks && t.id < y.id && t.when <= now ==> t.id !in failing
  }

  lemma CalledConcat(a: seq<Attempt>, b: seq<Attempt>, y: Timed)
    ensures Called(a + b, y) <==> Called(a, y) || Called(b, y)
  {
    if Called(a, y) {
      var x :| x in a && x.task == y;
      assert x in a + b;
    }
    if Called(b, y) {
      var x :| x in b && x.task == y;
      assert x in a + b;
    }
  }

  lemma CalledAlone(a: Attempt, y: Timed)
    ensures Called([a], y) <==> a.task == y
  {
    assert a in [a];
  }

  /** In front of the other tasks stands one more. */
  lemma ReachedBehind(first: Timed, rest: seq<Timed>, now: int, failing: set<nat>, y: Timed)
    requires Increasing([first] + rest)
    ensures ReachedBy([first] + rest, now, failing, y) <==>
      if y == first then first.when <= now
      else ReachedBy(rest, now, failing, y) && (first.when <= now ==> first.id !in failing)
  {
    var tasks := [first] + rest;
    assert tasks[1..] == rest;
    IncreasingTail(tasks);
    assert forall t :: t in tasks <==> t == first || t in rest;
  }

  lemma {:induction false} SweepCallsIff(tasks: seq<Timed>, now: int, failing: set<nat>, y: Timed)
    requires Increasing(tasks)
    ensures Called(SweepOf(tasks, now, failing).attempts, y) <==> ReachedBy(tasks, now, failing, y)
  {
    if tasks != [] {
      var first, rest := tasks[0], tasks[1..];
      assert tasks == [first] + rest;
      IncreasingTail(tasks);
      SweepCallsIff(rest, now, failing, y);
      ReachedBehind(first, rest, now, failing, y);
      var later := SweepOf(rest, now, failing).attempts;
      CalledAlone(Attempt(first, now, true), y);
      CalledAlone(Attempt(first, now, false), y);
      CalledConcat([Attempt(first, now, false)], later, y);
    }
  }

  ghost predicate FrameReaches(s: State, op: Op, y: Timed) {
    op.Frame? && ReachedBy(s.tasks, op.now, op.failing, y)
  }

  lemma {:induction false} LogGrows(s: State, ops: seq<Op>)
    ensures s.log <= Run(s, ops).log
    decreases |ops|
  {
    if ops != [] {
      LogGrows(Apply(s, ops[0]), ops[1..]);
    }
  }

  lemma StepCallsIff(s: State, op: Op, y: Timed)
    requires Inv(s)
    ensures s.log <= Apply(s, op).log && (Called(Apply(s, op).log[|s.log|..], y) <==> FrameReaches(s, op, y))
  {
    if op.Frame? {
      SweepCallsIff(s.tasks, op.now, op.failing, y);
      assert Apply(s, op).log[|s.log|..] == SweepOf(s.tasks, op.now, op.failing).attempts;
    } else {
      assert Apply(s, op).log[|s.log|..] == [];
    }
  }

  /** Some step of the run is a frame that gets to y. */
  ghost predicate SomeFrameReaches(s: State, ops: seq<Op>, y: Timed) {
    exists k :: 0 <= k < |ops| && FrameReaches(Run(s, ops[..k]), ops[k], y)
  }

  lemma FirstOrLater(s: State, ops: seq<Op>, y: Timed)
    requires ops != []
    ensures SomeFrameReaches(s, ops, y)
            <==> FrameReaches(s, ops[0], y) || SomeFrameReaches(Apply(s, ops[0]), ops[1..], y)
  {
    var t, rest := Apply(s, ops[0]), ops[1..];
    forall k | 1 <= k < |ops| ensures Run(s, ops[..k]) == Run(t, rest[..k - 1]) && ops[k] == rest[k - 1] {
      assert ops[..k][1..] == rest[..k - 1];
    }
    assert Run(s, ops[..0]) == s;
    if FrameReaches(s, ops[0], y) {
      assert FrameReaches(Run(s, ops[..0]), ops[0], y);
    }
    if SomeFrameReaches(t, rest, y) {
      var k :| 0 <= k < |rest| && FrameReaches(Run(t, rest[..k]), rest[k], y);
      assert FrameReaches(Run(s, ops[..k + 1]), ops[k + 1], y);
    }
  }

  /** From any state of any run on, a task is called exactly if in some frame it is pending and due and no
      due task ahead of it throws. */
  lemma {:induction false} CalledIff(s: State, ops: seq<Op>, y: Timed)
    requires Inv(s)
    ensures |s.log| <= |Run(s, ops).log| && (Called(Run(s, ops).log[|s.log|..], y) <==> SomeFrameReaches(s, ops, y))
    decreases |ops|
  {
    if ops == [] {
      assert Run(s, ops).log[|s.log|..] == [];
    } else {
      var t, rest := Apply(s, ops[0]), ops[1..];
      StepInv(s, ops[0]);
      StepCallsIff(s, ops[0], y);
      CalledIff(t, rest, y);
      LogGrows(t, rest);
      FirstOrLater(s, ops, y);
      var all := Run(t, rest).log;
      assert all[|s.log|..] == t.log[|s.log|..] + all[|t.log|..];
      CalledConcat(t.log[|s.log|..], all[|t.log|..], y);
    }
  }

  // ----- In terms of what was asked for -----

  /** The clock and the delay of every call of `Schedule`, in order; the k-th call gets the id k. */
  function Requests(ops: seq<Op>): seq<(int, int)> {
    if ops == [] then []
    else (match ops[0] case Schedule(now, delay) => [(now, delay)] case _ => []) + Requests(ops[1..])
  }

  lemma {:induction false} ScheduledAsRequested(s: State, ops: seq<Op>)
    ensures var n, asked := |s.scheduled|, Requests(ops);
      && |Run(s, ops).scheduled| == n + |asked| && s.scheduled <= Run(s, ops).scheduled
      && forall k :: 0 <= k < |asked| ==> Run(s, ops).scheduled[n + k] == Timed(n + k, asked[k].0 + asked[k].1)
    decreases |ops|
  {
    if ops != [] {
      var t, n, asked := Apply(s, ops[0]), |s.scheduled|, Requests(ops);
      ScheduledAsRequested(t, ops[1..]);
      if ops[0].Schedule? {
        forall k | 0 <= k < |asked| ensures Run(s, ops).scheduled[n + k] == Timed(n + k, asked[k].0 + asked[k].1) {
          if k == 0 {
            assert Run(s, ops).scheduled[n] == t.scheduled[n];
          } else {
            assert asked[k] == Requests(ops[1..])[k - 1];
          }
        }
      }
    }
  }

  /** Tasks in the vector and in the log are scheduled ones. */
  ghost predicate Genuine(s: State) {
    && (forall t :: t in s.tasks ==> t.id < |s.scheduled| && s.scheduled[t.id] == t)
    && (forall a :: a in s.log ==> a.task.id < |s.scheduled| && s.scheduled[a.task.id] == a.task)
  }

  lemma {:induction false} RunStaysGenuine(s: State, ops: seq<Op>)
    requires Genuine(s)
    ensures Genuine(Run(s, ops))
    decreases |ops|
  {
    if ops != [] {
      if ops[0].Frame? {
        SweepMembers(s.tasks, ops[0].now, ops[0].failing);
      }
      assert Genuine(Apply(s, ops[0]));
      RunStaysGenuine(Apply(s, ops[0]), ops[1..]);
    }
  }

  /** Over any run: a task scheduled with a delay is not called before that delay is over. */
  lemma NoCallBeforeItsDelay(ops: seq<Op>, a: Attempt)
    requires a in Run(EMPTY, ops).log
    ensures a.task.id < |Requests(ops)| && a.at >= Requests(ops)[a.task.id].0 + Requests(ops)[a.task.id].1
  {
    RunKeepsInv(EMPTY, ops);
    RunStaysGenuine(EMPTY, ops);
    ScheduledAsRequested(EMPTY, ops);
  }

  lemma {:induction false} SweepWithoutFailures(tasks: seq<Timed>, now: int, t: Timed)
    ensures t in SweepOf(tasks, now, {}).kept <==> t in tasks && now < t.when
  {
    if tasks != [] {
      SweepWithoutFailures(tasks[1..], now, t);
      assert t in tasks <==> t == tasks[0] || t in tasks[1..];
    }
  }

  /** And in a frame in which nothing throws, exactly the pending tasks whose delay is over are called and
      erased; the others stay. */
  lemma FrameCallsExactlyTheDue(ops: seq<Op>, t: Timed, now: int)
    requires t in Run(EMPTY, ops).tasks
    ensures var s := Run(EMPTY, ops); var next := Apply(s, Frame(now, {}));
      && t.id < |Requests(ops)|
      && if now < Requests(ops)[t.id].0 + Requests(ops)[t.id].1 then
           t in next.tasks && !Called(next.log[|s.log|..], t)
         else
           t !in next.tasks && Called(next.log[|s.log|..], t)
  {
    var s := Run(EMPTY, ops);
    RunKeepsInv(EMPTY, ops);
    RunStaysGenuine(EMPTY, ops);
    ScheduledAsRequested(EMPTY, ops);
    SweepCallsIff(s.tasks, now, {}, t);
    SweepWithoutFailures(s.tasks, now, t);
    assert Apply(s, Frame(now, {})).log[|s.log|..] == SweepOf(s.tasks, now, {}).attempts;
  }

  /** The log has grown, without a call of this task. */
  ghost predicate Silent(before: seq<Attempt>, after: seq<Attempt>, id: nat) {
    before <= after && forall p :: |before| <= p < |after| ==> after[p].task.id != id
  }

  ghost predicate Gone(s: State, id: nat) {
    id < |s.scheduled| && forall t :: t in s.tasks ==> t.id != id
  }

  lemma GoneStep(s: State, op: Op, id: nat)
    requires Gone(s, id)
    ensures Gone(Apply(s, op), id) && Silent(s.log, Apply(s, op).log, id)
  {
    if op.Frame? {
      SweepMembers(s.tasks, op.now, op.failing);
      LaterEntries(s.log, SweepOf(s.tasks, op.now, op.failing).attempts);
    }
  }

  /** A task that left the vector, by completion or by `Clear`, is never called again. */
  lemma {:induction false} GoneStaysGone(s: State, ops: seq<Op>, id: nat)
    requires Gone(s, id)
    ensures Silent(s.log, Run(s, ops).log, id)
    decreases |ops|
  {
    if ops != [] {
      GoneStep(s, ops[0], id);
      GoneStaysGone(Apply(s, ops[0]), ops[1..], id);
    }
  }

  lemma ClearedTasksAreNeverCalled(ops: seq<Op>, later: seq<Op>, t: Timed)
    requires t in Run(EMPTY, ops).tasks
    ensures var s := Run(EMPTY, ops); Silent(s.log, Run(Apply(s, Clear), later).log, t.id)
  {
    RunKeepsInv(EMPTY, ops);
    GoneStaysGone(Apply(Run(EMPTY, ops), Clear), later, t.id);
  }

  /** Frames in which the task x is due and throws, every time. */
  predicate KeepsFailing(x: Timed, ops: seq<Op>) {
    forall i :: 0 <= i < |ops| ==>
      ops[i] != Clear && (ops[i].Frame? ==> x.when <= ops[i].now && x.id in ops[i].failing)
  }

  lemma {:induction false} SweepBlocked(tasks: seq<Timed>, n: nat, now: int, failing: set<nat>) returns (n': nat)
    requires n < |tasks| && tasks[n].when <= now && tasks[n].id in failing
    ensures var kept := SweepOf(tasks, now, failing).kept;
            n' < |kept| && kept[n'..] == tasks[n..]
    ensures forall i :: 0 <= i < |SweepOf(tasks, now, failing).attempts| ==>
              SweepOf(tasks, now, failing).attempts[i].task in tasks[..n + 1]
  {
    if tasks[0].when <= now && tasks[0].id in failing {
      n' := n;
      assert tasks[..n + 1][0] == tasks[0];
    } else {
      n' := SweepBlocked(tasks[1..], n - 1, now, failing);
      assert tasks[1..][..n] == tasks[..n + 1][1..];
      assert tasks[..n + 1] == [tasks[0]] + tasks[..n + 1][1..];
      if tasks[0].when > now {
        var rest := SweepOf(tasks[1..], now, failing).kept;
        assert ([tasks[0]] + rest)[n' + 1..] == rest[n'..];
        n' := n' + 1;
      }
    }
  }

  lemma BlockedFrame(tasks: seq<Timed>, n: nat, y: Timed, now: int, failing: set<nat>) returns (n': nat)
    requires Increasing(tasks) && n < |tasks| && tasks[n].when <= now && tasks[n].id in failing && y in tasks[n + 1..]
    ensures var sweep := SweepOf(tasks, now, failing);
      && n' < |sweep.kept| && sweep.kept[n'] == tasks[n] && sweep.kept[n' + 1..] == tasks[n + 1..]
      && forall a :: a in sweep.attempts ==> a.task.id < y.id
  {
    n' := SweepBlocked(tasks, n, now, failing);
    var sweep := SweepOf(tasks, now, failing);
    assert sweep.kept[n'] == sweep.kept[n'..][0] == tasks[n..][0];
    assert sweep.kept[n' + 1..] == sweep.kept[n'..][1..] == tasks[n..][1..] == tasks[n + 1..];
    var b :| 0 <= b < |tasks[n + 1..]| && tasks[n + 1..][b] == y;
    forall a | a in sweep.attempts ensures a.task.id < y.id {
      var c :| 0 <= c < |tasks[..n + 1]| && tasks[..n + 1][c] == a.task;
      assert tasks[c].id < tasks[n + 1 + b].id;
    }
  }

  lemma BlockedStep(s: State, n: nat, y: Timed, op: Op) returns (n': nat)
    requires Inv(s) && n < |s.tasks| && KeepsFailing(s.tasks[n], [op]) && y in s.tasks[n + 1..]
    ensures var t := Apply(s, op);
            && n' < |t.tasks| && t.tasks[n'] == s.tasks[n] && y in t.tasks[n' + 1..] && s.log <= t.log
            && forall i :: |s.log| <= i < |t.log| ==> t.log[i].task.id != y.id
  {
    var t := Apply(s, op);
    assert [op][0] == op;
    if op.Frame? {
      n' := BlockedFrame(s.tasks, n, y, op.now, op.failing);
      LaterEntries(s.log, SweepOf(s.tasks, op.now, op.failing).attempts);
    } else {
      n' := n;
      assert t.tasks[n + 1..] == s.tasks[n + 1..] + [t.tasks[|s.tasks|]];
    }
  }

  /** The price of the abort: a task that throws in every frame keeps all tasks behind it from ever
      being called, however long they have been due. */
  lemma {:induction false} FailingTaskBlocksTheRest(s: State, n: nat, y: Timed, ops: seq<Op>)
    requires Inv(s) && n < |s.tasks| && KeepsFailing(s.tasks[n], ops) && y in s.tasks[n + 1..]
    ensures y in Run(s, ops).tasks && s.log <= Run(s, ops).log
    ensures forall i :: |s.log| <= i < |Run(s, ops).log| ==> Run(s, ops).log[i].task.id != y.id
    decreases |ops|
  {
    if ops != [] {
      var t := Apply(s, ops[0]);
      var n' := BlockedStep(s, n, y, ops[0]);
      StepInv(s, ops[0]);
      FailingTaskBlocksTheRest(t, n', y, ops[1..]);
    }
  }
}
