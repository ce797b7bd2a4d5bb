/**
 The worker pool: submitters and workers meeting on an unbuffered channel, and a
 WaitGroup.  A state is what all goroutines together have done; every statement
 of theirs that the others can see is one step, and any interleaving is a run.
 */
module WorkerPool {
  /** Who called Submit or WaitAll: a goroutine of the program, or a running task. */
  datatype Caller = Outside | Inside(task: nat)

  /** Sending from its Add to its receipt, Returned between the task's end and Done. */
  datatype Stage = Sending | Running(worker: nat) | Returned(worker: nat) | Done

  datatype Job = Job(caller: Caller, stage: Stage, starts: nat)

  datatype Waiter = Waiter(caller: Caller, awaited: nat, released: bool)

  /** Tasks are numbered in the order of their Add; a waiter awaits those before it. */
  datatype State = State(size: int, counter: int, jobs: seq<Job>, waiters: seq<Waiter>)

  datatype Step =
    | Submit(caller: Caller)
    | Receive(task: nat, worker: nat)
    | Return(task: nat)
    | Finish(task: nat)
    | WaitAll(caller: Caller)

  function NewPool(size: int): State {
    State(size, 0, [], [])
  }

  predicate OnWorker(j: Job) {
    j.stage.Running? || j.stage.Returned?
  }

  predicate Idle(s: State, w: nat) {
    forall t :: 0 <= t < |s.jobs| && OnWorker(s.jobs[t]) ==> s.jobs[t].stage.worker != w
  }

  /** Task t is inside a Submit that no worker has received. */
  predicate Submitting(s: State, t: nat) {
    exists u :: 0 <= u < |s.jobs| && s.jobs[u].stage.Sending? && s.jobs[u].caller == Inside(t)
  }

  /** Task t is inside a WaitAll that has not returned. */
  predicate Waiting(s: State, t: nat) {
    exists i :: 0 <= i < |s.waiters| && s.waiters[i].caller == Inside(t) && !s.waiters[i].released
  }

  predicate MayCall(s: State, caller: Caller) {
    caller.Inside? ==> caller.task < |s.jobs| && MayGoOn(s, caller.task)
  }

  predicate MayGoOn(s: State, t: nat)
    requires t < |s.jobs|
  {
    s.jobs[t].stage.Running? && !Submitting(s, t) && !Waiting(s, t)
  }

  predicate Enabled(s: State, step: Step) {
    match step
    case Submit(caller) => MayCall(s, caller)
    case Receive(t, w) => t < |s.jobs| && s.jobs[t].stage.Sending? && w < s.size && Idle(s, w)
    case Return(t) => t < |s.jobs| && MayGoOn(s, t)
    case Finish(t) => t < |s.jobs| && s.jobs[t].stage.Returned?
    case WaitAll(caller) => MayCall(s, caller)
  }

  function Apply(s: State, step: Step): State
    requires Enabled(s, step)
  {
    match step
    case Submit(caller) => s.(counter := s.counter + 1, jobs := s.jobs + [Job(caller, Sending, 0)])
    case Receive(t, w) => s.(jobs := s.jobs[t := Job(s.jobs[t].caller, Running(w), s.jobs[t].starts + 1)])
    case Return(t) => s.(jobs := s.jobs[t := s.jobs[t].(stage := Returned(s.jobs[t].stage.worker))])
    case Finish(t) => s.(
      counter := s.counter - 1,
      jobs := s.jobs[t := s.jobs[t].(stage := Done)],
      waiters := if s.counter == 1 then Released(s.waiters) else s.waiters)
    case WaitAll(caller) => s.(waiters := s.waiters + [Waiter(caller, |s.jobs|, s.counter == 0)])
  }

  /** The Done that brings the counter to zero lets all waiters go. */
  function Released(ws: seq<Waiter>): (r: seq<Waiter>)
    ensures |r| == |ws| && forall i :: 0 <= i < |ws| ==> r[i] == ws[i].(released := true)
  {
    seq(|ws|, i requires 0 <= i < |ws| => ws[i].(released := true))
  }

  ghost predicate Legal(s: State, run: seq<Step>)
    decreases |run|, 0
  {
    run == [] || (Legal(s, run[..|run| - 1]) && Enabled(After(s, run[..|run| - 1]), run[|run| - 1]))
  }

  ghost function After(s: State, run: seq<Step>): State
    requires Legal(s, run)
    decreases |run|, 1
  {
    if run == [] then s else Apply(After(s, run[..|run| - 1]), run[|run| - 1])
  }

  // --- what every interleaving keeps ---------------------------------------------------------

  /** Added and not yet Done. */
  function Undone(jobs: seq<Job>): nat {
    if jobs == [] then 0
    else Undone(jobs[..|jobs| - 1]) + if jobs[|jobs| - 1].stage.Done? then 0 else 1
  }

  ghost predicate Inv(s: State) {
    && s.counter == Undone(s.jobs)
    && (forall t :: 0 <= t < |s.jobs| ==> s.jobs[t].starts == if s.jobs[t].stage.Sending? then 0 else 1)
    && WorkersHoldOne(s)
    && (forall u :: 0 <= u < |s.jobs| && s.jobs[u].stage.Sending? ==> CallerIsHeld(s, s.jobs[u].caller))
    && (forall i :: 0 <= i < |s.waiters| ==> WaiterIsRight(s, s.waiters[i]))
  }

  ghost predicate WorkersHoldOne(s: State) {
    && (forall t :: 0 <= t < |s.jobs| && OnWorker(s.jobs[t]) ==> s.jobs[t].stage.worker < s.size)
    && (forall t, u :: 0 <= t < u < |s.jobs| && OnWorker(s.jobs[t]) && OnWorker(s.jobs[u]) ==>
          s.jobs[t].stage.worker != s.jobs[u].stage.worker)
  }

  ghost predicate CallerIsHeld(s: State, caller: Caller) {
    caller.Inside? ==> caller.task < |s.jobs| && s.jobs[caller.task].stage.Running?
  }

  ghost predicate WaiterIsRight(s: State, w: Waiter) {
    && w.awaited <= |s.jobs|
    && (w.released ==> forall t :: 0 <= t < w.awaited ==> s.jobs[t].stage.Done?)
    && (!w.released ==> s.counter > 0)
    && (w.caller.Inside? ==> CallerIsHeld(s, w.caller) && !w.released)
  }

  lemma {:induction false} UndoneIsZero(jobs: seq<Job>)
    ensures Undone(jobs) == 0 <==> forall t :: 0 <= t < |jobs| ==> jobs[t].stage.Done?
  {
    if jobs != [] { UndoneIsZero(jobs[..|jobs| - 1]); }
  }

  lemma {:induction false} UndoneUpdate(jobs: seq<Job>, t: nat, j: Job)
    requires t < |jobs|
    ensures Undone(jobs[t := j]) ==
            Undone(jobs) + (if j.stage.Done? then 0 else 1) - (if jobs[t].stage.Done? then 0 else 1)
  {
    var init := jobs[..|jobs| - 1];
    if t == |jobs| - 1 {
      assert jobs[t := j][..t] == init;
    } else {
      assert jobs[t := j][..|jobs| - 1] == init[t := j];
      UndoneUpdate(init, t, j);
    }
  }

  lemma CounterKeeps(s: State, step: Step)
    requires Inv(s) && Enabled(s, step)
    ensures Apply(s, step).counter == Undone(Apply(s, step).jobs)
  {
    match step
    case Submit(caller) => assert (s.jobs + [Job(caller, Sending, 0)])[..|s.jobs|] == s.jobs;
    case Receive(t, w) => UndoneUpdate(s.jobs, t, Job(s.jobs[t].caller, Running(w), s.jobs[t].starts + 1));
    case Return(t) => UndoneUpdate(s.jobs, t, s.jobs[t].(stage := Returned(s.jobs[t].stage.worker)));
    case Finish(t) => UndoneUpdate(s.jobs, t, s.jobs[t].(stage := Done));
    case WaitAll(caller) =>
  }

  lemma WaitersKeep(s: State, step: Step)
    requires Inv(s) && Enabled(s, step)
    ensures forall i :: 0 <= i < |Apply(s, step).waiters| ==> WaiterIsRight(Apply(s, step), Apply(s, step).waiters[i])
  {
    hide Undone;
    var after := Apply(s, step);
    CounterKeeps(s, step);
    UndoneIsZero(s.jobs);
    UndoneIsZero(after.jobs);
    forall i | 0 <= i < |after.waiters| ensures WaiterIsRight(after, after.waiters[i]) {
      if i < |s.waiters| {
        var waiter := s.waiters[i];
        assert WaiterIsRight(s, waiter);
        assert forall t :: 0 <= t < |s.jobs| && s.jobs[t].stage.Done? ==> after.jobs[t].stage.Done?;
        if waiter.caller.Inside? {
          assert Waiting(s, waiter.caller.task);
          assert after.jobs[waiter.caller.task].stage.Running?;
        }
      }
    }
  }

  lemma StepKeeps(s: State, step: Step)
    requires Inv(s) && Enabled(s, step)
    ensures Inv(Apply(s, step))
  {
    hide Undone;
    CounterKeeps(s, step);
    WaitersKeep(s, step);
  }

  lemma {:induction false} RunKeeps(s: State, run: seq<Step>)
    requires Inv(s) && Legal(s, run)
    ensures Inv(After(s, run)) && After(s, run).size == s.size
    ensures |s.waiters| <= |After(s, run).waiters|
    ensures forall i :: 0 <= i < |s.waiters| ==>
              After(s, run).waiters[i].(released := s.waiters[i].released) == s.waiters[i]
  {
    hide Undone, Inv, Apply, Enabled;
    if run != [] {
      RunKeeps(s, run[..|run| - 1]);
      StepKeeps(After(s, run[..|run| - 1]), run[|run| - 1]);
      StepExtends(After(s, run[..|run| - 1]), run[|run| - 1]);
    }
  }

  /** No step forgets a WaitAll or changes more of it than that it has returned. */
  lemma StepExtends(s: State, step: Step)
    requires Enabled(s, step)
    ensures Apply(s, step).size == s.size && |s.waiters| <= |Apply(s, step).waiters|
    ensures forall i :: 0 <= i < |s.waiters| ==>
              Apply(s, step).waiters[i].(released := s.waiters[i].released) == s.waiters[i]
  {
    hide Enabled;
  }

  /** Whatever the goroutines do, and in whatever order, the pool stays coherent. */
  lemma EveryRunIsCoherent(size: int, run: seq<Step>)
    requires Legal(NewPool(size), run)
    ensures Inv(After(NewPool(size), run)) && After(NewPool(size), run).size == size
    ensures After(NewPool(size), run).counter >= 0
    ensures |Busy(After(NewPool(size), run))| <= if size < 0 then 0 else size
  {
    RunKeeps(NewPool(size), run);
    var s := After(NewPool(size), run);
    WorkersOfAll(s, Busy(s));
    WorkersInRange(s, Busy(s));
  }

  // --- WaitAll ----------------------------------------------------------------------------------

  /** When WaitAll returns, everything submitted before it was called ran, once, to its end. */
  lemma WaitAllWaits(size: int, before: seq<Step>, caller: Caller, after: seq<Step>)
    requires Legal(NewPool(size), before + [WaitAll(caller)] + after)
    ensures Legal(NewPool(size), before)
    ensures var called := After(NewPool(size), before);
      var end := After(NewPool(size), before + [WaitAll(caller)] + after);
      && |called.waiters| < |end.waiters| && |called.jobs| <= |end.jobs|
      && (end.waiters[|called.waiters|].released ==>
            forall t :: 0 <= t < |called.jobs| ==> end.jobs[t].stage.Done? && end.jobs[t].starts == 1)
  {
    var s0, call := NewPool(size), before + [WaitAll(caller)];
    Continue(s0, call, after);
    assert call[..|before|] == before;
    var called, end := After(s0, call), After(s0, call + after);
    RunKeeps(s0, call);
    RunKeeps(called, after);
    RunKeeps(s0, call + after);
    var i := |After(s0, before).waiters|;
    assert WaiterIsRight(end, end.waiters[i]);
  }

  lemma {:induction false} Continue(s: State, first: seq<Step>, second: seq<Step>)
    requires Legal(s, first + second)
    ensures Legal(s, first) && Legal(After(s, first), second)
    ensures After(After(s, first), second) == After(s, first + second)
  {
    if second == [] {
      assert first + second == first;
    } else {
      assert (first + second)[..|first + second| - 1] == first + second[..|second| - 1];
      Continue(s, first, second[..|second| - 1]);
    }
  }

  /** A task that calls WaitAll awaits itself: it never returns. */
  lemma WaitingForOneself(size: int, run: seq<Step>, i: nat)
    requires Legal(NewPool(size), run)
    requires i < |After(NewPool(size), run).waiters|
    ensures After(NewPool(size), run).waiters[i].caller.Inside? ==>
              && !After(NewPool(size), run).waiters[i].released
              && After(NewPool(size), run).counter > 0
  {
    RunKeeps(NewPool(size), run);
    assert WaiterIsRight(After(NewPool(size), run), After(NewPool(size), run).waiters[i]);
  }

  // --- progress -----------------------------------------------------------------------------------

  ghost function Busy(s: State): set<nat> {
    set t: nat | t < |s.jobs| && OnWorker(s.jobs[t])
  }

  /** The tasks held up in a Submit of their own. */
  ghost function Submitters(s: State): set<nat> {
    set t: nat | t < |s.jobs| && Submitting(s, t)
  }

  /** The tasks that cannot go on: inside Submit, or inside WaitAll. */
  ghost function Held(s: State): set<nat> {
    set t: nat | t < |s.jobs| && (Submitting(s, t) || Waiting(s, t))
  }

  ghost function WorkersOf(s: State, tasks: set<nat>): set<nat>
    requires tasks <= Busy(s)
  {
    set t | t in tasks :: s.jobs[t].stage.worker
  }

  ghost function Workers(n: int): (r: set<nat>)
    ensures |r| == if n < 0 then 0 else n
    ensures forall w: nat :: w in r <==> w < n
    decreases if n < 0 then 0 else n
  {
    if n <= 0 then {} else Workers(n - 1) + {n - 1}
  }

  lemma {:induction false} WorkersOfAll(s: State, tasks: set<nat>)
    requires WorkersHoldOne(s) && tasks <= Busy(s)
    ensures |WorkersOf(s, tasks)| == |tasks|
    decreases |tasks|
  {
    if tasks != {} {
      var t :| t in tasks;
      WorkersOfAll(s, tasks - {t});
      assert WorkersOf(s, tasks) == WorkersOf(s, tasks - {t}) + {s.jobs[t].stage.worker};
      assert s.jobs[t].stage.worker !in WorkersOf(s, tasks - {t});
    } else {
      assert WorkersOf(s, tasks) == {};
    }
  }

  lemma {:induction false} SubsetSize(a: set<nat>, b: set<nat>)
    requires a <= b
    ensures |a| <= |b| && (|a| == |b| ==> a == b)
    decreases |a|
  {
    if a != {} {
      var x :| x in a;
      SubsetSize(a - {x}, b - {x});
      assert a == a - {x} + {x} && b == b - {x} + {x};
    } else if b != {} {
      var x :| x in b;
      assert |b| == |b - {x}| + 1;
    }
  }

  lemma Missing(a: set<nat>, b: set<nat>) returns (x: nat)
    requires |a| < |b|
    ensures x in b && x !in a
  {
    if b <= a { SubsetSize(b, a); }
    x :| x in b && x !in a;
  }

  lemma WorkersInRange(s: State, tasks: set<nat>)
    requires WorkersHoldOne(s) && tasks <= Busy(s)
    ensures WorkersOf(s, tasks) <= Workers(s.size) && |WorkersOf(s, tasks)| <= |Workers(s.size)|
    ensures |WorkersOf(s, tasks)| >= s.size ==> WorkersOf(s, tasks) == Workers(s.size)
  {
    SubsetSize(WorkersOf(s, tasks), Workers(s.size));
  }

  predicate Internal(step: Step) {
    step.Receive? || step.Return? || step.Finish?
  }

  /** Nothing moves unless somebody outside submits or waits. */
  ghost predicate Stuck(s: State) {
    forall step: Step :: Internal(step) ==> !Enabled(s, step)
  }

  predicate SomeoneSends(s: State) {
    exists u :: 0 <= u < |s.jobs| && s.jobs[u].stage.Sending?
  }

  /**
   With work left, the pool stands still exactly when each of its workers has a
   task that is itself inside Submit or WaitAll, or when nobody sends and all
   running tasks are.  A pool without workers always stands still.
   */
  lemma StuckExactly(s: State)
    requires Inv(s) && s.counter > 0
    ensures Stuck(s) <==> |Held(s)| >= s.size || (Busy(s) == Held(s) && !SomeoneSends(s))
  {
    if |Held(s)| >= s.size {
      AllJammed(s);
    } else if Busy(s) == Held(s) && !SomeoneSends(s) {
      SelfWaitsOnly(s);
    } else {
      var step := SomeMove(s);
      assert Internal(step) && Enabled(s, step);
    }
  }

  ghost predicate NoTaskWaits(s: State) {
    forall t: nat | t < |s.jobs| :: !Waiting(s, t)
  }

  /** Where no task waits for itself only nested submits can stop the pool: as many as it has workers. */
  lemma OnlySubmitsStop(s: State)
    requires Inv(s) && s.counter > 0 && NoTaskWaits(s)
    ensures Stuck(s) <==> |Submitters(s)| >= s.size
  {
    StuckExactly(s);
    assert Held(s) == Submitters(s);
    LeftIsSomewhere(s);
    assert !SomeoneSends(s) ==> Submitters(s) == {};
  }

  /** A task not yet done is being sent or is on a worker. */
  lemma LeftIsSomewhere(s: State)
    requires Inv(s) && s.counter > 0
    ensures SomeoneSends(s) || Busy(s) != {}
  {
    UndoneIsZero(s.jobs);
    var t: nat :| t < |s.jobs| && !s.jobs[t].stage.Done?;
    assert s.jobs[t].stage.Sending? || t in Busy(s);
  }

  lemma HeldAreBusy(s: State)
    requires Inv(s)
    ensures Held(s) <= Busy(s)
    ensures forall t :: t in Held(s) ==> s.jobs[t].stage.Running?
  {
    forall t | t in Held(s) ensures t < |s.jobs| && s.jobs[t].stage.Running? {
      if Submitting(s, t) {
        var u :| 0 <= u < |s.jobs| && s.jobs[u].stage.Sending? && s.jobs[u].caller == Inside(t);
        assert CallerIsHeld(s, s.jobs[u].caller);
      } else {
        var i :| 0 <= i < |s.waiters| && s.waiters[i].caller == Inside(t) && !s.waiters[i].released;
        assert WaiterIsRight(s, s.waiters[i]);
      }
    }
  }

  lemma SelfWaitsOnly(s: State)
    requires Inv(s) && Busy(s) == Held(s) && !SomeoneSends(s)
    ensures Stuck(s)
  {
    HeldAreBusy(s);
    forall step: Step | Internal(step) ensures !Enabled(s, step) {
      if !step.Receive? && step.task < |s.jobs| && OnWorker(s.jobs[step.task]) {
        assert step.task in Busy(s);
      }
    }
  }

  lemma AllJammed(s: State)
    requires Inv(s) && |Held(s)| >= s.size
    ensures Stuck(s)
  {
    hide Inv, Held, Idle;
    EveryWorkerIsHeld(s);
    forall step: Step | Internal(step) ensures !Enabled(s, step) {
      if step.Receive? && step.worker < s.size { NoneIsIdle(s, step.worker); }
    }
  }

  lemma EveryWorkerIsHeld(s: State)
    requires Inv(s) && |Held(s)| >= s.size
    ensures WorkersOf(s, Busy(s)) == Workers(s.size)
    ensures forall t: nat :: t < |s.jobs| && OnWorker(s.jobs[t]) ==> s.jobs[t].stage.Running? && !MayGoOn(s, t)
  {
    HeldAreBusy(s);
    WorkersOfAll(s, Held(s));
    WorkersOfAll(s, Busy(s));
    WorkersInRange(s, Held(s));
    WorkersInRange(s, Busy(s));
    SubsetSize(Held(s), Busy(s));
    forall t: nat | t < |s.jobs| && OnWorker(s.jobs[t]) ensures s.jobs[t].stage.Running? && !MayGoOn(s, t) {
      assert t in Busy(s);
    }
  }

  lemma NoneIsIdle(s: State, w: nat)
    requires WorkersOf(s, Busy(s)) == Workers(s.size) && w < s.size
    ensures !Idle(s, w)
  {
    assert w in WorkersOf(s, Busy(s));
    var t :| t in Busy(s) && s.jobs[t].stage.worker == w;
  }

  /** Otherwise some worker can finish, some task can end, or some worker can receive. */
  lemma SomeMove(s: State) returns (step: Step)
    requires Inv(s) && |Held(s)| < s.size && (Busy(s) != Held(s) || SomeoneSends(s))
    ensures Internal(step) && Enabled(s, step)
  {
    HeldAreBusy(s);
    if t: nat :| t < |s.jobs| && s.jobs[t].stage.Returned? {
      step := Finish(t);
    } else if t: nat :| t < |s.jobs| && MayGoOn(s, t) {
      step := Return(t);
    } else {
      forall t | t in Busy(s) ensures t in Held(s) { assert !MayGoOn(s, t); }
      assert Busy(s) == Held(s);
      var u: nat :| u < |s.jobs| && s.jobs[u].stage.Sending?;
      var w := SomeIdle(s);
      step := Receive(u, w);
    }
  }

  lemma SomeIdle(s: State) returns (w: nat)
    requires WorkersHoldOne(s) && |Busy(s)| < s.size
    ensures w < s.size && Idle(s, w)
  {
    WorkersOfAll(s, Busy(s));
    WorkersInRange(s, Busy(s));
    w := Missing(WorkersOf(s, Busy(s)), Workers(s.size));
    forall t | 0 <= t < |s.jobs| && OnWorker(s.jobs[t]) ensures s.jobs[t].stage.worker != w {
      assert t in Busy(s);
    }
  }

  // --- standing still can happen ----------------------------------------------------------------

  lemma Take(s: State, run: seq<Step>, now: State, step: Step) returns (run': seq<Step>)
    requires Legal(s, run) && After(s, run) == now && Enabled(now, step)
    ensures Legal(s, run') && After(s, run') == Apply(now, step)
  {
    run' := run + [step];
    assert run'[..|run|] == run;
  }

  /** The first k workers each hold a task submitted from outside. */
  function Filled(k: nat): seq<Job> {
    seq(k, i requires 0 <= i < k => Job(Outside, Running(i), 1))
  }

  /** And the first k tasks each submit another, which nobody receives. */
  function Nested(k: nat): seq<Job> {
    seq(k, i requires 0 <= i < k => Job(Inside(i), Sending, 0))
  }

  lemma {:induction false} Fill(size: nat, k: nat) returns (run: seq<Step>)
    requires k <= size
    ensures Legal(NewPool(size), run) && After(NewPool(size), run) == State(size, k, Filled(k), [])
  {
    run := [];
    if k > 0 {
      run := Fill(size, k - 1);
      var s := State(size, k - 1, Filled(k - 1), []);
      run := Take(NewPool(size), run, s, Submit(Outside));
      s := State(size, k, Filled(k - 1) + [Job(Outside, Sending, 0)], []);
      run := Take(NewPool(size), run, s, Receive(k - 1, k - 1));
      assert Apply(s, Receive(k - 1, k - 1)).jobs == Filled(k);
    }
  }

  lemma NextMaySubmit(size: nat, k: nat)
    requires k < size
    ensures MayGoOn(State(size, size + k, Filled(size) + Nested(k), []), k)
  {
    var s := State(size, size + k, Filled(size) + Nested(k), []);
    assert s.jobs[k] == Filled(size)[k];
    forall u | 0 <= u < |s.jobs| && s.jobs[u].stage.Sending? ensures s.jobs[u].caller != Inside(k) {
      assert u < size || s.jobs[u] == Nested(k)[u - size];
    }
  }

  lemma {:induction false} Nest(size: nat, k: nat) returns (run: seq<Step>)
    requires k <= size
    ensures Legal(NewPool(size), run)
    ensures After(NewPool(size), run) == State(size, size + k, Filled(size) + Nested(k), [])
  {
    if k == 0 {
      run := Fill(size, size);
      assert Filled(size) + Nested(0) == Filled(size);
    } else {
      hide MayGoOn;
      run := Nest(size, k - 1);
      var s := State(size, size + k - 1, Filled(size) + Nested(k - 1), []);
      NextMaySubmit(size, k - 1);
      run := Take(NewPool(size), run, s, Submit(Inside(k - 1)));
      assert Apply(s, Submit(Inside(k - 1))).jobs == Filled(size) + Nested(k);
    }
  }

  /** A pool of any size is jammed by as many tasks as it has workers, each of which submits another. */
  lemma EveryPoolCanJam(size: nat) returns (run: seq<Step>)
    requires size > 0
    ensures Legal(NewPool(size), run) && Stuck(After(NewPool(size), run))
    ensures After(NewPool(size), run).counter == 2 * size
    ensures forall step | step in run :: !step.WaitAll?
  {
    run := Nest(size, size);
    var end := After(NewPool(size), run);
    RunKeeps(NewPool(size), run);
    forall t: nat | t < size ensures Submitting(end, t) {
      assert end.jobs[size + t] == Nested(size)[t];
    }
    assert forall t | t in Workers(size) :: t in Held(end);
    SubsetSize(Workers(size), Held(end));
    StuckExactly(end);
    OnlySubmitsAndReceives(size, run);
  }

  /** No waiter, no WaitAll. */
  lemma {:induction false} OnlySubmitsAndReceives(size: nat, run: seq<Step>)
    requires Legal(NewPool(size), run) && After(NewPool(size), run).waiters == []
    ensures forall step | step in run :: !step.WaitAll?
  {
    if run != [] {
      var before := run[..|run| - 1];
      StepExtends(After(NewPool(size), before), run[|run| - 1]);
      OnlySubmitsAndReceives(size, before);
      assert run == before + [run[|run| - 1]];
    }
  }

  /** And one task that waits for all is enough to stop any pool whose other workers have nothing to do. */
  lemma OneSelfWaitStops(size: nat) returns (run: seq<Step>)
    requires size > 0
    ensures Legal(NewPool(size), run) && Stuck(After(NewPool(size), run))
    ensures After(NewPool(size), run).counter == 1
  {
    run := Fill(size, 1);
    var s := State(size, 1, Filled(1), []);
    run := Take(NewPool(size), run, s, WaitAll(Inside(0)));
    RunKeeps(NewPool(size), run);
    var end := After(NewPool(size), run);
    assert end.waiters[0] == Waiter(Inside(0), 1, false) && Waiting(end, 0);
    assert Busy(end) == {0} == Held(end);
    StuckExactly(end);
  }

  // --- termination -------------------------------------------------------------------------------

  /** The steps a task still has before it. */
  function Ahead(stage: Stage): nat {
    match stage
    case Sending => 3
    case Running(_) => 2
    case Returned(_) => 1
    case Done => 0
  }

  function Left(jobs: seq<Job>): nat {
    if jobs == [] then 0 else Left(jobs[..|jobs| - 1]) + Ahead(jobs[|jobs| - 1].stage)
  }

  lemma {:induction false} LeftUpdate(jobs: seq<Job>, t: nat, j: Job)
    requires t < |jobs|
    ensures Left(jobs[t := j]) == Left(jobs) + Ahead(j.stage) - Ahead(jobs[t].stage)
  {
    var init := jobs[..|jobs| - 1];
    if t == |jobs| - 1 {
      assert jobs[t := j][..t] == init;
    } else {
      assert jobs[t := j][..|jobs| - 1] == init[t := j];
      LeftUpdate(init, t, j);
    }
  }

  lemma {:induction false} LeftIsZero(jobs: seq<Job>)
    ensures Left(jobs) == 0 <==> Undone(jobs) == 0
  {
    if jobs != [] { LeftIsZero(jobs[..|jobs| - 1]); }
  }

  /** No task is inside Submit or WaitAll. */
  ghost predicate Flat(s: State) {
    && (forall u :: 0 <= u < |s.jobs| && s.jobs[u].stage.Sending? ==> s.jobs[u].caller.Outside?)
    && (forall i :: 0 <= i < |s.waiters| ==> s.waiters[i].caller.Outside?)
  }

  lemma StepAdvances(s: State, step: Step)
    requires Internal(step) && Enabled(s, step)
    ensures Left(Apply(s, step).jobs) == Left(s.jobs) - 1
    ensures Flat(s) ==> Flat(Apply(s, step))
  {
    hide Left;
    match step
    case Receive(t, w) => LeftUpdate(s.jobs, t, Job(s.jobs[t].caller, Running(w), s.jobs[t].starts + 1));
    case Return(t) => LeftUpdate(s.jobs, t, s.jobs[t].(stage := Returned(s.jobs[t].stage.worker)));
    case Finish(t) => LeftUpdate(s.jobs, t, s.jobs[t].(stage := Done));
  }

  /** Tasks that do not submit are all run: every schedule ends, after as many steps, at zero. */
  lemma {:induction false} Drains(s: State, run: seq<Step>)
    requires Inv(s) && Flat(s) && s.size >= 1
    requires Legal(s, run) && forall k :: 0 <= k < |run| ==> Internal(run[k])
    ensures |run| + Left(After(s, run).jobs) == Left(s.jobs)
    ensures Inv(After(s, run)) && Flat(After(s, run)) && After(s, run).size == s.size
    ensures |run| == Left(s.jobs) <==> After(s, run).counter == 0
    ensures After(s, run).counter == 0 <==> Stuck(After(s, run))
  {
    hide Left, Undone;
    if run != [] {
      Drains(s, run[..|run| - 1]);
      StepKeeps(After(s, run[..|run| - 1]), run[|run| - 1]);
      StepAdvances(After(s, run[..|run| - 1]), run[|run| - 1]);
    }
    var end := After(s, run);
    LeftIsZero(end.jobs);
    UndoneIsZero(end.jobs);
    assert Submitters(end) == {};
    if end.counter > 0 { OnlySubmitsStop(end); }
  }
}
