/**
 fetchViolations of the release-age check: one goroutine feeding pins to workers
 over an unbuffered channel, and two result slices behind a mutex.  An append is
 two steps here, load and store, so that only the mutex keeps one from being lost.
 */
module ReleaseAudit {
  import opened Prelude

  /** What fetching a pin turns up; pins are known by their position. */
  datatype Outcome = Aged | TooFresh | Failed

  datatype Worker =
    | Receiving
    | Fetching(pin: nat)
    | Wanting(pin: nat)                   // blocked on the mutex
    | Holding(pin: nat)
    | Loaded(pin: nat, seen: seq<nat>)    // the slice it is about to append to
    | Stored
    | Exited

  datatype State = State(
    pins: seq<Outcome>, next: nat, closed: bool, workers: seq<Worker>, owner: Option<nat>,
    violations: seq<nat>, errs: seq<nat>)

  datatype Step =
    | Send(worker: nat)
    | Close
    | Fetch(worker: nat)
    | Lock(worker: nat)
    | Load(worker: nat)
    | Store(worker: nat)
    | Unlock(worker: nat)
    | Exit(worker: nat)

  function Spawned(concurrency: int): nat {
    if concurrency < 1 then 1 else concurrency
  }

  function Start(pins: seq<Outcome>, workers: nat): State {
    State(pins, 0, false, seq(workers, i => Receiving), None, [], [])
  }

  predicate Enabled(s: State, step: Step) {
    match step
    case Close => s.next == |s.pins| && !s.closed
    case Send(w) => w < |s.workers| && s.workers[w].Receiving? && s.next < |s.pins| && !s.closed
    case Exit(w) => w < |s.workers| && s.workers[w].Receiving? && s.closed
    case Fetch(w) => w < |s.workers| && s.workers[w].Fetching?
    case Lock(w) => w < |s.workers| && s.workers[w].Wanting? && s.owner.None?
    case Load(w) => w < |s.workers| && s.workers[w].Holding?
    case Store(w) => w < |s.workers| && s.workers[w].Loaded?
    case Unlock(w) => w < |s.workers| && s.workers[w].Stored?
  }

  predicate InRange(s: State) {
    s.next <= |s.pins| && forall w :: 0 <= w < |s.workers| ==> WorkerInRange(s, s.workers[w])
  }

  predicate WorkerInRange(s: State, w: Worker) {
    w.Fetching? || w.Wanting? || w.Holding? || w.Loaded? ==> w.pin < |s.pins|
  }

  function Become(s: State, w: nat, worker: Worker): State
    requires w < |s.workers|
  {
    s.(workers := s.workers[w := worker])
  }

  function Apply(s: State, step: Step): State
    requires InRange(s) && Enabled(s, step)
  {
    match step
    case Close => s.(closed := true)
    case Send(w) => Become(s, w, Fetching(s.next)).(next := s.next + 1)
    case Exit(w) => Become(s, w, Exited)
    case Fetch(w) =>
      Become(s, w, if s.pins[s.workers[w].pin] == Aged then Receiving else Wanting(s.workers[w].pin))
    case Lock(w) => Become(s, w, Holding(s.workers[w].pin)).(owner := Some(w))
    case Load(w) =>
      var pin := s.workers[w].pin;
      Become(s, w, Loaded(pin, if s.pins[pin] == Failed then s.errs else s.violations))
    case Store(w) =>
      var pin, slice := s.workers[w].pin, s.workers[w].seen + [s.workers[w].pin];
      if s.pins[pin] == Failed then Become(s, w, Stored).(errs := slice)
      else Become(s, w, Stored).(violations := slice)
    case Unlock(w) => Become(s, w, Receiving).(owner := None)
  }

  /** wg.Wait returns: the channel is closed and every worker has left. */
  predicate Returned(s: State) {
    s.closed && forall w :: 0 <= w < |s.workers| ==> s.workers[w].Exited?
  }

  // --- the sequential audit --------------------------------------------------------------------

  /** The pins a scan in order reports with this outcome. */
  function Scan(pins: seq<Outcome>, n: nat, kind: Outcome): seq<nat>
    requires n <= |pins|
  {
    if n == 0 then [] else Scan(pins, n - 1, kind) + if pins[n - 1] == kind then [n - 1] else []
  }

  // --- what every schedule keeps ---------------------------------------------------------------

  /** Worker w has taken pin p and not settled it. */
  predicate Carries(w: Worker, p: nat) {
    (w.Fetching? || w.Wanting? || w.Holding? || w.Loaded?) && w.pin == p
  }

  function Carriers(workers: seq<Worker>, p: nat): nat {
    if workers == [] then 0
    else Carriers(workers[..|workers| - 1], p) + if Carries(workers[|workers| - 1], p) then 1 else 0
  }

  lemma {:induction false} CarriersUpdate(workers: seq<Worker>, w: nat, to: Worker, p: nat)
    requires w < |workers|
    ensures Carriers(workers[w := to], p) ==
            Carriers(workers, p) + (if Carries(to, p) then 1 else 0) - (if Carries(workers[w], p) then 1 else 0)
  {
    var init := workers[..|workers| - 1];
    if w == |workers| - 1 {
      assert workers[w := to][..w] == init;
    } else {
      assert workers[w := to][..|workers| - 1] == init[w := to];
      CarriersUpdate(init, w, to, p);
    }
  }

  lemma {:induction false} NoCarriers(workers: seq<Worker>, p: nat)
    requires forall w :: 0 <= w < |workers| ==> !Carries(workers[w], p)
    ensures Carriers(workers, p) == 0
  {
    if workers != [] { NoCarriers(workers[..|workers| - 1], p); }
  }

  predicate InCriticalSection(w: Worker) {
    w.Holding? || w.Loaded? || w.Stored?
  }

  function Slice(s: State, kind: Outcome): seq<nat> {
    if kind == Failed then s.errs else s.violations
  }

  function Reports(s: State, kind: Outcome, p: nat): nat {
    multiset(Slice(s, kind))[p]
  }

  /** A pin sent is with one worker or where it belongs, once; nothing is lost or reported twice. */
  predicate Balanced(s: State, p: nat) {
    var kind := if p < |s.pins| then s.pins[p] else Aged;
    && (kind != TooFresh ==> Reports(s, TooFresh, p) == 0)
    && (kind != Failed ==> Reports(s, Failed, p) == 0)
    && Carriers(s.workers, p) + (if kind == Aged then 0 else Reports(s, kind, p)) <= (if p < s.next then 1 else 0)
    && (kind != Aged && p < s.next ==> Carriers(s.workers, p) + Reports(s, kind, p) == 1)
  }

  predicate Exclusive(s: State) {
    && (forall w :: 0 <= w < |s.workers| && InCriticalSection(s.workers[w]) ==> s.owner == Some(w))
    && (s.owner.Some? ==> s.owner.value < |s.workers| && InCriticalSection(s.workers[s.owner.value]))
  }

  /** What a worker loaded is still what is there. */
  predicate LoadsAreCurrent(s: State)
    requires InRange(s)
  {
    forall w :: 0 <= w < |s.workers| && s.workers[w].Loaded? ==>
      s.workers[w].seen == Slice(s, s.pins[s.workers[w].pin])
  }

  predicate ReportsOnly(s: State)
    requires InRange(s)
  {
    forall w :: 0 <= w < |s.workers| && (s.workers[w].Wanting? || s.workers[w].Holding? || s.workers[w].Loaded?) ==>
      s.pins[s.workers[w].pin] != Aged
  }

  ghost predicate Inv(s: State) {
    && InRange(s) && Exclusive(s) && LoadsAreCurrent(s) && ReportsOnly(s)
    && (forall p: nat :: Balanced(s, p))
    && (s.closed ==> s.next == |s.pins|)
    && (forall w :: 0 <= w < |s.workers| && s.workers[w].Exited? ==> s.closed)
  }

  lemma Starts(pins: seq<Outcome>, workers: nat)
    ensures Inv(Start(pins, workers))
  {
    hide Carriers;
    forall p: nat ensures Balanced(Start(pins, workers), p) {
      NoCarriers(Start(pins, workers).workers, p);
    }
  }

  lemma StepBalances(s: State, step: Step, p: nat)
    requires InRange(s) && Enabled(s, step) && Balanced(s, p)
    requires step.Store? ==>
      && s.pins[s.workers[step.worker].pin] != Aged
      && s.workers[step.worker].seen == Slice(s, s.pins[s.workers[step.worker].pin])
    ensures Balanced(Apply(s, step), p)
  {
    hide Carriers, Reports;
    if !step.Close? {
      CarriersUpdate(s.workers, step.worker, Apply(s, step).workers[step.worker], p);
    }
    match step
    case Store(w) => StoreReports(s, w, p);
    case _ => SameReports(s, step, p);
  }

  lemma SameReports(s: State, step: Step, p: nat)
    requires InRange(s) && Enabled(s, step) && !step.Store?
    ensures Reports(Apply(s, step), Failed, p) == Reports(s, Failed, p)
    ensures Reports(Apply(s, step), TooFresh, p) == Reports(s, TooFresh, p)
  {
  }

  lemma StoreReports(s: State, w: nat, p: nat)
    requires InRange(s) && Enabled(s, Store(w))
    requires s.pins[s.workers[w].pin] != Aged && s.workers[w].seen == Slice(s, s.pins[s.workers[w].pin])
    ensures Reports(Apply(s, Store(w)), Failed, p) ==
            Reports(s, Failed, p) + if p == s.workers[w].pin && s.pins[p] == Failed then 1 else 0
    ensures Reports(Apply(s, Store(w)), TooFresh, p) ==
            Reports(s, TooFresh, p) + if p == s.workers[w].pin && s.pins[p] == TooFresh then 1 else 0
  {
    hide InRange;
  }

  lemma StepKeepsLock(s: State, step: Step)
    requires Inv(s) && Enabled(s, step)
    ensures InRange(Apply(s, step)) && Exclusive(Apply(s, step)) && ReportsOnly(Apply(s, step))
  {
    hide Balanced, LoadsAreCurrent;
  }

  /** Only the owner of the mutex stores, and then it is the only one that has loaded. */
  lemma StepKeepsLoads(s: State, step: Step)
    requires Inv(s) && Enabled(s, step) && InRange(Apply(s, step))
    ensures LoadsAreCurrent(Apply(s, step))
  {
    hide Balanced, ReportsOnly;
  }

  lemma StepKeeps(s: State, step: Step)
    requires Inv(s) && Enabled(s, step)
    ensures Inv(Apply(s, step)) && Apply(s, step).pins == s.pins && |Apply(s, step).workers| == |s.workers|
  {
    hide Balanced, Exclusive;
    StepKeepsLock(s, step);
    StepKeepsLoads(s, step);
    forall p: nat ensures Balanced(Apply(s, step), p) { StepBalances(s, step, p); }
  }

  // --- whole schedules -------------------------------------------------------------------------

  ghost predicate Legal(s: State, run: seq<Step>)
    requires Inv(s)
    decreases |run|, 0
  {
    run == [] || (Legal(s, run[..|run| - 1]) && Enabled(After(s, run[..|run| - 1]), run[|run| - 1]))
  }

  ghost function After(s: State, run: seq<Step>): (r: State)
    requires Inv(s) && Legal(s, run)
    ensures Inv(r) && r.pins == s.pins && |r.workers| == |s.workers|
    decreases |run|, 1
  {
    if run == [] then s
    else
      var before := After(s, run[..|run| - 1]);
      StepKeeps(before, run[|run| - 1]);
      Apply(before, run[|run| - 1])
  }

  /** The audit as fetchViolations starts it; concurrency is clamped to at least one worker. */
  ghost function Begin(pins: seq<Outcome>, concurrency: int): (s: State)
    ensures Inv(s) && s.pins == pins && |s.workers| == if concurrency < 1 then 1 else concurrency
  {
    Starts(pins, Spawned(concurrency));
    Start(pins, Spawned(concurrency))
  }

  lemma {:induction false} ScanReports(pins: seq<Outcome>, n: nat, kind: Outcome, p: nat)
    requires n <= |pins|
    ensures multiset(Scan(pins, n, kind))[p] == if p < n && pins[p] == kind then 1 else 0
  {
    if n > 0 { ScanReports(pins, n - 1, kind, p); }
  }

  /** Whatever the schedule, the audit reports what a scan in order would, each pin once. */
  lemma AuditEqualsScan(pins: seq<Outcome>, concurrency: int, run: seq<Step>)
    requires Legal(Begin(pins, concurrency), run) && Returned(After(Begin(pins, concurrency), run))
    ensures var end := After(Begin(pins, concurrency), run);
      && multiset(end.violations) == multiset(Scan(pins, |pins|, TooFresh))
      && multiset(end.errs) == multiset(Scan(pins, |pins|, Failed))
  {
    hide Carriers, Scan, Exclusive, ReportsOnly, LoadsAreCurrent;
    var end := After(Begin(pins, concurrency), run);
    forall p: nat
      ensures multiset(end.violations)[p] == multiset(Scan(pins, |pins|, TooFresh))[p]
      ensures multiset(end.errs)[p] == multiset(Scan(pins, |pins|, Failed))[p]
    {
      NoCarriers(end.workers, p);
      ScanReports(pins, |pins|, TooFresh, p);
      ScanReports(pins, |pins|, Failed, p);
      assert Balanced(end, p);
    }
  }

  /** No schedule stops early: only a pool without workers could, and concurrency is at least 1. */
  lemma StopsOnlyAtTheEnd(s: State)
    requires Inv(s)
    ensures (forall step: Step :: !Enabled(s, step)) <==> Returned(s) || (s.workers == [] && s.next < |s.pins|)
  {
    if !Returned(s) && !(s.workers == [] && s.next < |s.pins|) {
      var step := SomeStep(s);
      assert Enabled(s, step);
    }
  }

  lemma SomeStep(s: State) returns (step: Step)
    requires Inv(s) && !Returned(s) && (s.workers != [] || s.next == |s.pins|)
    ensures Enabled(s, step)
  {
    if s.owner.Some? {
      var w := s.owner.value;
      step := if s.workers[w].Holding? then Load(w) else if s.workers[w].Loaded? then Store(w) else Unlock(w);
    } else if w: nat :| w < |s.workers| && s.workers[w].Wanting? {
      step := Lock(w);
    } else if w: nat :| w < |s.workers| && s.workers[w].Fetching? {
      step := Fetch(w);
    } else if s.next == |s.pins| && !s.closed {
      step := Close;
    } else if s.closed {
      var w: nat :| w < |s.workers| && !s.workers[w].Exited?;
      step := Exit(w);
    } else {
      step := Send(0);
    }
  }

  // --- termination -------------------------------------------------------------------------------

  function Ahead(w: Worker): nat {
    match w
    case Exited => 0
    case Receiving => 1
    case Stored => 2
    case Loaded(_, _) => 3
    case Holding(_) => 4
    case Wanting(_) => 5
    case Fetching(_) => 6
  }

  function AllAhead(workers: seq<Worker>): nat {
    if workers == [] then 0 else AllAhead(workers[..|workers| - 1]) + Ahead(workers[|workers| - 1])
  }

  function Left(s: State): nat
    requires s.next <= |s.pins|
  {
    6 * (|s.pins| - s.next) + AllAhead(s.workers) + if s.closed then 0 else 1
  }

  lemma {:induction false} AheadUpdate(workers: seq<Worker>, w: nat, to: Worker)
    requires w < |workers|
    ensures AllAhead(workers[w := to]) == AllAhead(workers) + Ahead(to) - Ahead(workers[w])
  {
    var init := workers[..|workers| - 1];
    if w == |workers| - 1 {
      assert workers[w := to][..w] == init;
    } else {
      assert workers[w := to][..|workers| - 1] == init[w := to];
      AheadUpdate(init, w, to);
    }
  }

  lemma StepAdvances(s: State, step: Step)
    requires InRange(s) && Enabled(s, step)
    ensures Apply(s, step).next <= |s.pins| && Left(Apply(s, step)) < Left(s)
  {
    hide AllAhead;
    if !step.Close? {
      AheadUpdate(s.workers, step.worker, Apply(s, step).workers[step.worker]);
    }
  }

  /** So every schedule ends, and where it ends the audit has returned. */
  lemma {:induction false} EveryScheduleEnds(s: State, run: seq<Step>)
    requires Inv(s) && Legal(s, run)
    ensures |run| + Left(After(s, run)) <= Left(s)
    ensures s.workers != [] ==>
              ((forall step: Step :: !Enabled(After(s, run), step)) <==> Returned(After(s, run)))
  {
    hide AllAhead, Left;
    if run != [] {
      EveryScheduleEnds(s, run[..|run| - 1]);
      StepAdvances(After(s, run[..|run| - 1]), run[|run| - 1]);
    }
    StopsOnlyAtTheEnd(After(s, run));
  }
}
