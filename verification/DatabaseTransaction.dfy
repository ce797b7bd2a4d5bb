/**
 Storer.Transaction over any tree of nested calls.

 A transactional function is a list of actions; what the database answers and how
 the function treats a failure is part of each action, so the tree ranges over
 every behaviour.  A function may use any context it can see, that of the innermost
 transaction or one it has captured; a context whose transaction has ended is one
 whose writes are rejected.  The database is the log of what it was asked to do,
 and the committed state is read off the log.
 */
module DatabaseTransaction {
  import opened Prelude

  type Row = nat

  /** How a call ends: a nil error, an error, a panic, or runtime.Goexit. */
  datatype Outcome = Ok | Err | Panicked | Exited

  /** What the caller does about a failed callee: ignore its error, recover its panic. */
  datatype Guard = Guard(swallows: bool, recovers: bool)

  /** A context at hand: a fresh one, or that of a transaction around, the outermost first. */
  datatype Context = Background | Within(level: nat)

  datatype Action =
    | Write(row: Row, ctx: Context, accepted: bool, guard: Guard)
    | Transact(ctx: Context, call: Call, guard: Guard)
    | Helper(actions: seq<Action>, guard: Guard)
    | Fail(outcome: Outcome)

  /** What the database does when asked: a nil error, an error, or a panic. */
  datatype Answer = Succeeds | Fails | Panics

  /** One call of Storer.Transaction, with what Begin, Commit and up to two Rollbacks answer. */
  datatype Call = Call(begin: Answer, commit: Answer, rollback: Answer, again: Answer, body: seq<Action>)

  datatype Event =
    | Begin(tx: nat)
    | Insert(owner: Option<nat>, row: Row)
    | Commit(tx: nat, answer: Answer)
    | Rollback(tx: nat, answer: Answer)

  function Handled(o: Outcome, g: Guard): Outcome {
    if (o == Err && g.swallows) || (o == Panicked && g.recovers) then Ok else o
  }

  // --- what the database holds, read off its log ------------------------------------------

  function Written(log: seq<Event>, tx: nat): seq<Row> {
    if log == [] then [] else
      var e := log[|log| - 1];
      Written(log[..|log| - 1], tx) + if e.Insert? && e.owner == Some(tx) then [e.row] else []
  }

  /** The committed rows with the transaction that wrote them, None for autocommit. */
  function Committed(log: seq<Event>): seq<(Option<nat>, Row)> {
    if log == [] then [] else
      var before := log[..|log| - 1];
      Committed(before) +
      match log[|log| - 1]
      case Insert(None, row) => [(None, row)]
      case Commit(tx, Succeeds) => Owned(Some(tx), Written(before, tx))
      case _ => []
  }

  function Owned(owner: Option<nat>, rows: seq<Row>): seq<(Option<nat>, Row)> {
    seq(|rows|, i requires 0 <= i < |rows| => (owner, rows[i]))
  }

  /** The committed rows of one transaction. */
  function CommittedBy(log: seq<Event>, tx: nat): seq<Row> {
    Select(Committed(log), tx)
  }

  function Select(rows: seq<(Option<nat>, Row)>, tx: nat): seq<Row> {
    if rows == [] then [] else
      var r := rows[|rows| - 1];
      Select(rows[..|rows| - 1], tx) + if r.0 == Some(tx) then [r.1] else []
  }

  function Count(log: seq<Event>, e: Event): nat {
    multiset(log)[e]
  }

  /** How often tx is asked to commit. */
  function Commits(log: seq<Event>, tx: nat): nat {
    if log == [] then 0 else
      var e := log[|log| - 1];
      Commits(log[..|log| - 1], tx) + if e.Commit? && e.tx == tx then 1 else 0
  }

  /** How often tx is asked to roll back. */
  function Rollbacks(log: seq<Event>, tx: nat): nat {
    if log == [] then 0 else
      var e := log[|log| - 1];
      Rollbacks(log[..|log| - 1], tx) + if e.Rollback? && e.tx == tx then 1 else 0
  }

  // --- what a run asks of the database --------------------------------------------------------

  datatype Run = Run(events: seq<Event>, outcome: Outcome, next: nat)

  /** The transaction a context carries, among those around. */
  function Carried(ctx: Context, scope: seq<nat>): Option<nat> {
    if ctx.Within? && ctx.level < |scope| then Some(scope[ctx.level]) else None
  }

  /** The actions run one after the other until one ends the function. */
  function RunActions(actions: seq<Action>, scope: seq<nat>, next: nat): Run
    decreases actions
  {
    if actions == [] then Run([], Ok, next) else
      var k := |actions| - 1;
      var before := RunActions(actions[..k], scope, next);
      if before.outcome != Ok then before else
        var last := RunAction(actions[k], scope, before.next);
        Run(before.events + last.events, last.outcome, last.next)
  }

  function RunAction(a: Action, scope: seq<nat>, next: nat): Run
    decreases a
  {
    match a
    case Write(row, ctx, accepted, guard) =>
      if accepted then Run([Insert(Carried(ctx, scope), row)], Ok, next)
      else Run([], Handled(Err, guard), next)
    case Transact(ctx, call, guard) =>
      var r := RunCall(call, Carried(ctx, scope), scope, next);
      Run(r.events, Handled(r.outcome, guard), r.next)
    case Helper(actions, guard) =>
      var r := RunActions(actions, scope, next);
      Run(r.events, Handled(r.outcome, guard), r.next)
    case Fail(outcome) => Run([], outcome, next)
  }

  /** A call with a context that may carry a transaction, among those around. */
  function RunCall(call: Call, ctx: Option<nat>, scope: seq<nat>, next: nat): Run
    decreases call
  {
    match ctx
    case Some(_) => RunActions(call.body, scope, next)
    case None =>
      if call.begin.Fails? then Run([], Err, next) else
      if call.begin.Panics? then Run([], Panicked, next) else
        var r := RunActions(call.body, scope + [next], next + 1);
        Run([Begin(next)] + r.events + Ending(call, next, r.outcome), Ended(call, r.outcome), r.next)
  }

  function Ending(call: Call, tx: nat, o: Outcome): seq<Event> {
    match o
    case Ok =>
      [Commit(tx, call.commit)] +
      (match call.commit
       case Succeeds => []
       case Fails => OnError(call, tx)
       case Panics => [Rollback(tx, call.rollback)])
    case Err => OnError(call, tx)
    case Panicked => [Rollback(tx, call.rollback)]
    case Exited => []
  }

  /** A Rollback that panics while an error is handled is recovered by the other handler, which asks again. */
  function OnError(call: Call, tx: nat): seq<Event> {
    [Rollback(tx, call.rollback)] + if call.rollback.Panics? then [Rollback(tx, call.again)] else []
  }

  function Ended(call: Call, o: Outcome): Outcome {
    if o == Ok && call.commit.Panics? then Panicked
    else if o == Err || (o == Ok && call.commit.Fails?) then (if call.rollback.Panics? then Panicked else Err)
    else o
  }

  /** How often Rollback is asked for, by way out. */
  function RollbackCalls(call: Call, o: Outcome): nat {
    if o == Exited || (o == Ok && call.commit.Succeeds?) then 0
    else if (o == Err || (o == Ok && call.commit.Fails?)) && call.rollback.Panics? then 2
    else 1
  }

  // --- the code ---------------------------------------------------------------------------------

  class Storer {
    var log: seq<Event>
    var nextTx: nat

    constructor ()
      ensures log == [] && nextTx == 0
    {
      log, nextTx := [], 0;
    }

    method DoCommit(tx: nat, answer: Answer)
      modifies `log
      ensures log == old(log) + [Commit(tx, answer)]
    {
      log := log + [Commit(tx, answer)];
    }

    method DoRollback(tx: nat, answer: Answer)
      modifies `log
      ensures log == old(log) + [Rollback(tx, answer)]
    {
      log := log + [Rollback(tx, answer)];
    }

    /** ctx is the transaction the context carries, if any, and scope those whose contexts the function can see. */
    method Transaction(call: Call, ctx: Option<nat>, scope: seq<nat>) returns (outcome: Outcome)
      modifies this
      ensures var r := RunCall(call, ctx, scope, old(nextTx));
        log == old(log) + r.events && outcome == r.outcome && nextTx == r.next
      decreases call
    {
      hide RunActions, OnError;
      // BeginContext: a context that carries a transaction makes commit and rollback no-ops.
      var nop := ctx.Some?;
      var tx := nextTx;
      if nop {
        tx := ctx.value;
      } else {
        if call.begin.Fails? { return Err; }
        if call.begin.Panics? { return Panicked; }
        log := log + [Begin(tx)];
        nextTx := nextTx + 1;
      }

      var err, panicking := false, false;
      var fn := Execute(call.body, if nop then scope else scope + [tx]);
      outcome := fn;
      match fn {
        case Panicked => panicking := true;
        case Exited =>
        case Err => err := true;
        case Ok =>
          if !nop {
            DoCommit(tx, call.commit);
            match call.commit {
              case Succeeds =>
              case Fails =>
                err := true;
                outcome := Err;
              case Panics => panicking := true;
            }
          }
      }

      if !nop { outcome := RunDeferred(call, tx, err, panicking, outcome); }
    }

    /** The deferred functions of a call that began, last registered first. */
    method RunDeferred(call: Call, tx: nat, err: bool, panics: bool, ended: Outcome) returns (outcome: Outcome)
      requires !(err && panics)
      modifies `log
      ensures log == old(log) + if err then OnError(call, tx) else if panics then [Rollback(tx, call.rollback)] else []
      ensures outcome == if panics || (err && call.rollback.Panics?) then Panicked else ended
    {
      var panicking := panics;
      if err {
        DoRollback(tx, call.rollback);
        if call.rollback.Panics? { panicking := true; }
      }
      outcome := ended;
      if panicking {
        DoRollback(tx, if err then call.again else call.rollback);
        outcome := Panicked;
      }
    }

    /** The transactional function itself. */
    method Execute(actions: seq<Action>, scope: seq<nat>) returns (outcome: Outcome)
      modifies this
      ensures var r := RunActions(actions, scope, old(nextTx));
        log == old(log) + r.events && outcome == r.outcome && nextTx == r.next
      decreases actions
    {
      hide RunActions, RunAction;
      outcome := Ok;
      NoActions(scope, nextTx);
      assert actions[..0] == [];
      for i := 0 to |actions|
        invariant var r := RunActions(actions[..i], scope, old(nextTx));
          log == old(log) + r.events && r.outcome == outcome == Ok && nextTx == r.next
      {
        OneMoreAction(actions, i, scope, old(nextTx));
        outcome := ExecuteOne(actions[i], scope);
        if outcome != Ok {
          EndedEarly(actions, i + 1, scope, old(nextTx));
          return;
        }
      }
      assert actions[..|actions|] == actions;
    }

    method ExecuteOne(a: Action, scope: seq<nat>) returns (outcome: Outcome)
      modifies this
      ensures var r := RunAction(a, scope, old(nextTx));
        log == old(log) + r.events && outcome == r.outcome && nextTx == r.next
      decreases a
    {
      match a
      case Write(row, ctx, accepted, guard) =>
        if accepted {
          log := log + [Insert(Carried(ctx, scope), row)];
          outcome := Ok;
        } else {
          outcome := Handled(Err, guard);
        }
      case Transact(ctx, call, guard) =>
        outcome := Transaction(call, Carried(ctx, scope), scope);
        outcome := Handled(outcome, guard);
      case Helper(actions, guard) =>
        outcome := Execute(actions, scope);
        outcome := Handled(outcome, guard);
      case Fail(o) =>
        outcome := o;
    }
  }

  lemma NoActions(scope: seq<nat>, next: nat)
    ensures RunActions([], scope, next) == Run([], Ok, next)
  {
  }

  lemma OneMoreAction(actions: seq<Action>, i: nat, scope: seq<nat>, next: nat)
    requires i < |actions|
    ensures var before := RunActions(actions[..i], scope, next);
      RunActions(actions[..i + 1], scope, next) ==
      if before.outcome != Ok then before
      else
        var last := RunAction(actions[i], scope, before.next);
        Run(before.events + last.events, last.outcome, last.next)
  {
    hide RunAction;
    assert actions[..i + 1][..i] == actions[..i];
  }

  lemma {:induction false} EndedEarly(actions: seq<Action>, k: nat, scope: seq<nat>, next: nat)
    requires k <= |actions| && RunActions(actions[..k], scope, next).outcome != Ok
    ensures RunActions(actions, scope, next) == RunActions(actions[..k], scope, next)
    decreases |actions|
  {
    if k == |actions| {
      assert actions[..k] == actions;
    } else {
      assert actions[..|actions| - 1][..k] == actions[..k];
      EndedEarly(actions[..|actions| - 1], k, scope, next);
    }
  }

  // --- the story of one transaction in a log ----------------------------------------------------------

  predicate Mentions(e: Event, tx: nat) {
    match e
    case Begin(t) => t == tx
    case Insert(owner, _) => owner == Some(tx)
    case Commit(t, _) => t == tx
    case Rollback(t, _) => t == tx
  }

  predicate Silent(log: seq<Event>, tx: nat) {
    forall e | e in log :: !Mentions(e, tx)
  }

  predicate OnlyInserts(log: seq<Event>, tx: nat) {
    forall e | e in log :: Mentions(e, tx) ==> e.Insert?
  }

  function Told(before: seq<Event>, tx: nat, body: seq<Event>, call: Call, o: Outcome, after: seq<Event>): seq<Event> {
    before + [Begin(tx)] + body + Ending(call, tx, o) + after
  }

  /** The transaction begins once, inserts, ends in one of the four ways, and is not heard of again. */
  predicate Tells(log: seq<Event>, tx: nat, before: seq<Event>, body: seq<Event>, call: Call, o: Outcome,
                  after: seq<Event>) {
    && log == Told(before, tx, body, call, o, after)
    && Silent(before, tx) && OnlyInserts(body, tx) && Silent(after, tx)
  }

  ghost predicate Story(log: seq<Event>, tx: nat) {
    exists before, body, call, o, after :: Tells(log, tx, before, body, call, o, after)
  }

  lemma {:induction false} WrittenConcat(a: seq<Event>, b: seq<Event>, tx: nat)
    ensures Written(a + b, tx) == Written(a, tx) + Written(b, tx)
  {
    if b == [] {
      assert a + b == a;
    } else {
      WrittenConcat(a, b[..|b| - 1], tx);
      assert (a + b)[..|a + b| - 1] == a + b[..|b| - 1];
    }
  }

  lemma {:induction false} SilentWritesNothing(log: seq<Event>, tx: nat)
    requires forall e | e in log :: !(e.Insert? && Mentions(e, tx))
    ensures Written(log, tx) == []
  {
    if log != [] {
      SilentWritesNothing(log[..|log| - 1], tx);
    }
  }

  lemma {:induction false} SelectConcat(a: seq<(Option<nat>, Row)>, b: seq<(Option<nat>, Row)>, tx: nat)
    ensures Select(a + b, tx) == Select(a, tx) + Select(b, tx)
  {
    if b == [] {
      assert a + b == a;
    } else {
      SelectConcat(a, b[..|b| - 1], tx);
      assert (a + b)[..|a + b| - 1] == a + b[..|b| - 1];
    }
  }

  lemma {:induction false} SelectOwned(owner: Option<nat>, rows: seq<Row>, tx: nat)
    ensures Select(Owned(owner, rows), tx) == if owner == Some(tx) then rows else []
  {
    if rows != [] {
      var k := |rows| - 1;
      assert Owned(owner, rows)[..k] == Owned(owner, rows[..k]);
      SelectOwned(owner, rows[..k], tx);
      assert rows == rows[..k] + [rows[k]];
    }
  }

  /** One more event commits rows of tx only if it is a successful commit of tx. */
  lemma CommittedByStep(log: seq<Event>, tx: nat)
    requires log != []
    ensures CommittedBy(log, tx) ==
            CommittedBy(log[..|log| - 1], tx) +
            if log[|log| - 1] == Commit(tx, Succeeds) then Written(log[..|log| - 1], tx) else []
  {
    var before, e := log[..|log| - 1], log[|log| - 1];
    var rows := match e
      case Insert(None, row) => [(None, row)]
      case Commit(t, Succeeds) => Owned(Some(t), Written(before, t))
      case _ => [];
    SelectConcat(Committed(before), rows, tx);
    if e.Commit? && e.answer.Succeeds? {
      SelectOwned(Some(e.tx), Written(before, e.tx), tx);
    } else if e.Insert? && e.owner == None {
      assert rows[..0] == [];
    }
  }

  lemma {:induction false} CommittedByConcat(a: seq<Event>, b: seq<Event>, tx: nat)
    requires Commit(tx, Succeeds) !in b
    ensures CommittedBy(a + b, tx) == CommittedBy(a, tx)
  {
    if b == [] {
      assert a + b == a;
    } else {
      CommittedByStep(a + b, tx);
      assert (a + b)[..|a + b| - 1] == a + b[..|b| - 1];
      CommittedByConcat(a, b[..|b| - 1], tx);
    }
  }

  lemma NothingCommitted(tx: nat)
    ensures CommittedBy([], tx) == []
  {
  }

  lemma EndingShape(call: Call, tx: nat, o: Outcome)
    ensures forall e :: e in Ending(call, tx, o) ==> !e.Insert?
    ensures if o == Ok && call.commit.Succeeds? then Ending(call, tx, o) == [Commit(tx, Succeeds)]
            else Commit(tx, Succeeds) !in Ending(call, tx, o)
  {
  }

  /** A told transaction is committed whole exactly when its story ends in a successful commit. */
  lemma ToldIsAtomic(before: seq<Event>, tx: nat, body: seq<Event>, call: Call, o: Outcome, after: seq<Event>)
    requires Silent(before, tx) && OnlyInserts(body, tx) && Silent(after, tx)
    ensures var log := Told(before, tx, body, call, o, after);
      && Written(log, tx) == Written(body, tx)
      && CommittedBy(log, tx) == if o == Ok && call.commit.Succeeds? then Written(log, tx) else []
  {
    hide Written, Ending, CommittedBy;
    EndingShape(call, tx, o);
    NothingCommitted(tx);
    var open := before + [Begin(tx)] + body;
    WrittenConcat(before, [Begin(tx)], tx);
    WrittenConcat(before + [Begin(tx)], body, tx);
    WrittenConcat(open, Ending(call, tx, o), tx);
    WrittenConcat(open + Ending(call, tx, o), after, tx);
    SilentWritesNothing(before, tx);
    SilentWritesNothing([Begin(tx)], tx);
    SilentWritesNothing(Ending(call, tx, o), tx);
    SilentWritesNothing(after, tx);
    CommittedByConcat([], open, tx);
    assert [] + open == open;
    var ended := open + Ending(call, tx, o);
    CommittedByConcat(ended, after, tx);
    if o == Ok && call.commit.Succeeds? {
      CommittedByStep(ended, tx);
      assert ended[..|ended| - 1] == open;
    } else {
      CommittedByConcat(open, Ending(call, tx, o), tx);
    }
  }

  lemma {:induction false} CountBoth(a: seq<Event>, b: seq<Event>, tx: nat)
    ensures forall e :: Count(a + b, e) == Count(a, e) + Count(b, e)
    ensures Commits(a + b, tx) == Commits(a, tx) + Commits(b, tx)
    ensures Rollbacks(a + b, tx) == Rollbacks(a, tx) + Rollbacks(b, tx)
  {
    assert multiset(a + b) == multiset(a) + multiset(b);
    if b == [] {
      assert a + b == a;
    } else {
      assert (a + b)[..|a + b| - 1] == a + b[..|b| - 1];
      CountBoth(a, b[..|b| - 1], tx);
    }
  }

  lemma {:induction false} CountInserts(log: seq<Event>, tx: nat)
    requires OnlyInserts(log, tx)
    ensures Commits(log, tx) == Rollbacks(log, tx) == 0
    ensures forall e :: Mentions(e, tx) && !e.Insert? ==> Count(log, e) == 0
  {
    if log != [] {
      assert log[|log| - 1] in log;
      CountInserts(log[..|log| - 1], tx);
    }
  }

  lemma CountOne(a: Event, tx: nat)
    ensures forall e :: Count([a], e) == if e == a then 1 else 0
    ensures Commits([a], tx) == if a.Commit? && a.tx == tx then 1 else 0
    ensures Rollbacks([a], tx) == if a.Rollback? && a.tx == tx then 1 else 0
  {
    assert multiset([a]) == multiset{a} && [a][..0] == [];
  }

  lemma OnErrorCounts(call: Call, tx: nat)
    ensures var log := OnError(call, tx);
      && Rollbacks(log, tx) == (if call.rollback.Panics? then 2 else 1) && Commits(log, tx) == 0
      && Count(log, Begin(tx)) == Count(log, Commit(tx, Succeeds)) == 0
      && (call.rollback.Panics? ==> Count(log, Rollback(tx, Panics)) > 0)
  {
    hide Rollbacks, Commits, Count;
    CountOne(Rollback(tx, call.rollback), tx);
    if call.rollback.Panics? {
      CountOne(Rollback(tx, call.again), tx);
      CountBoth([Rollback(tx, call.rollback)], [Rollback(tx, call.again)], tx);
    } else {
      assert OnError(call, tx) == [Rollback(tx, call.rollback)];
    }
  }

  lemma EndingCounts(call: Call, tx: nat, o: Outcome)
    ensures var log := Ending(call, tx, o);
      && Count(log, Begin(tx)) == 0
      && Count(log, Commit(tx, Succeeds)) == (if o == Ok && call.commit.Succeeds? then 1 else 0)
      && Commits(log, tx) == (if o == Ok then 1 else 0)
      && Rollbacks(log, tx) == RollbackCalls(call, o)
      && (RollbackCalls(call, o) > 1 ==> Count(log, Rollback(tx, Panics)) > 0)
  {
    hide OnError, Rollbacks, Commits, Count;
    OnErrorCounts(call, tx);
    CountOne(Rollback(tx, call.rollback), tx);
    CountNone(tx);
    if o == Ok {
      var rest := Ending(call, tx, o)[1..];
      assert Ending(call, tx, o) == [Commit(tx, call.commit)] + rest;
      CountOne(Commit(tx, call.commit), tx);
      CountBoth([Commit(tx, call.commit)], rest, tx);
    }
  }

  lemma CountNone(tx: nat)
    ensures Rollbacks([], tx) == Commits([], tx) == 0 && forall e :: Count([], e) == 0
  {
  }

  lemma ToldCounts(before: seq<Event>, tx: nat, body: seq<Event>, call: Call, o: Outcome, after: seq<Event>)
    requires Silent(before, tx) && OnlyInserts(body, tx) && Silent(after, tx)
    ensures var log := Told(before, tx, body, call, o, after);
      && Count(log, Begin(tx)) == 1
      && Count(log, Commit(tx, Succeeds)) == (if o == Ok && call.commit.Succeeds? then 1 else 0)
      && Commits(log, tx) == (if o == Ok then 1 else 0)
      && Rollbacks(log, tx) == RollbackCalls(call, o)
      && (RollbackCalls(call, o) > 1 ==> Count(log, Rollback(tx, Panics)) > 0)
  {
    hide Ending, Commits, Rollbacks, Count, OnlyInserts, Mentions, RollbackCalls;
    var begun := before + [Begin(tx)];
    SilentIsOnlyInserts(before, tx);
    SilentIsOnlyInserts(after, tx);
    CountInserts(before, tx);
    CountOne(Begin(tx), tx);
    CountInserts(body, tx);
    EndingCounts(call, tx, o);
    CountInserts(after, tx);
    CountBoth(before, [Begin(tx)], tx);
    CountBoth(begun, body, tx);
    CountBoth(begun + body, Ending(call, tx, o), tx);
    CountBoth(begun + body + Ending(call, tx, o), after, tx);
    Mentioned(tx);
  }

  lemma SilentIsOnlyInserts(log: seq<Event>, tx: nat)
    requires Silent(log, tx)
    ensures OnlyInserts(log, tx)
  {
  }

  lemma Mentioned(tx: nat)
    ensures Mentions(Begin(tx), tx) && forall a: Answer :: Mentions(Commit(tx, a), tx) && Mentions(Rollback(tx, a), tx)
  {
  }

  lemma StoryWithin(a: seq<Event>, log: seq<Event>, b: seq<Event>, tx: nat)
    requires Story(log, tx) && Silent(a, tx) && Silent(b, tx)
    ensures Story(a + log + b, tx)
  {
    var before, body, call, o, after :| Tells(log, tx, before, body, call, o, after);
    assert a + log + b == Told(a + before, tx, body, call, o, after + b);
    assert Tells(a + log + b, tx, a + before, body, call, o, after + b);
  }

  // --- every transaction a run begins has a story ----------------------------------------------------------

  /** Nothing on t, except inserts when t is around. */
  predicate Spares(events: seq<Event>, scope: seq<nat>, t: nat) {
    if t in scope then OnlyInserts(events, t) else Silent(events, t)
  }

  ghost predicate Concerns(events: seq<Event>, scope: seq<nat>, next: nat, next': nat) {
    next <= next' && forall t: nat | t < next || next' <= t :: Spares(events, scope, t)
  }

  lemma {:induction false} ActionsConcern(actions: seq<Action>, scope: seq<nat>, next: nat)
    requires forall t | t in scope :: t < next
    ensures var r := RunActions(actions, scope, next);
      Concerns(r.events, scope, next, r.next) && forall t: nat | next <= t < r.next :: Story(r.events, t)
    decreases actions
  {
    hide Story, RunAction;
    if actions != [] {
      var k := |actions| - 1;
      ActionsConcern(actions[..k], scope, next);
      var before := RunActions(actions[..k], scope, next);
      if before.outcome == Ok {
        ActionConcerns(actions[k], scope, before.next);
        var last := RunAction(actions[k], scope, before.next);
        forall t: nat | t < next || last.next <= t ensures Spares(before.events + last.events, scope, t) {
          assert Spares(before.events, scope, t) && Spares(last.events, scope, t);
        }
        forall t: nat | next <= t < last.next ensures Story(before.events + last.events, t) {
          assert t < before.next ==> Spares(last.events, scope, t);
          assert t >= before.next ==> Spares(before.events, scope, t);
          if t < before.next {
            StoryWithin([], before.events, last.events, t);
            assert [] + before.events + last.events == before.events + last.events;
          } else {
            StoryWithin(before.events, last.events, [], t);
            assert before.events + last.events + [] == before.events + last.events;
          }
        }
      }
    }
  }

  lemma {:induction false} ActionConcerns(a: Action, scope: seq<nat>, next: nat)
    requires forall t | t in scope :: t < next
    ensures var r := RunAction(a, scope, next);
      Concerns(r.events, scope, next, r.next) && forall t: nat | next <= t < r.next :: Story(r.events, t)
    decreases a
  {
    match a
    case Write(_, _, _, _) =>
    case Fail(_) =>
    case Helper(actions, _) => ActionsConcern(actions, scope, next);
    case Transact(ctx, call, _) =>
      if Carried(ctx, scope) == None {
        CallConcerns(call, scope, next);
      } else {
        ActionsConcern(call.body, scope, next);
      }
  }

  lemma {:induction false} CallConcerns(call: Call, scope: seq<nat>, next: nat)
    requires forall t | t in scope :: t < next
    ensures var r := RunCall(call, None, scope, next);
      Concerns(r.events, scope, next, r.next) && forall t: nat | next <= t < r.next :: Story(r.events, t)
    decreases call
  {
    if call.begin.Succeeds? {
      ActionsConcern(call.body, scope + [next], next + 1);
      var body := RunActions(call.body, scope + [next], next + 1);
      var r := RunCall(call, None, scope, next);
      assert r.events == Told([], next, body.events, call, body.outcome, []);
      forall t: nat | t < next || r.next <= t ensures Spares(r.events, scope, t) {
        assert Spares(body.events, scope + [next], t);
      }
      forall t: nat | next <= t < r.next ensures Story(r.events, t) {
        if t == next {
          assert Spares(body.events, scope + [next], next);
          assert Tells(r.events, next, [], body.events, call, body.outcome, []);
        } else {
          assert Story(body.events, t);
          StoryWithin([Begin(next)], body.events, Ending(call, next, body.outcome), t);
        }
      }
    }
  }

  lemma SparedScope(events: seq<Event>, tx: nat)
    requires Spares(events, [tx], tx)
    ensures OnlyInserts(events, tx)
  {
  }

  // --- the theorems ---------------------------------------------------------------------------------------------

  /**
   Whatever the tree of calls, failures and panics, and whichever of the contexts
   around it each of them uses: of every transaction begun, either no row or every
   row is committed; Commit is asked for at most once, and so is Rollback unless it
   panics, which the other handler answers with a second; after a successful Commit
   there is none.
   */
  lemma EveryTransactionIsAtomic(call: Call, scope: seq<nat>, next: nat, tx: nat)
    requires forall t | t in scope :: t < next
    requires next <= tx < RunCall(call, None, scope, next).next
    ensures var log := RunCall(call, None, scope, next).events;
      && (CommittedBy(log, tx) == [] || CommittedBy(log, tx) == Written(log, tx))
      && Count(log, Begin(tx)) == 1 && Commits(log, tx) <= 1
      && (Rollbacks(log, tx) <= 1 || (Rollbacks(log, tx) == 2 && Count(log, Rollback(tx, Panics)) > 0))
      && (Count(log, Commit(tx, Succeeds)) == 1 ==> Rollbacks(log, tx) == 0)
  {
    CallConcerns(call, scope, next);
    var log := RunCall(call, None, scope, next).events;
    assert Story(log, tx);
    var before, body, inner, o, after :| Tells(log, tx, before, body, inner, o, after);
    ToldIsAtomic(before, tx, body, inner, o, after);
    ToldCounts(before, tx, body, inner, o, after);
  }

  /** How the function of a call ends, if it is run at all. */
  function BodyOutcome(call: Call, scope: seq<nat>, next: nat): Outcome {
    RunActions(call.body, scope + [next], next + 1).outcome
  }

  /**
   What a call under a fresh context answers: nil if and only if Begin succeeds, the
   function returns nil and Commit succeeds.  Where Begin does not succeed, nothing
   is asked of the database and no transaction is begun.
   */
  lemma FreshCallAnswers(call: Call, scope: seq<nat>, next: nat)
    ensures var r, o := RunCall(call, None, scope, next), BodyOutcome(call, scope, next);
      && (r.outcome == Ok <==> call.begin == Succeeds && o == Ok && call.commit == Succeeds)
      && (call.begin != Succeeds ==> r.events == [] && r.next == next)
      && (call.begin == Fails ==> r.outcome == Err)
      && (r.outcome == Panicked <==>
            call.begin == Panics ||
            (call.begin == Succeeds &&
             (o == Panicked || (o == Ok && call.commit == Panics) ||
              ((o == Err || (o == Ok && call.commit == Fails)) && call.rollback == Panics))))
      && (r.outcome == Exited <==> call.begin == Succeeds && o == Exited)
  {
  }

  /**
   The outermost call on a database with any history: its rows are committed
   exactly when it returns nil.  Once begun, every other exit asks for Rollback once,
   except that runtime.Goexit leaves the transaction open, and that a Rollback which
   panics while an error is being handled is asked for again.
   */
  lemma OutermostIsAtomic(history: seq<Event>, call: Call, next: nat)
    requires forall t: nat | next <= t :: Silent(history, t)
    ensures var r, o := RunCall(call, None, [], next), BodyOutcome(call, [], next);
      var log := history + r.events;
      && CommittedBy(log, next) == (if r.outcome == Ok then Written(log, next) else [])
      && (r.outcome == Ok <==> call.begin == Succeeds && o == Ok && call.commit == Succeeds)
      && Count(log, Begin(next)) == (if call.begin == Succeeds then 1 else 0)
      && Commits(log, next) == (if call.begin == Succeeds && o == Ok then 1 else 0)
      && Rollbacks(log, next) == (if call.begin == Succeeds then RollbackCalls(call, o) else 0)
  {
    hide Spares, Commits, Rollbacks, CommittedBy, Written, RunActions, Ending, RollbackCalls, Count;
    var r := RunCall(call, None, [], next);
    FreshCallAnswers(call, [], next);
    if call.begin == Succeeds {
      var body := RunActions(call.body, [next], next + 1);
      ActionsConcern(call.body, [next], next + 1);
      assert [] + [next] == [next];
      SparedScope(body.events, next);
      assert history + r.events == Told(history, next, body.events, call, body.outcome, []);
      ToldIsAtomic(history, next, body.events, call, body.outcome, []);
      ToldCounts(history, next, body.events, call, body.outcome, []);
    } else {
      assert history + r.events == history;
      NotBegun(history, next);
    }
  }

  /** Nothing is known of a transaction that never began. */
  lemma NotBegun(history: seq<Event>, tx: nat)
    requires Silent(history, tx)
    ensures CommittedBy(history, tx) == [] && Count(history, Begin(tx)) == 0
    ensures Commits(history, tx) == Rollbacks(history, tx) == 0
  {
    SilentIsOnlyInserts(history, tx);
    CountInserts(history, tx);
    Mentioned(tx);
    assert Commit(tx, Succeeds) !in history;
    CommittedByConcat([], history, tx);
    assert [] + history == history;
  }

  /** Earlier transactions, those around included, keep exactly the rows they had committed. */
  lemma EarlierRowsAreUntouched(history: seq<Event>, call: Call, scope: seq<nat>, next: nat, tx: nat)
    requires (forall t | t in scope :: t < next) && tx < next
    ensures CommittedBy(history + RunCall(call, None, scope, next).events, tx) == CommittedBy(history, tx)
  {
    CallConcerns(call, scope, next);
    var events := RunCall(call, None, scope, next).events;
    assert Spares(events, scope, tx) && Mentions(Commit(tx, Succeeds), tx);
    CommittedByConcat(history, events, tx);
  }

  /** A transaction has written each row as often as it was inserted under its context. */
  lemma {:induction false} WrittenExactly(log: seq<Event>, tx: nat, row: Row)
    ensures multiset(Written(log, tx))[row] == Count(log, Insert(Some(tx), row))
  {
    if log != [] {
      var before, e := log[..|log| - 1], log[|log| - 1];
      WrittenExactly(before, tx, row);
      assert log == before + [e];
    }
  }

  // --- what a function does -------------------------------------------------------------------------------------

  /** The runs of the actions one by one, up to the first that ends the function. */
  ghost predicate Unrolls(actions: seq<Action>, scope: seq<nat>, next: nat, runs: seq<Run>) {
    && |runs| <= |actions|
    && (forall i | 0 <= i < |runs| :: runs[i] == RunAction(actions[i], scope, NextAt(runs, i, next)))
    && (forall i | 0 <= i < |runs| - 1 :: runs[i].outcome == Ok)
    && (|runs| == |actions| || (runs != [] && runs[|runs| - 1].outcome != Ok))
  }

  /** The number the i-th action would give to a transaction. */
  function NextAt(runs: seq<Run>, i: nat, next: nat): nat
    requires i <= |runs|
  {
    if i == 0 then next else runs[i - 1].next
  }

  function AllEvents(runs: seq<Run>): seq<Event> {
    if runs == [] then [] else AllEvents(runs[..|runs| - 1]) + runs[|runs| - 1].events
  }

  /** What the runs amount to, one after the other. */
  function Summary(runs: seq<Run>, next: nat): Run {
    Run(AllEvents(runs), if runs == [] then Ok else runs[|runs| - 1].outcome, NextAt(runs, |runs|, next))
  }

  /** A function does its actions in order until one ends it, and then nothing more. */
  lemma {:induction false} ActionsRunInOrder(actions: seq<Action>, scope: seq<nat>, next: nat) returns (runs: seq<Run>)
    ensures Unrolls(actions, scope, next, runs)
    ensures RunActions(actions, scope, next) == Summary(runs, next)
    ensures RunActions(actions, scope, next).outcome == Ok ==> |runs| == |actions|
  {
    hide RunAction, RunActions, Unrolls;
    if actions == [] {
      runs := [];
      NoActions(scope, next);
      NothingUnrolls(scope, next);
    } else {
      var k := |actions| - 1;
      runs := ActionsRunInOrder(actions[..k], scope, next);
      OneMoreAction(actions, k, scope, next);
      assert actions[..k + 1] == actions;
      if RunActions(actions[..k], scope, next).outcome == Ok {
        var before, last := runs, RunAction(actions[k], scope, NextAt(runs, k, next));
        runs := before + [last];
        assert runs[..k] == before;
        OneMoreRun(actions, scope, next, before, last);
      } else {
        EndedRuns(actions, k, scope, next, runs);
      }
    }
  }

  lemma NothingUnrolls(scope: seq<nat>, next: nat)
    ensures Unrolls([], scope, next, [])
  {
  }

  lemma EndedRuns(actions: seq<Action>, k: nat, scope: seq<nat>, next: nat, runs: seq<Run>)
    requires k <= |actions| && Unrolls(actions[..k], scope, next, runs) && Summary(runs, next).outcome != Ok
    ensures Unrolls(actions, scope, next, runs)
  {
    hide RunAction;
    assert forall i | 0 <= i < |runs| :: actions[..k][i] == actions[i];
  }

  lemma OneMoreRun(actions: seq<Action>, scope: seq<nat>, next: nat, before: seq<Run>, last: Run)
    requires |actions| == |before| + 1 && Unrolls(actions[..|before|], scope, next, before)
    requires before != [] ==> before[|before| - 1].outcome == Ok
    requires last == RunAction(actions[|before|], scope, NextAt(before, |before|, next))
    ensures Unrolls(actions, scope, next, before + [last])
  {
    hide RunAction;
    var k, runs := |before|, before + [last];
    forall i | 0 <= i < |runs|
      ensures runs[i] == RunAction(actions[i], scope, NextAt(runs, i, next))
      ensures i < k ==> runs[i].outcome == Ok
    {
      assert NextAt(runs, i, next) == NextAt(before, i, next);
      if i < k { assert runs[i] == before[i] && actions[..k][i] == actions[i]; }
    }
  }

  /** An error that is not swallowed, wherever it comes from, reaches the caller, and nothing is committed. */
  lemma FailuresReachTheCaller(call: Call, next: nat, first: seq<Action>, a: Action, rest: seq<Action>)
    requires call.body == first + [a] + rest
    requires RunActions(first, [next], next + 1).outcome == Ok
    requires RunAction(a, [next], RunActions(first, [next], next + 1).next).outcome != Ok
    ensures RunCall(call, None, [], next).outcome != Ok
    ensures CommittedBy(RunCall(call, None, [], next).events, next) == []
  {
    assert [] + [next] == [next];
    hide RunAction, Committed, CommittedBy, RunCall, Written;
    assert (first + [a])[..|first|] == first;
    assert call.body[..|first| + 1] == first + [a];
    EndedEarly(call.body, |first| + 1, [next], next + 1);
    OutermostIsAtomic([], call, next);
    assert [] + RunCall(call, None, [], next).events == RunCall(call, None, [], next).events;
  }

  /** What a write does: to the transaction whose context it was given, at once when there is none. */
  lemma WritesGoWhereTheyAreSent(row: Row, ctx: Context, accepted: bool, g: Guard, scope: seq<nat>, next: nat)
    ensures var r := RunAction(Write(row, ctx, accepted, g), scope, next);
      && (forall l: nat | ctx == Within(l) && l < |scope| && accepted :: r.events == [Insert(Some(scope[l]), row)])
      && (ctx == Background && accepted ==> Committed(r.events) == [(None, row)])
      && (!accepted ==> r.events == [] && (r.outcome == Err <==> !g.swallows))
      && (r.outcome == Ok <==> accepted || g.swallows)
  {
    if ctx == Background && accepted {
      var log := [Insert(None, row)];
      assert log[..0] == [] && Committed([]) == [];
    }
  }

  /** A function ends as its own return, panic or Goexit says, and asks nothing more of the database. */
  lemma EndsAsItSays(o: Outcome, scope: seq<nat>, next: nat, before: seq<Action>, after: seq<Action>)
    requires o != Ok && RunActions(before, scope, next).outcome == Ok
    ensures var r, done := RunActions(before + [Fail(o)] + after, scope, next), RunActions(before, scope, next);
      r.outcome == o && r.events == done.events && r.next == done.next
  {
    var actions := before + [Fail(o)];
    assert actions[..|actions| - 1] == before && (actions + after)[..|actions|] == actions;
    EndedEarly(actions + after, |actions|, scope, next);
  }

  /** Panics pass through swallowed errors, runtime.Goexit through everything. */
  lemma GuardsCatchTheirOwn(ctx: Context, call: Call, body: seq<Action>, g: Guard, scope: seq<nat>, next: nat)
    ensures var callee := RunCall(call, Carried(ctx, scope), scope, next);
      var r := RunAction(Transact(ctx, call, g), scope, next);
      && r.events == callee.events && r.next == callee.next
      && (r.outcome == callee.outcome || r.outcome == Ok)
      && (r.outcome == Ok <==> callee.outcome == Ok || (callee.outcome == Err && g.swallows) ||
                               (callee.outcome == Panicked && g.recovers))
    ensures var callee, r := RunActions(body, scope, next), RunAction(Helper(body, g), scope, next);
      && r.events == callee.events && r.next == callee.next
      && (r.outcome == callee.outcome || r.outcome == Ok)
      && (r.outcome == Ok <==> callee.outcome == Ok || (callee.outcome == Err && g.swallows) ||
                               (callee.outcome == Panicked && g.recovers))
  {
  }

  /** A nested call joins the transaction its context carries; only under a fresh context does it begin its own. */
  lemma OnlyFreshContextsBegin(ctx: Context, call: Call, g: Guard, scope: seq<nat>, next: nat, l: nat)
    requires ctx == Within(l) && l < |scope|
    ensures RunAction(Transact(ctx, call, g), scope, next) == RunAction(Helper(call.body, g), scope, next)
    ensures RunAction(Transact(Background, call, g), scope, next).events != [] <==> call.begin == Succeeds
  {
    if call.begin == Succeeds {
      assert RunCall(call, None, scope, next).events[0] == Begin(next);
    }
  }

  // --- nested calls are transparent ----------------------------------------------------------------------------------

  /** Replace every Transaction call that inherits a transaction by a plain call of its function. */
  function Inlined(actions: seq<Action>, depth: nat): seq<Action>
    decreases actions
  {
    if actions == [] then [] else
      Inlined(actions[..|actions| - 1], depth) + [InlinedOne(actions[|actions| - 1], depth)]
  }

  /** depth is the number of transactions around. */
  function InlinedOne(a: Action, depth: nat): Action
    decreases a
  {
    match a
    case Transact(ctx, call, guard) =>
      if ctx.Within? && ctx.level < depth then Helper(Inlined(call.body, depth), guard)
      else Transact(ctx, call.(body := Inlined(call.body, depth + 1)), guard)
    case Helper(actions, guard) => Helper(Inlined(actions, depth), guard)
    case _ => a
  }

  lemma {:induction false} InliningChangesNothing(actions: seq<Action>, scope: seq<nat>, next: nat)
    ensures RunActions(Inlined(actions, |scope|), scope, next) == RunActions(actions, scope, next)
    decreases actions
  {
    if actions != [] {
      var k := |actions| - 1;
      var before := Inlined(actions[..k], |scope|);
      assert Inlined(actions, |scope|) == before + [InlinedOne(actions[k], |scope|)];
      assert Inlined(actions, |scope|)[..|before|] == before;
      InliningChangesNothing(actions[..k], scope, next);
      InliningOneChangesNothing(actions[k], scope, RunActions(actions[..k], scope, next).next);
    }
  }

  /** How a call ends depends on the answers it gets and on how its function ended. */
  lemma SameEnding(a: Call, b: Call, tx: nat, o: Outcome)
    requires a.commit == b.commit && a.rollback == b.rollback && a.again == b.again
    ensures Ending(a, tx, o) == Ending(b, tx, o) && Ended(a, o) == Ended(b, o)
  {
  }

  lemma {:induction false} InliningOneChangesNothing(a: Action, scope: seq<nat>, next: nat)
    ensures RunAction(InlinedOne(a, |scope|), scope, next) == RunAction(a, scope, next)
    decreases a
  {
    hide Ending, Ended, Handled;
    match a
    case Transact(ctx, call, guard) =>
      if Carried(ctx, scope) == None {
        InliningChangesNothing(call.body, scope + [next], next + 1);
        SameEnding(call, call.(body := Inlined(call.body, |scope| + 1)), next,
                   RunActions(call.body, scope + [next], next + 1).outcome);
      } else {
        InliningChangesNothing(call.body, scope, next);
      }
    case Helper(actions, guard) =>
      InliningChangesNothing(actions, scope, next);
    case _ =>
  }
}
