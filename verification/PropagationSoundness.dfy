/**
 What the caller of a checked function receives.  If the check reports nothing,
 every answer of the function is nil or was built by a constructor, after all
 deferred calls and recovered panics, provided the function keeps the discipline
 the check takes for granted (PropagationGaps shows what happens when it does not).
 */
module PropagationSoundness {
  import opened GoAst
  import opened PropagationLint
  import opened PropagationSemantics
  import opened PropagationMemory
  import opened PropagationDiscipline
  import opened PropagationReturns

  // --- the invariant -------------------------------------------------------------------

  predicate InLiteral(fn: Function, n: Node) {
    exists l | l in Nodes(fn.body) :: l.FuncLit? && n in Nodes(l.body)
  }

  /** The call has left its function, or may leave it by a panic at any time. */
  predicate Bound(fn: Function, th: Thread) {
    !th.exit.Running? || Recovers(fn)
  }

  predicate CellsClean(fn: Function, th: Thread, heap: seq<Cell>) {
    forall r | r in fn.results && r.isError && r.obj in th.env ::
      th.env[r.obj] < |heap| ==> Clean(heap[th.env[r.obj]].value)
  }

  predicate ExitOk(fn: Function, th: Thread) {
    && (!th.exit.Running? ==> th.work == [])
    && (th.recovering || th.exit.Recovered? ==> Recovers(fn))
    && (th.exit.Returned? ==>
          |th.exit.vals| == |fn.results| &&
          forall i | 0 <= i < |fn.results| && fn.results[i].isError :: Clean(th.exit.vals[i]))
  }

  predicate Holds(fn: Function, th: Thread, heap: seq<Cell>) {
    if th.main then ExitOk(fn, th) && (Bound(fn, th) ==> CellsClean(fn, th, heap))
    else forall n | n in th.work :: InLiteral(fn, n)
  }

  /** Two calls of the function never share the cell of a result. */
  predicate Apart(fn: Function, a: Thread, b: Thread) {
    forall r | r in fn.results && r.obj in a.env && r.obj in b.env :: a.env[r.obj] != b.env[r.obj]
  }

  predicate Held(fn: Function, s: State) {
    && (forall t | 0 <= t < |s.threads| :: Holds(fn, s.threads[t], s.heap))
    && (forall t, u | 0 <= t < u < |s.threads| && s.threads[t].main && s.threads[u].main ::
          Apart(fn, s.threads[t], s.threads[u]))
  }

  // --- stores ---------------------------------------------------------------------------

  /** Where no foreign value goes to an error result, or the store is another call's, cells stay clean. */
  lemma CellsStayClean(fn: Function, th: Thread, m: Memory, targets: seq<Node>, vals: seq<Value>)
    requires |targets| == |vals| && EnvOk(m.env, m.heap) && EnvOk(th.env, m.heap) && CellsClean(fn, th, m.heap)
    requires forall r | r in fn.results && r.obj.Var? :: !Redeclares(targets, r.obj)
    requires
      || (forall r | r in fn.results && r.obj in th.env && r.obj in m.env :: m.env[r.obj] != th.env[r.obj])
      || (forall i | 0 <= i < |targets| && IsErrorResult(fn, Target(targets[i])) :: Clean(vals[i]))
    ensures CellsClean(fn, th, StoreAll(m, targets, vals).heap)
  {
    forall r | r in fn.results && r.isError && r.obj in th.env && th.env[r.obj] < |StoreAll(m, targets, vals).heap|
      ensures Clean(StoreAll(m, targets, vals).heap[th.env[r.obj]].value)
    {
      StoreAllCell(m, targets, vals, th.env[r.obj]);
      assert IsErrorResult(fn, r.obj);
    }
  }

  lemma StoredHolds(fn: Function, s: State, u: nat, targets: seq<Node>, vals: seq<Value>, work: seq<Node>)
    requires Sane(s) && Held(fn, s) && u < |s.threads| && |targets| == |vals|
    requires forall r | r in fn.results && r.obj.Var? :: !Redeclares(targets, r.obj)
    requires !s.threads[u].main || Recovers(fn) ==>
               forall i | 0 <= i < |targets| && IsErrorResult(fn, Target(targets[i])) :: Clean(vals[i])
    requires s.threads[u].main ==> s.threads[u].exit.Running?
    requires !s.threads[u].main ==> forall n | n in work :: InLiteral(fn, n)
    ensures Held(fn, Stored(s, u, targets, vals, work))
  {
    hide Recovers, InLiteral, StoreAll;
    var m := Memory(s.threads[u].env, s.heap);
    StoreAllSane(m, targets, vals);
    var m' := StoreAll(m, targets, vals);
    forall t | 0 <= t < |s.threads| && s.threads[t].main && Bound(fn, s.threads[t])
      ensures CellsClean(fn, s.threads[t], m'.heap)
    {
      assert Holds(fn, s.threads[t], s.heap);
      CellsStayClean(fn, s.threads[t], m, targets, vals);
    }
    SameResults(fn, s.threads[u], m'.env);
    var s' := Stored(s, u, targets, vals, work);
    forall t | 0 <= t < |s.threads| ensures Holds(fn, s'.threads[t], s'.heap) {
      assert Holds(fn, s.threads[t], s.heap);
    }
  }

  /** With the results bound to the same cells, the same holds of a thread. */
  lemma SameResults(fn: Function, th: Thread, env: Env)
    requires forall r | r in fn.results && r.obj.Var? :: SameAt(th.env, env, r.obj)
    requires forall o | o in th.env || o in env :: o.Var?
    ensures forall heap :: CellsClean(fn, th, heap) ==> CellsClean(fn, th.(env := env), heap)
    ensures forall b :: Apart(fn, th, b) ==> Apart(fn, th.(env := env), b)
    ensures forall b :: Apart(fn, b, th) ==> Apart(fn, b, th.(env := env))
  {
  }

  // --- statements --------------------------------------------------------------------------

  /** The body declares none of its results again. */
  lemma NoResultRedeclared(fn: Function, stmt: Node, targets: seq<Node>)
    requires WellTyped(fn) && stmt in Nodes(fn.body) && forall e | e in targets :: e in Children(stmt)
    ensures forall r | r in fn.results && r.obj.Var? :: !Redeclares(targets, r.obj)
  {
    forall e | e in targets ensures e in Nodes(fn.body) {
      ChildInBody(fn, stmt, e);
    }
  }

  /** A literal's statements, and all statements of a function that recovers, store only clean values in results. */
  lemma LateStoresAreClean(fn: Function, th: Thread, heap: seq<Cell>, stmt: Node, targets: seq<Node>,
                           values: seq<Node>, vals: seq<Value>, i: nat)
    requires Covered(fn) && ThreadOk(fn, th) && Holds(fn, th, heap) && EnvOk(th.env, heap) && HeapOk(fn, heap)
    requires (!th.main || Recovers(fn)) && stmt in th.work && WellTypedStatement(stmt)
    requires stmt == Assign(targets, values) || stmt == ValueSpec(targets, values) ||
             (stmt.Range? && stmt.binds == targets)
    requires Produces(fn, Memory(th.env, heap), [], stmt, vals)
    requires i < |targets| && IsErrorResult(fn, Target(targets[i]))
    ensures i < |vals| && Clean(vals[i])
  {
    hide WellTyped, Examined, Nodes, Outer, Produces, Recovers, StoresSound, EnvOk, HeapOk, WellTypedStatement;
    TargetPlainIn(fn, stmt, targets, i);
    if th.main {
      KeepsOutside(fn, KeptByRecovery, stmt);
    } else {
      assert InLiteral(fn, stmt);
      var l :| l in Nodes(fn.body) && l.FuncLit? && stmt in Nodes(l.body);
      KeepsEverywhere(fn, KeptByLiterals, l);
    }
    assert StoresSound(fn, stmt, Target(targets[i]));
    StoresAreClean(fn, Memory(th.env, heap), stmt, targets, values, vals, i, Target(targets[i]));
  }

  lemma TargetPlainIn(fn: Function, stmt: Node, targets: seq<Node>, i: nat)
    requires Examined(fn) && stmt in Nodes(fn.body) && WellTypedStatement(stmt)
    requires (stmt.Assign? && stmt.lhs == targets) || (stmt.ValueSpec? && stmt.names == targets) ||
             (stmt.Range? && stmt.binds == targets)
    requires i < |targets| && Target(targets[i]).Var?
    ensures IdentObject(targets[i]) == Target(targets[i])
  {
    hide WellTyped, WellTypedStatement, Keeps;
    TargetIsPlain(fn, stmt, targets, i);
  }

  lemma BindingHolds(fn: Function, s: State, s1: State, t: nat, targets: seq<Node>, values: seq<Node>,
                     vals: seq<Value>, work: seq<Node>)
    requires Covered(fn) && Sane(s) && Inv(fn, s) && t < |s.threads| && s.threads[t].work != []
    requires Sane(s1) && Held(fn, s1) && s1.heap == s.heap && s1.threads == s.threads
    requires var stmt := s.threads[t].work[0];
      && WellTypedStatement(stmt)
      && (stmt == Assign(targets, values) || stmt == ValueSpec(targets, values) ||
          (stmt.Range? && stmt.binds == targets))
      && Produces(fn, Memory(s.threads[t].env, s.heap), [], stmt, vals)
    requires !s.threads[t].main ==> forall n | n in work :: InLiteral(fn, n)
    ensures |vals| == |targets| && Held(fn, Stored(s1, t, targets, vals, work))
  {
    hide Covered, WellTypedStatement, Produces, Recovers, InLiteral, StoreAll, IsErrorResult, Apart, CellsClean;
    var th := s.threads[t];
    var stmt := th.work[0];
    assert |vals| == |targets| by { BindingWidth(fn, Memory(th.env, s.heap), stmt, targets, vals); }
    assert ThreadOk(fn, th) && Holds(fn, th, s.heap) && stmt in th.work;
    if !th.main || Recovers(fn) {
      forall i | 0 <= i < |targets| && IsErrorResult(fn, Target(targets[i])) ensures Clean(vals[i]) {
        LateStoresAreClean(fn, th, s.heap, stmt, targets, values, vals, i);
      }
    }
    NothingRedeclared(fn, stmt, targets);
    StoredHolds(fn, s1, t, targets, vals, work);
  }

  lemma NothingRedeclared(fn: Function, stmt: Node, targets: seq<Node>)
    requires Covered(fn) && stmt in Nodes(fn.body) && forall e | e in targets :: e in Children(stmt)
    ensures forall r | r in fn.results && r.obj.Var? :: !Redeclares(targets, r.obj)
  {
    hide Keeps;
    NoResultRedeclared(fn, stmt, targets);
  }

  lemma BindingWidth(fn: Function, m: Memory, stmt: Node, targets: seq<Node>, vals: seq<Value>)
    requires (stmt.Assign? && stmt.lhs == targets) || (stmt.ValueSpec? && stmt.names == targets) ||
             (stmt.Range? && stmt.binds == targets)
    requires Produces(fn, m, [], stmt, vals)
    ensures |vals| == |targets| && forall e | e in targets :: e in Children(stmt)
  {
  }

  /** What remains of a literal's work is the literal's. */
  lemma LiteralWork(fn: Function, th: Thread, heap: seq<Cell>)
    requires Holds(fn, th, heap) && !th.main && th.work != []
    ensures forall c | c in Children(th.work[0]) + th.work :: InLiteral(fn, c)
  {
    var stmt := th.work[0];
    assert InLiteral(fn, stmt);
    var l :| l in Nodes(fn.body) && l.FuncLit? && stmt in Nodes(l.body);
    forall c | c in Children(stmt) ensures InLiteral(fn, c) {
      ChildOf(stmt, c);
      NodesTransitive(l.body, stmt, c);
    }
  }

  lemma TouchedHolds(fn: Function, s: State, stmt: Node, env: Env)
    requires Held(fn, s)
    ensures Held(fn, Touched(s, stmt, env))
  {
  }

  // --- returns ---------------------------------------------------------------------------------

  /** A return statement of the function leaves clean values in its results, whatever they held. */
  lemma ReturnCleans(fn: Function, th: Thread, heap: seq<Cell>, vals: seq<Value>)
    requires |vals| == |fn.results| && EnvOk(th.env, heap) && WellTyped(fn)
    requires forall i | 0 <= i < |fn.results| && fn.results[i].isError :: Clean(vals[i])
    ensures CellsClean(fn, th, StoreAll(Memory(th.env, heap), ResultTargets(fn.results), vals).heap)
  {
    hide IsLocal, Nodes, Outer, WellTypedStatement;
    var targets := ResultTargets(fn.results);
    forall r | r in fn.results && r.isError && r.obj in th.env
      ensures var heap' := StoreAll(Memory(th.env, heap), targets, vals).heap;
        th.env[r.obj] < |heap'| && Clean(heap'[th.env[r.obj]].value)
    {
      var i :| 0 <= i < |fn.results| && fn.results[i] == r;
      assert Hits(targets, r.obj, i);
      StoreAllCell(Memory(th.env, heap), targets, vals, th.env[r.obj]);
      forall j | Hits(targets, r.obj, j) ensures Clean(vals[j]) {
        assert fn.results[j] in fn.results;
      }
    }
  }

  lemma OwnReturnHolds(fn: Function, s: State, t: nat, vals: seq<Value>)
    requires WellTyped(fn) && Sane(s) && Held(fn, s) && t < |s.threads| && s.threads[t].main
    requires s.threads[t].results == fn.results && |vals| == |fn.results| && s.threads[t].exit.Running?
    requires forall i | 0 <= i < |fn.results| && fn.results[i].isError :: Clean(vals[i])
    ensures Held(fn, Left(Stored(s, t, ResultTargets(fn.results), vals, []), t, Returned(vals)))
  {
    hide WellTyped, Recovers, StoreAll;
    var th, targets := s.threads[t], ResultTargets(fn.results);
    assert Holds(fn, th, s.heap);
    StoredHolds(fn, s, t, targets, vals, []) by {
      assert forall i | 0 <= i < |targets| && IsErrorResult(fn, Target(targets[i])) :: Clean(vals[i]) by {
        ErrorTargets(fn, vals);
      }
    }
    ReturnCleans(fn, th, s.heap, vals);
    var s1 := Stored(s, t, targets, vals, []);
    StoreAllSane(Memory(th.env, s.heap), targets, vals);
    SameResults(fn, th, s1.threads[t].env);
    assert Holds(fn, s1.threads[t], s1.heap);
    var s2 := Left(s1, t, Returned(vals));
    forall u | 0 <= u < |s2.threads| ensures Holds(fn, s2.threads[u], s2.heap) {
      assert Holds(fn, s1.threads[u], s1.heap);
    }
  }

  lemma ErrorTargets(fn: Function, vals: seq<Value>)
    requires WellTyped(fn) && |vals| == |fn.results|
    requires forall i | 0 <= i < |fn.results| && fn.results[i].isError :: Clean(vals[i])
    ensures var targets := ResultTargets(fn.results);
      forall i | 0 <= i < |targets| && IsErrorResult(fn, Target(targets[i])) :: Clean(vals[i])
  {
    forall i | 0 <= i < |fn.results| && IsErrorResult(fn, fn.results[i].obj) ensures fn.results[i].isError {
      assert fn.results[i] in fn.results;
    }
  }

  /** The results of a literal are not the function's. */
  lemma OtherReturnHolds(fn: Function, s: State, t: nat, vals: seq<Value>)
    requires Sane(s) && Held(fn, s) && t < |s.threads| && !s.threads[t].main
    requires ThreadOk(fn, s.threads[t]) && |vals| == |s.threads[t].results|
    ensures Held(fn, Left(Stored(s, t, ResultTargets(s.threads[t].results), vals, []), t, Returned(vals)))
  {
    hide Recovers, StoreAll;
    var th := s.threads[t];
    var targets := ResultTargets(th.results);
    forall i | 0 <= i < |targets| ensures !IsErrorResult(fn, Target(targets[i])) {
      assert th.results[i] in th.results;
    }
    StoredHolds(fn, s, t, targets, vals, []);
  }

  lemma ReturnHolds(fn: Function, s: State, t: nat, choice: bool, vals: seq<Value>)
    requires Covered(fn) && Sane(s) && Inv(fn, s) && Held(fn, s)
    requires Enabled(fn, s, Execute(t, choice, vals)) && s.threads[t].work[0].Return?
    ensures Held(fn, Executed(fn, s, t, choice, vals))
  {
    hide WellTyped, Recovers, Produces, Stored, Keeps;
    var th := s.threads[t];
    var m := Memory(th.env, s.heap);
    assert ThreadOk(fn, th) && Holds(fn, th, s.heap);
    WorkInBody(fn, th);
    TouchedSane(s, t);
    TouchedHolds(fn, s, th.work[0], th.env);
    ReturnWidth(fn, m, th.results, th.work[0], vals);
    var s1 := Touched(s, th.work[0], th.env);
    if th.main {
      forall i | 0 <= i < |fn.results| && fn.results[i].isError ensures Clean(vals[i]) {
        ReturnIsClean(fn, m, th.work[0], vals, i);
      }
      OwnReturnHolds(fn, s1, t, vals);
    } else {
      OtherReturnHolds(fn, s1, t, vals);
    }
  }

  // --- calls -------------------------------------------------------------------------------------

  /** A new call gets new cells for its results. */
  lemma CalledHolds(fn: Function, s: State, main: bool, env: Env, params: seq<Object>, results: seq<Result>, body: Node,
                    args: seq<Value>)
    requires Sane(s) && Held(fn, s) && EnvOk(env, s.heap) && |args| == |params|
    requires main ==> results == fn.results && env == map[]
    requires !main ==> InLiteral(fn, body)
    ensures Held(fn, Called(s, main, env, params, results, body, args))
  {
    hide Recovers, InLiteral, DeclareAll;
    var m0 := Memory(env, s.heap);
    DeclareAllSane(m0, params, args);
    var m1 := DeclareAll(m0, params, args);
    DeclareAllSane(m1, ResultObjects(results), Zeros(|results|));
    var m2 := DeclareAll(m1, ResultObjects(results), Zeros(|results|));
    var th := Thread(main, results, m2.env, [body], false, Running);
    var s' := Called(s, main, env, params, results, body, args);
    assert s'.heap == m2.heap && s'.threads == s.threads + [th];
    if main { NewCells(fn, m0, m1, m2, th, args); }
    forall t | 0 <= t < |s'.threads| ensures Holds(fn, s'.threads[t], s'.heap) {
      if t < |s.threads| {
        assert Holds(fn, s.threads[t], s.heap) && EnvOk(s.threads[t].env, s.heap);
      }
    }
    forall t | 0 <= t < |s.threads| && main ensures Apart(fn, s.threads[t], th) {
      assert EnvOk(s.threads[t].env, s.heap);
    }
  }

  lemma NewCells(fn: Function, m0: Memory, m1: Memory, m2: Memory, th: Thread, args: seq<Value>)
    requires m0.heap <= m1.heap && m1.heap <= m2.heap
    requires m2 == DeclareAll(m1, ResultObjects(fn.results), Zeros(|fn.results|)) && EnvOk(m1.env, m1.heap)
    requires th.env == m2.env
    ensures forall r | r in fn.results && r.obj in th.env :: |m0.heap| <= th.env[r.obj]
    ensures CellsClean(fn, th, m2.heap)
  {
    DeclareAllSane(m1, ResultObjects(fn.results), Zeros(|fn.results|));
    NewCellsAreZero(m1, ResultObjects(fn.results), |fn.results|);
    forall r | r in fn.results && r.obj in th.env
      ensures |m0.heap| <= th.env[r.obj] < |m2.heap| && Clean(m2.heap[th.env[r.obj]].value)
    {
      var i :| 0 <= i < |fn.results| && fn.results[i] == r;
      assert ResultObjects(fn.results)[i] == r.obj;
    }
  }

  lemma {:induction false} NewCellsAreZero(m: Memory, objs: seq<Object>, n: nat)
    requires |objs| == n
    ensures var heap' := DeclareAll(m, objs, Zeros(n)).heap;
      |m.heap| <= |heap'| && forall l | |m.heap| <= l < |heap'| :: heap'[l].value == Zero
  {
    if n != 0 {
      assert Zeros(n)[..n - 1] == Zeros(n - 1);
      NewCellsAreZero(m, objs[..n - 1], n - 1);
    }
  }

  // --- steps and runs ---------------------------------------------------------------------------

  lemma BindingExecutedHolds(fn: Function, s: State, t: nat, choice: bool, vals: seq<Value>)
    requires Covered(fn) && Sane(s) && Inv(fn, s) && Held(fn, s) && Enabled(fn, s, Execute(t, choice, vals))
    requires Binds(s.threads[t].work[0])
    ensures Held(fn, Executed(fn, s, t, choice, vals))
  {
    hide Keeps, HeapOk, WellTypedStatement, Nodes, Outer, Recovers, CellsClean, Apart, InLiteral, StoreAll;
    var th := s.threads[t];
    var stmt, rest := th.work[0], th.work[1..];
    assert ThreadOk(fn, th) && Holds(fn, th, s.heap);
    WorkInBody(fn, th);
    if !th.main { LiteralWork(fn, th, s.heap); }
    TouchedSane(s, t);
    TouchedHolds(fn, s, stmt, th.env);
    var s1 := Touched(s, stmt, th.env);
    match stmt
    case Assign(lhs, rhs) => BindingHolds(fn, s, s1, t, lhs, rhs, vals, rest);
    case ValueSpec(names, values) => BindingHolds(fn, s, s1, t, names, values, vals, rest);
    case Range(binds, _, body) =>
      if choice {
        BindingHolds(fn, s, s1, t, binds, [], vals, [body, stmt] + rest);
      } else {
        StoredHolds(fn, s1, t, [], [], rest);
      }
  }

  lemma ControlExecutedHolds(fn: Function, s: State, t: nat, choice: bool, vals: seq<Value>)
    requires Sane(s) && Inv(fn, s) && Held(fn, s) && Enabled(fn, s, Execute(t, choice, vals))
    requires !Binds(s.threads[t].work[0]) && !s.threads[t].work[0].Return?
    ensures Held(fn, Executed(fn, s, t, choice, vals))
  {
    hide HeapOk, Nodes, Outer, Recovers, CellsClean, Apart, InLiteral, StoreAll;
    var th := s.threads[t];
    var stmt, rest := th.work[0], th.work[1..];
    assert ThreadOk(fn, th) && Holds(fn, th, s.heap);
    if !th.main { LiteralWork(fn, th, s.heap); }
    TouchedSane(s, t);
    TouchedHolds(fn, s, stmt, th.env);
    var s1 := Touched(s, stmt, th.env);
    var work := if stmt.Defer? then rest else Continuation(stmt, choice) + rest;
    assert forall c | c in Continuation(stmt, choice) :: c == stmt || c in Children(stmt);
    StoredHolds(fn, s1, t, [], [], work);
    if stmt.Defer? {
      DeferringHolds(fn, s, Stored(s1, t, [], [], rest), t);
    }
  }

  /** A call that may be recovered belongs to a function that recovers. */
  lemma DeferringHolds(fn: Function, s: State, s1: State, t: nat)
    requires Held(fn, s1) && t < |s.threads| == |s1.threads| && ThreadOk(fn, s.threads[t])
    requires s.threads[t].work != [] && s.threads[t].work[0].Defer? && s1.threads[t].main == s.threads[t].main
    ensures Held(fn, Deferring(s1, t, s.threads[t].work[0]))
  {
    hide InLiteral;
    assert Holds(fn, s1.threads[t], s1.heap);
    if s.threads[t].main { assert s.threads[t].work[0] in Outer(fn.body); }
    assert Holds(fn, Deferring(s1, t, s.threads[t].work[0]).threads[t], s1.heap);
  }

  lemma ExecutedHolds(fn: Function, s: State, t: nat, choice: bool, vals: seq<Value>)
    requires Covered(fn) && Sane(s) && Inv(fn, s) && Held(fn, s) && Enabled(fn, s, Execute(t, choice, vals))
    ensures Held(fn, Executed(fn, s, t, choice, vals))
  {
    hide Covered, Sane, Inv, Held;
    if Binds(s.threads[t].work[0]) {
      BindingExecutedHolds(fn, s, t, choice, vals);
    } else if s.threads[t].work[0].Return? {
      ReturnHolds(fn, s, t, choice, vals);
    } else {
      ControlExecutedHolds(fn, s, t, choice, vals);
    }
  }

  /** No write the body does not name reaches a named error result. */
  lemma DisturbHolds(fn: Function, s: State, loc: nat, v: Value)
    requires Covered(fn) && Sane(s) && Inv(fn, s) && Held(fn, s) && loc < |s.heap| && loc in s.escaped
    ensures Held(fn, s.(heap := s.heap[loc := s.heap[loc].(value := v)]))
  {
    hide Keeps, WellTyped, Recovers, InLiteral, Exposed;
    if IsErrorResult(fn, s.heap[loc].owner) { ResultIsHidden(fn, s.heap[loc].owner); }
    var s' := s.(heap := s.heap[loc := s.heap[loc].(value := v)]);
    forall t | 0 <= t < |s.threads| ensures Holds(fn, s.threads[t], s'.heap) {
      assert Holds(fn, s.threads[t], s.heap) && EnvOk(s.threads[t].env, s.heap);
      forall r | r in fn.results && r.isError && r.obj in s.threads[t].env ensures s.threads[t].env[r.obj] != loc {
        assert IsErrorResult(fn, r.obj);
      }
    }
  }

  lemma LeavingHolds(fn: Function, s: State, t: nat)
    requires Held(fn, s) && t < |s.threads|
    ensures forall k: nat :: k <= |s.threads[t].work| ==>
      Held(fn, s.(threads := s.threads[t := s.threads[t].(work := s.threads[t].work[k..])]))
    ensures s.threads[t].main && s.threads[t].recovering && s.threads[t].exit.Running? ==>
      Held(fn, Left(s, t, Recovered))
  {
    hide InLiteral, Recovers;
    assert Holds(fn, s.threads[t], s.heap);
  }

  lemma StepHolds(fn: Function, s: State, step: Step)
    requires Covered(fn) && Sane(s) && Inv(fn, s) && Held(fn, s) && Enabled(fn, s, step)
    ensures Held(fn, Apply(fn, s, step))
  {
    hide Covered, Nodes, Outer, Held, Called, Executed;
    match step
    case Invoke(args) => CalledHolds(fn, s, true, map[], fn.params, fn.results, fn.body, args);
    case Enter(c, args) =>
      LiteralBody(fn, c.lit);
      CalledHolds(fn, s, false, c.env, c.lit.params, c.lit.results, c.lit.body, args);
    case Evaluate(t) => TouchedHolds(fn, s, s.threads[t].work[0], s.threads[t].env);
    case Execute(t, choice, vals) => ExecutedHolds(fn, s, t, choice, vals);
    case Abandon(t, k) => LeavingHolds(fn, s, t);
    case Recover(t) => LeavingHolds(fn, s, t);
    case Disturb(loc, v) => DisturbHolds(fn, s, loc, v);
  }

  lemma LiteralBody(fn: Function, lit: Node)
    requires lit.FuncLit? && lit in Nodes(fn.body)
    ensures InLiteral(fn, lit.body)
  {
    assert lit.body in Nodes(lit.body);
  }

  lemma {:induction false} RunHolds(fn: Function, run: seq<Step>)
    requires Covered(fn) && Legal(fn, run)
    ensures Held(fn, Reached(fn, run))
  {
    hide Examined, Keeps, Inv, Apply, Enabled;
    if run != [] {
      RunHolds(fn, run[..|run| - 1]);
      RunKeeps(fn, run[..|run| - 1]);
      EveryRunIsSane(fn, run[..|run| - 1]);
      StepHolds(fn, Reached(fn, run[..|run| - 1]), run[|run| - 1]);
    }
  }

  /**
   Soundness: whatever the run, whatever has been deferred, recovered or started in
   the background, everything a caller can receive in an error position is nil or
   was built by a Garlic constructor.
   */
  lemma CheckIsSound(fn: Function, run: seq<Step>, t: nat, i: nat)
    requires Covered(fn) && Legal(fn, run) && Answers(Reached(fn, run), t)
    requires i < |fn.results| && fn.results[i].isError
    ensures i < |Reached(fn, run).threads[t].results| && Clean(Received(Reached(fn, run), t, i))
  {
    hide Examined, Keeps, Nodes, Outer, Recovers;
    RunKeeps(fn, run);
    RunHolds(fn, run);
    var s := Reached(fn, run);
    assert ThreadOk(fn, s.threads[t]) && Holds(fn, s.threads[t], s.heap);
    assert fn.results[i] in fn.results;
  }

  /** So no run leaks. */
  lemma NothingLeaks(fn: Function, run: seq<Step>)
    requires Covered(fn) && Legal(fn, run)
    ensures !Leaks(fn, run)
  {
    hide Covered, Legal, Reached;
    if Leaks(fn, run) {
      var s := Reached(fn, run);
      var t :| 0 <= t < |s.threads| && AnswersRaw(s, t);
      ResultsOf(fn, run, t);
      var i :| 0 <= i < |s.threads[t].results| && s.threads[t].results[i].isError && !Clean(Received(s, t, i));
      CheckIsSound(fn, run, t, i);
      assert false;
    }
  }

  lemma ResultsOf(fn: Function, run: seq<Step>, t: nat)
    requires Covered(fn) && Legal(fn, run) && t < |Reached(fn, run).threads| && Reached(fn, run).threads[t].main
    ensures Reached(fn, run).threads[t].results == fn.results
  {
    RunKeeps(fn, run);
    assert ThreadOk(fn, Reached(fn, run).threads[t]);
  }
}
