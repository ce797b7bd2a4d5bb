/**
 Silence about a function means that its return statements evaluate to nil or to
 constructor-built errors, in every run.  Deferred calls come after that; what the
 caller receives is the subject of PropagationSoundness.
 */
module PropagationReturns {
  import opened GoAst
  import opened PropagationLint
  import opened PropagationSemantics
  import opened PropagationMemory
  import opened PropagationDiscipline

  // --- the invariant -------------------------------------------------------------------

  predicate HeapOk(fn: Function, heap: seq<Cell>) {
    forall l | 0 <= l < |heap| :: Guarded(fn, heap[l].owner) ==> Clean(heap[l].value)
  }

  predicate ThreadOk(fn: Function, th: Thread) {
    && (forall n | n in th.work :: n in Nodes(fn.body))
    && (if th.main then
          && th.results == fn.results
          && (forall r | r in fn.results && r.obj.Var? :: r.obj in th.env)
          && (forall n | n in th.work :: n in Outer(fn.body))
        else
          forall r | r in th.results :: !IsLocal(fn, r.obj))
  }

  predicate Inv(fn: Function, s: State) {
    && HeapOk(fn, s.heap)
    && (forall l | l in s.escaped :: l < |s.heap| && Exposed(fn, s.heap[l].owner))
    && (forall c | c in s.closures :: c.lit.FuncLit? && c.lit in Nodes(fn.body))
    && (forall t | 0 <= t < |s.threads| :: ThreadOk(fn, s.threads[t]))
  }

  // --- memory operations keep it -----------------------------------------------------------

  lemma {:induction false} DeclareAllKeeps(fn: Function, m: Memory, objs: seq<Object>, vals: seq<Value>)
    requires |objs| == |vals| && HeapOk(fn, m.heap)
    requires forall i | 0 <= i < |objs| :: Guarded(fn, objs[i]) ==> Clean(vals[i])
    ensures HeapOk(fn, DeclareAll(m, objs, vals).heap)
  {
    if objs != [] {
      var k := |objs| - 1;
      DeclareAllKeeps(fn, m, objs[..k], vals[..k]);
    }
  }

  lemma {:induction false} StoreAllKeeps(fn: Function, m: Memory, targets: seq<Node>, vals: seq<Value>)
    requires |targets| == |vals| && EnvOk(m.env, m.heap) && HeapOk(fn, m.heap)
    requires forall i | 0 <= i < |targets| :: Guarded(fn, Target(targets[i])) ==> Clean(vals[i])
    ensures HeapOk(fn, StoreAll(m, targets, vals).heap)
  {
    if targets != [] {
      var k := |targets| - 1;
      StoreAllKeeps(fn, m, targets[..k], vals[..k]);
      StoreAllSane(m, targets[..k], vals[..k]);
    }
  }

  lemma SoundIsClean(fn: Function, m: Memory, e: Node, v: Value)
    requires EnvOk(m.env, m.heap) && HeapOk(fn, m.heap)
    requires Sound(fn, e) && Yields(fn, m, e, v)
    ensures Clean(v)
  {
  }

  /** Where everything the statement stores in obj is sound, it stores a clean value. */
  lemma StoresAreClean(fn: Function, m: Memory, stmt: Node, targets: seq<Node>, values: seq<Node>, vals: seq<Value>,
                       i: nat, obj: Object)
    requires EnvOk(m.env, m.heap) && HeapOk(fn, m.heap)
    requires stmt == Assign(targets, values) || stmt == ValueSpec(targets, values) ||
             (stmt.Range? && stmt.binds == targets)
    requires WellTypedStatement(stmt) && StoresSound(fn, stmt, obj) && Produces(fn, m, [], stmt, vals)
    requires i < |targets| && IdentObject(targets[i]) == obj
    ensures i < |vals| && Clean(vals[i])
  {
    if !stmt.Range? && |targets| == |values| {
      PairedValuesAt(targets, values, obj, i);
      assert values[i] in ValuesAt(stmt, obj);
      SoundIsClean(fn, m, values[i], vals[i]);
    } else if stmt.ValueSpec? && values == [] {
      assert vals[i] == Zeros(|targets|)[i];
    } else {
      assert targets[i] in targets;
      assert UntrackedAt(stmt, obj);
      assert false;
    }
  }

  lemma TargetIsPlain(fn: Function, stmt: Node, targets: seq<Node>, i: nat)
    requires Keeps(fn, PlainAssignments) && Keeps(fn, PlainRanges) && stmt in Nodes(fn.body)
    requires WellTypedStatement(stmt)
    requires (stmt.Assign? && stmt.lhs == targets) || (stmt.ValueSpec? && stmt.names == targets) ||
             (stmt.Range? && stmt.binds == targets)
    requires i < |targets| && Target(targets[i]).Var?
    ensures IdentObject(targets[i]) == Target(targets[i])
  {
    KeepsEverywhere(fn, PlainAssignments, stmt);
    KeepsEverywhere(fn, PlainRanges, stmt);
    assert targets[i] in targets;
  }

  /** A guarded variable only ever receives clean values from an assignment in the body. */
  lemma AssignmentsAreClean(fn: Function, m: Memory, stmt: Node, targets: seq<Node>, values: seq<Node>,
                            vals: seq<Value>, i: nat)
    requires Keeps(fn, PlainAssignments) && Keeps(fn, PlainRanges)
    requires stmt in Nodes(fn.body) && WellTypedStatement(stmt)
    requires stmt == Assign(targets, values) || stmt == ValueSpec(targets, values) ||
             (stmt.Range? && stmt.binds == targets)
    requires EnvOk(m.env, m.heap) && HeapOk(fn, m.heap) && Produces(fn, m, [], stmt, vals)
    requires i < |targets| && Guarded(fn, Target(targets[i]))
    ensures i < |vals| && Clean(vals[i])
  {
    hide Nodes, Exposed, Produces, Yields, WellTypedStatement, Keeps, HeapOk, EnvOk;
    var obj := Target(targets[i]);
    TargetIsPlain(fn, stmt, targets, i);
    CollectedAtRoot(fn.body, stmt, obj);
    forall v | v in ValuesAt(stmt, obj) ensures Sound(fn, v) {
      assert IsGarlicCall(v);
    }
    StoresAreClean(fn, m, stmt, targets, values, vals, i, obj);
  }

  // --- returned values are clean ---------------------------------------------------------------

  lemma JustifiedIsClean(fn: Function, m: Memory, e: Node, v: Value)
    requires WellTyped(fn) && Keeps(fn, PlainAddresses) && EnvOk(m.env, m.heap) && HeapOk(fn, m.heap)
    requires Justified(fn.body, e) && Yields(fn, m, e, v)
    requires e.Ident? ==> e.obj == NilObject || (e.name != "nil" && Owns(fn, e.obj))
    ensures Clean(v)
  {
    hide Keeps, WellTyped, Exposed;
    if e.Ident? && e.obj != NilObject {
      PropagatedIsPointerLike(fn, e.obj);
      TrackedIsHidden(fn, e.obj);
      assert Guarded(fn, e.obj);
    }
    assert Sound(fn, e) || IsNil(e);
    SoundIsClean(fn, m, e, v);
  }

  /** Silence about a return justifies each of its values at an error position. */
  lemma SilentReturn(fn: Function, ret: Node, i: nat)
    requires Reports(fn) == [] && !fn.exempt && ReturnsError(fn.results)
    requires ret in Outer(fn.body) && ret.Return? && |ret.values| == |fn.results|
    requires i < |fn.results| && fn.results[i].isError
    ensures Justified(fn.body, ret.values[i])
  {
    hide Outer, Nodes, Justified, ExplicitErrorReturns, NamedErrorResults, ReturnsError;
    NoReportsAt(fn, fn.body, ret);
    ExplicitErrorReturnsAt(ret.values, fn.results, i);
    NoReportsFor(fn.body, ErrorReturnExpressions(ret.values, fn), ret.values[i]);
  }

  lemma ExplicitReturnIsClean(fn: Function, m: Memory, ret: Node, vals: seq<Value>, i: nat)
    requires Examined(fn) && EnvOk(m.env, m.heap) && HeapOk(fn, m.heap)
    requires ret in Outer(fn.body) && ret.Return? && |ret.values| == |fn.results|
    requires Produces(fn, m, fn.results, ret, vals)
    requires i < |fn.results| && fn.results[i].isError
    ensures Clean(vals[i])
  {
    hide Outer, Nodes, Justified, Reports, Yields, Owns, HeapOk, EnvOk, Keeps, WellTyped;
    SilentReturn(fn, ret, i);
    KeepsOutside(fn, OwnIdents, ret);
    KeepsOutside(fn, NoNilIdents, ret);
    JustifiedIsClean(fn, m, ret.values[i], vals[i]);
  }

  /** A named result that a silent function returns nakedly is guarded. */
  lemma NakedResultIsGuarded(fn: Function, ret: Node, r: Result, i: nat)
    requires Examined(fn) && Keeps(fn, PointerLikeResults)
    requires ret in Outer(fn.body) && ret == Return([])
    requires i < |fn.results| && fn.results[i] == r && r.isError && r.obj.Var?
    ensures Guarded(fn, r.obj)
  {
    hide Keeps, Reports, Outer, UntrackedUnder, ValuesUnder, Exposed, WellTypedStatement;
    assert r in fn.results;
    NakedResultIsTracked(fn, ret, r, i);
    forall n | n in Nodes(fn.body) && n.Ident? && n.obj == r.obj ensures r.obj.pointerLike {
      KeepsEverywhere(fn, PointerLikeResults, n);
    }
    TrackedIsHidden(fn, r.obj);
  }

  lemma NakedResultIsTracked(fn: Function, ret: Node, r: Result, i: nat)
    requires Examined(fn) && ret in Outer(fn.body) && ret == Return([])
    requires i < |fn.results| && fn.results[i] == r && r.isError && r.obj.Var?
    ensures Tracked(fn, r.obj)
  {
    hide Keeps, Outer, Nodes, UntrackedUnder, ValuesUnder, WellTyped, NamedErrorResults;
    assert r in fn.results;
    KeepsOutside(fn, NoNilResults, ret);
    if !NeverAssigned(fn.body, r.obj) {
      NoReportsAt(fn, fn.body, ret);
      NamedErrorResultsAt(fn.body, fn.results, i);
      NoReportsFor(fn.body, ErrorReturnExpressions(ret.values, fn), ResultIdent(r));
    }
  }

  lemma NakedReturnIsClean(fn: Function, m: Memory, ret: Node, vals: seq<Value>, i: nat)
    requires Examined(fn) && Keeps(fn, PointerLikeResults) && EnvOk(m.env, m.heap) && HeapOk(fn, m.heap)
    requires ret in Outer(fn.body) && ret == Return([])
    requires Produces(fn, m, fn.results, ret, vals)
    requires i < |fn.results| && fn.results[i].isError
    ensures Clean(vals[i])
  {
    hide Outer, Nodes, Reports, Keeps, Exposed, Tracked;
    var r := fn.results[i];
    assert r in fn.results;
    if r.obj.Var? {
      NakedResultIsGuarded(fn, ret, r, i);
    } else {
      assert r.obj == NoObject;
    }
  }

  /** A multi-valued call with an error among its results is always reported. */
  lemma NoTupleReturn(fn: Function, ret: Node)
    requires Examined(fn) && ret in Outer(fn.body) && ret.Return?
    ensures ret.values == [] || |ret.values| == |fn.results|
  {
    hide Keeps;
    if ret.values != [] && |ret.values| != |fn.results| {
      var e := ret.values[0];
      assert WellTypedReturn(fn, ret.values);
      KeepsOutside(fn, ErrorTuples, ret);
      assert TupleErrorReturn(e, fn.results) == [e];
      NoReportsAt(fn, fn.body, ret);
      NoReportsFor(fn.body, ErrorReturnExpressions(ret.values, fn), e);
      ChildOf(ret, e);
      OuterTransitive(fn.body, ret, e);
      OuterWithinNodes(fn.body, e);
      assert false;
    }
  }

  lemma ReturnIsClean(fn: Function, m: Memory, ret: Node, vals: seq<Value>, i: nat)
    requires Examined(fn) && Keeps(fn, PointerLikeResults) && EnvOk(m.env, m.heap) && HeapOk(fn, m.heap)
    requires ret in Outer(fn.body) && ret.Return?
    requires Produces(fn, m, fn.results, ret, vals)
    requires i < |fn.results| && fn.results[i].isError
    ensures Clean(vals[i])
  {
    if ret.values == [] {
      NakedReturnIsClean(fn, m, ret, vals, i);
    } else {
      NoTupleReturn(fn, ret);
      ExplicitReturnIsClean(fn, m, ret, vals, i);
    }
  }

  // --- every step keeps the invariant ------------------------------------------------------------

  /** Children of a pending statement are statements of the body again. */
  lemma ChildInBody(fn: Function, stmt: Node, c: Node)
    requires stmt in Nodes(fn.body) && c in Children(stmt)
    ensures c in Nodes(fn.body)
    ensures stmt in Outer(fn.body) && !stmt.FuncLit? ==> c in Outer(fn.body)
  {
    ChildOf(stmt, c);
    NodesTransitive(fn.body, stmt, c);
    if stmt in Outer(fn.body) && !stmt.FuncLit? {
      OuterTransitive(fn.body, stmt, c);
    }
  }

  lemma HeadInBody(fn: Function, stmt: Node, x: Node, m: Node)
    requires stmt in Nodes(fn.body) && x in Heads(stmt) && m in Outer(x)
    ensures m in Nodes(fn.body)
  {
    ChildInBody(fn, stmt, x);
    OuterWithinNodes(x, m);
    NodesTransitive(fn.body, x, m);
  }

  lemma TouchedKeeps(fn: Function, s: State, stmt: Node, env: Env)
    requires Inv(fn, s) && EnvOk(env, s.heap) && stmt in Nodes(fn.body)
    ensures Inv(fn, Touched(s, stmt, env))
  {
    forall l | l in Escaping(stmt, env) ensures l < |s.heap| && Exposed(fn, s.heap[l].owner) {
      var x, m :| x in Heads(stmt) && m in Outer(x) && Exposes(m) in env && l == env[Exposes(m)];
      HeadInBody(fn, stmt, x, m);
    }
    forall c | c in Captured(stmt, env) ensures c.lit.FuncLit? && c.lit in Nodes(fn.body) {
      var x, m :| x in Heads(stmt) && m in Outer(x) && m.FuncLit? && c == Closure(env, m);
      HeadInBody(fn, stmt, x, m);
    }
  }

  lemma StoredKeeps(fn: Function, s: State, t: nat, targets: seq<Node>, vals: seq<Value>, work: seq<Node>)
    requires Sane(s) && Inv(fn, s) && t < |s.threads| && |targets| == |vals|
    requires forall i | 0 <= i < |targets| :: Guarded(fn, Target(targets[i])) ==> Clean(vals[i])
    requires forall n | n in work :: n in Nodes(fn.body)
    requires s.threads[t].main ==> forall n | n in work :: n in Outer(fn.body)
    ensures Inv(fn, Stored(s, t, targets, vals, work))
  {
    hide Guarded, Exposed, Nodes, Outer, IsLocal, StoreAll;
    var th := s.threads[t];
    var m := Memory(th.env, s.heap);
    StoreAllKeeps(fn, m, targets, vals);
    StoreAllSane(m, targets, vals);
    var m' := StoreAll(m, targets, vals);
    assert ThreadOk(fn, th);
    assert ThreadOk(fn, th.(env := m'.env, work := work));
  }

  lemma CalledKeeps(fn: Function, s: State, main: bool, env: Env, params: seq<Object>, results: seq<Result>,
                    body: Node, args: seq<Value>)
    requires Sane(s) && Inv(fn, s) && EnvOk(env, s.heap) && |args| == |params|
    requires body in Nodes(fn.body)
    requires forall o | o in params :: !IsLocal(fn, o)
    requires if main then body == fn.body && results == fn.results
             else forall r | r in results :: !IsLocal(fn, r.obj)
    ensures Inv(fn, Called(s, main, env, params, results, body, args))
  {
    hide Exposed, Nodes, IsLocal, DeclareAll, Tracked;
    var m0 := Memory(env, s.heap);
    DeclareAllKeeps(fn, m0, params, args);
    DeclareAllSane(m0, params, args);
    var m1 := DeclareAll(m0, params, args);
    DeclareAllKeeps(fn, m1, ResultObjects(results), Zeros(|results|));
    DeclareAllSane(m1, ResultObjects(results), Zeros(|results|));
    var m2 := DeclareAll(m1, ResultObjects(results), Zeros(|results|));
    forall r | r in results && r.obj.Var? ensures r.obj in m2.env {
      var i :| 0 <= i < |results| && results[i] == r;
      assert ResultObjects(results)[i] == r.obj;
    }
    assert body in Outer(body);
    assert ThreadOk(fn, Thread(main, results, m2.env, [body], false, Running));
  }

  lemma ReturnKeeps(fn: Function, s: State, t: nat, vals: seq<Value>)
    requires Examined(fn) && Keeps(fn, PointerLikeResults)
    requires Sane(s) && Inv(fn, s) && t < |s.threads| && s.threads[t].work != []
    requires s.threads[t].work[0].Return?
    requires Produces(fn, Memory(s.threads[t].env, s.heap), s.threads[t].results, s.threads[t].work[0], vals)
    ensures Inv(fn, Stored(s, t, ResultTargets(s.threads[t].results), vals, []))
  {
    hide Examined, Keeps, Exposed, Nodes, Outer, Tracked, Produces;
    var th := s.threads[t];
    assert ThreadOk(fn, th);
    var targets := ResultTargets(th.results);
    assert |vals| == |targets| by { ReturnWidth(fn, Memory(th.env, s.heap), th.results, th.work[0], vals); }
    forall i | 0 <= i < |targets| && Guarded(fn, Target(targets[i])) ensures Clean(vals[i]) {
      assert th.results[i] in th.results;
      if th.main {
        assert fn.results[i].isError;
        ReturnIsClean(fn, Memory(th.env, s.heap), th.work[0], vals, i);
      }
    }
    StoredKeeps(fn, s, t, targets, vals, []);
  }

  lemma ReturnWidth(fn: Function, m: Memory, results: seq<Result>, ret: Node, vals: seq<Value>)
    requires ret.Return? && Produces(fn, m, results, ret, vals)
    ensures |vals| == |results|
  {
  }

  /** An assignment, declaration or range clause: s has the effects of its expressions already. */
  lemma BindingKeeps(fn: Function, s: State, m: Memory, t: nat, stmt: Node, targets: seq<Node>, values: seq<Node>,
                     vals: seq<Value>, work: seq<Node>)
    requires Keeps(fn, PlainAssignments) && Keeps(fn, PlainRanges) && WellTypedStatement(stmt)
    requires EnvOk(m.env, m.heap) && HeapOk(fn, m.heap)
    requires Sane(s) && Inv(fn, s) && t < |s.threads| && stmt in Nodes(fn.body)
    requires stmt == Assign(targets, values) || stmt == ValueSpec(targets, values) ||
             (stmt.Range? && stmt.binds == targets)
    requires Produces(fn, m, [], stmt, vals)
    requires forall n | n in work :: n in Nodes(fn.body)
    requires s.threads[t].main ==> forall n | n in work :: n in Outer(fn.body)
    ensures |vals| == |targets| && Inv(fn, Stored(s, t, targets, vals, work))
  {
    forall i | 0 <= i < |targets| && Guarded(fn, Target(targets[i])) ensures Clean(vals[i]) {
      AssignmentsAreClean(fn, m, stmt, targets, values, vals, i);
    }
    StoredKeeps(fn, s, t, targets, vals, work);
  }

  /** What a statement leaves to do comes from the body. */
  lemma WorkInBody(fn: Function, th: Thread)
    requires ThreadOk(fn, th) && th.work != []
    ensures th.work[0] in Nodes(fn.body) && (th.main ==> th.work[0] in Outer(fn.body))
    ensures forall c | c in Children(th.work[0]) :: c in Nodes(fn.body)
    ensures th.main && !th.work[0].FuncLit? ==> forall c | c in Children(th.work[0]) :: c in Outer(fn.body)
    ensures forall n | n in th.work[1..] :: n in Nodes(fn.body)
    ensures th.main ==> forall n | n in th.work[1..] :: n in Outer(fn.body)
  {
    forall c | c in Children(th.work[0])
      ensures c in Nodes(fn.body) && (th.main && !th.work[0].FuncLit? ==> c in Outer(fn.body))
    {
      ChildInBody(fn, th.work[0], c);
    }
  }

  predicate Binds(stmt: Node) {
    stmt.Assign? || stmt.ValueSpec? || stmt.Range?
  }

  lemma BindingExecutedKeeps(fn: Function, s: State, t: nat, choice: bool, vals: seq<Value>)
    requires Examined(fn) && Sane(s) && Inv(fn, s) && Enabled(fn, s, Execute(t, choice, vals))
    requires Binds(s.threads[t].work[0])
    ensures Inv(fn, Executed(fn, s, t, choice, vals))
  {
    hide Keeps, HeapOk, ThreadOk, WellTypedStatement, Nodes, Outer, Exposed, StoreAll, MayRecover, Escaping, Captured;
    var th := s.threads[t];
    var stmt, rest := th.work[0], th.work[1..];
    var m := Memory(th.env, s.heap);
    assert ThreadOk(fn, th);
    WorkInBody(fn, th);
    TouchedKeeps(fn, s, stmt, th.env);
    TouchedSane(s, t);
    var s1 := Touched(s, stmt, th.env);
    match stmt
    case Assign(lhs, rhs) => BindingKeeps(fn, s1, m, t, stmt, lhs, rhs, vals, rest);
    case ValueSpec(names, values) => BindingKeeps(fn, s1, m, t, stmt, names, values, vals, rest);
    case Range(binds, _, body) =>
      if choice {
        BindingKeeps(fn, s1, m, t, stmt, binds, [], vals, [body, stmt] + rest);
      } else {
        StoredKeeps(fn, s1, t, [], [], rest);
      }
  }

  lemma ControlExecutedKeeps(fn: Function, s: State, t: nat, choice: bool, vals: seq<Value>)
    requires Sane(s) && Inv(fn, s) && Enabled(fn, s, Execute(t, choice, vals))
    requires !Binds(s.threads[t].work[0]) && !s.threads[t].work[0].Return?
    ensures Inv(fn, Executed(fn, s, t, choice, vals))
  {
    hide HeapOk, Nodes, Outer, Exposed, StoreAll, MayRecover, Escaping, Captured;
    var th := s.threads[t];
    var stmt, rest := th.work[0], th.work[1..];
    assert ThreadOk(fn, th);
    WorkInBody(fn, th);
    TouchedKeeps(fn, s, stmt, th.env);
    TouchedSane(s, t);
    var work := if stmt.Defer? then rest else Continuation(stmt, choice) + rest;
    StoredKeeps(fn, Touched(s, stmt, th.env), t, [], [], work);
    if stmt.Defer? {
      MarkKeeps(fn, Stored(Touched(s, stmt, th.env), t, [], [], rest), t, Running);
    }
  }

  /** How a thread is marked is not the invariant's business. */
  lemma MarkKeeps(fn: Function, s: State, t: nat, exit: Exit)
    requires Inv(fn, s) && t < |s.threads|
    ensures Inv(fn, Left(s, t, exit)) && forall stmt :: Inv(fn, Deferring(s, t, stmt))
  {
    assert ThreadOk(fn, s.threads[t]);
  }

  lemma ExecutedKeeps(fn: Function, s: State, t: nat, choice: bool, vals: seq<Value>)
    requires Examined(fn) && Keeps(fn, PointerLikeResults)
    requires Sane(s) && Inv(fn, s) && Enabled(fn, s, Execute(t, choice, vals))
    ensures Inv(fn, Executed(fn, s, t, choice, vals))
  {
    hide Examined, Keeps, Inv, Sane;
    var th := s.threads[t];
    if Binds(th.work[0]) {
      BindingExecutedKeeps(fn, s, t, choice, vals);
    } else if th.work[0].Return? {
      ReturnExecutedKeeps(fn, s, t, choice, vals);
    } else {
      ControlExecutedKeeps(fn, s, t, choice, vals);
    }
  }

  lemma ReturnExecutedKeeps(fn: Function, s: State, t: nat, choice: bool, vals: seq<Value>)
    requires Examined(fn) && Keeps(fn, PointerLikeResults)
    requires Sane(s) && Inv(fn, s) && Enabled(fn, s, Execute(t, choice, vals)) && s.threads[t].work[0].Return?
    ensures Inv(fn, Executed(fn, s, t, choice, vals))
  {
    hide Examined, Keeps, Produces;
    var th := s.threads[t];
    assert ThreadOk(fn, th);
    WorkInBody(fn, th);
    TouchedKeeps(fn, s, th.work[0], th.env);
    TouchedSane(s, t);
    var s1 := Touched(s, th.work[0], th.env);
    ReturnKeeps(fn, s1, t, vals);
    ReturnWidth(fn, Memory(th.env, s.heap), th.results, th.work[0], vals);
    MarkKeeps(fn, Stored(s1, t, ResultTargets(th.results), vals, []), t, Returned(vals));
  }

  lemma StepKeeps(fn: Function, s: State, step: Step)
    requires Examined(fn) && Keeps(fn, PointerLikeResults)
    requires Sane(s) && Inv(fn, s) && Enabled(fn, s, step)
    ensures Inv(fn, Apply(fn, s, step))
  {
    hide Keeps, Nodes, Outer, Exposed;
    match step
    case Invoke(args) =>
      BodyInBody(fn);
      CalledKeeps(fn, s, true, map[], fn.params, fn.results, fn.body, args);
    case Enter(c, args) =>
      ChildInBody(fn, c.lit, c.lit.body);
      CalledKeeps(fn, s, false, c.env, c.lit.params, c.lit.results, c.lit.body, args);
    case Evaluate(t) =>
      assert ThreadOk(fn, s.threads[t]);
      TouchedKeeps(fn, s, s.threads[t].work[0], s.threads[t].env);
    case Execute(t, choice, vals) =>
      ExecutedKeeps(fn, s, t, choice, vals);
    case Abandon(t, k) =>
      assert ThreadOk(fn, s.threads[t]);
    case Recover(t) =>
      MarkKeeps(fn, s, t, Recovered);
    case Disturb(loc, v) =>
  }

  lemma BodyInBody(fn: Function)
    ensures fn.body in Nodes(fn.body) && fn.body in Outer(fn.body)
  {
  }

  lemma {:induction false} RunKeeps(fn: Function, run: seq<Step>)
    requires Examined(fn) && Keeps(fn, PointerLikeResults) && Legal(fn, run)
    ensures Inv(fn, Reached(fn, run))
  {
    hide Examined, Keeps, Apply, Enabled;
    if run != [] {
      RunKeeps(fn, run[..|run| - 1]);
      EveryRunIsSane(fn, run[..|run| - 1]);
      StepKeeps(fn, Reached(fn, run[..|run| - 1]), run[|run| - 1]);
    }
  }

  /**
   Before deferred calls run: whatever the run, each value that a return statement
   of the function evaluates to in an error position is nil or was built by a
   Garlic constructor.
   */
  lemma ReturnsAreClean(fn: Function, run: seq<Step>, step: Step, i: nat)
    requires Examined(fn) && Keeps(fn, PointerLikeResults) && Legal(fn, run)
    requires Enabled(fn, Reached(fn, run), step) && IsReturn(fn, Reached(fn, run), step)
    requires i < |fn.results| && fn.results[i].isError
    ensures i < |step.vals| && Clean(step.vals[i])
  {
    hide Examined, Keeps;
    RunKeeps(fn, run);
    EveryRunIsSane(fn, run);
    var s := Reached(fn, run);
    var th := s.threads[step.t];
    assert ThreadOk(fn, th);
    assert th.work[0] in th.work;
    ReturnIsClean(fn, Memory(th.env, s.heap), th.work[0], step.vals, i);
  }
}
