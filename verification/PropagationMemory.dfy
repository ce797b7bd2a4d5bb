/**
 Memory keeps to its names: every variable a thread or a closure can see has a
 cell of its own name, in every run of every function, and storing changes only
 the cells of the variables stored to.
 */
module PropagationMemory {
  import opened GoAst
  import opened PropagationLint
  import opened PropagationSemantics

  predicate EnvOk(env: Env, heap: seq<Cell>) {
    forall o | o in env :: o.Var? && env[o] < |heap| && heap[env[o]].owner == o
  }

  predicate Grows(heap: seq<Cell>, heap': seq<Cell>) {
    |heap| <= |heap'| && forall l | 0 <= l < |heap| :: heap'[l].owner == heap[l].owner
  }

  /** The two environments agree on o. */
  predicate SameAt(env: Env, env': Env, o: Object) {
    (o in env <==> o in env') && (o in env ==> env[o] == env'[o])
  }

  // --- declarations -------------------------------------------------------------------

  lemma {:induction false} DeclareAllSane(m: Memory, objs: seq<Object>, vals: seq<Value>)
    requires |objs| == |vals| && EnvOk(m.env, m.heap)
    ensures var m' := DeclareAll(m, objs, vals);
      && EnvOk(m'.env, m'.heap) && m.heap <= m'.heap && m.env.Keys <= m'.env.Keys
      && (forall o | o in objs && o.Var? :: o in m'.env && |m.heap| <= m'.env[o])
      && (forall o | o !in objs :: SameAt(m.env, m'.env, o))
  {
    if objs != [] {
      var k := |objs| - 1;
      DeclareAllSane(m, objs[..k], vals[..k]);
      assert objs == objs[..k] + [objs[k]];
    }
  }

  // --- stores -------------------------------------------------------------------------

  /** Some target declares the variable anew. */
  predicate Redeclares(targets: seq<Node>, o: Object) {
    exists e | e in targets :: Defines(e) && e.obj == o
  }

  lemma {:induction false} StoreAllSane(m: Memory, targets: seq<Node>, vals: seq<Value>)
    requires |targets| == |vals| && EnvOk(m.env, m.heap)
    ensures var m' := StoreAll(m, targets, vals);
      && EnvOk(m'.env, m'.heap) && Grows(m.heap, m'.heap) && m.env.Keys <= m'.env.Keys
      && (forall o | !Redeclares(targets, o) :: SameAt(m.env, m'.env, o))
  {
    if targets != [] {
      var k := |targets| - 1;
      StoreAllSane(m, targets[..k], vals[..k]);
      assert targets == targets[..k] + [targets[k]];
      assert forall o | !Redeclares(targets, o) :: !Redeclares(targets[..k], o);
    }
  }

  /** A position that stores to o. */
  predicate Hits(targets: seq<Node>, o: Object, i: int) {
    0 <= i < |targets| && Target(targets[i]) == o
  }

  /** The value at some position that stores to o. */
  predicate StoredTo(targets: seq<Node>, vals: seq<Value>, o: Object, v: Value)
    requires |targets| == |vals|
  {
    exists i | 0 <= i < |targets| :: Hits(targets, o, i) && v == vals[i]
  }

  /** A store changes the cells of its target's name in this environment, and no other. */
  lemma StoreCell(m: Memory, target: Node, v: Value, l: nat)
    requires EnvOk(m.env, m.heap) && l < |m.heap| && !(Defines(target) && target.obj == m.heap[l].owner)
    ensures var o, m' := m.heap[l].owner, Store(m, target, v);
      && l < |m'.heap| && m'.heap[l].owner == o
      && m'.heap[l].value == if Target(target) == o && o in m.env && m.env[o] == l then v else m.heap[l].value
  {
  }

  /** After a statement a cell holds a value stored to its variable, or what it held. */
  lemma {:induction false} StoreAllCell(m: Memory, targets: seq<Node>, vals: seq<Value>, l: nat)
    requires |targets| == |vals| && EnvOk(m.env, m.heap) && l < |m.heap|
    requires !Redeclares(targets, m.heap[l].owner)
    ensures var o, m' := m.heap[l].owner, StoreAll(m, targets, vals);
      && l < |m'.heap| && m'.heap[l].owner == o
      && if o in m.env && m.env[o] == l && exists i :: Hits(targets, o, i)
         then StoredTo(targets, vals, o, m'.heap[l].value) else m'.heap[l].value == m.heap[l].value
  {
    hide EnvOk, Store;
    if targets != [] {
      var k, o := |targets| - 1, m.heap[l].owner;
      var before, m1 := targets[..k], StoreAll(m, targets[..k], vals[..k]);
      assert targets == before + [targets[k]] && targets[k] in targets;
      assert forall i :: Hits(targets, o, i) <==> Hits(before, o, i) || (i == k && Target(targets[k]) == o);
      StoreAllSane(m, before, vals[..k]);
      StoreAllCell(m, before, vals[..k], l);
      assert SameAt(m.env, m1.env, o);
      StoreCell(m1, targets[k], vals[k], l);
      assert forall v :: StoredTo(before, vals[..k], o, v) ==> StoredTo(targets, vals, o, v);
      if Target(targets[k]) == o { assert Hits(targets, o, k); }
      assert (exists i :: Hits(targets, o, i)) ==> (exists i :: Hits(before, o, i)) || Target(targets[k]) == o;
    }
  }

  // --- every state of every run -------------------------------------------------------------

  predicate Sane(s: State) {
    && (forall t | 0 <= t < |s.threads| :: EnvOk(s.threads[t].env, s.heap))
    && (forall c | c in s.closures :: EnvOk(c.env, s.heap))
    && (forall l | l in s.escaped :: l < |s.heap|)
  }

  lemma SaneGrows(s: State, heap': seq<Cell>)
    requires Sane(s) && Grows(s.heap, heap')
    ensures forall t | 0 <= t < |s.threads| :: EnvOk(s.threads[t].env, heap')
    ensures forall c | c in s.closures :: EnvOk(c.env, heap')
    ensures forall l | l in s.escaped :: l < |heap'|
  {
  }

  lemma TouchedSane(s: State, t: nat)
    requires Sane(s) && t < |s.threads| && s.threads[t].work != []
    ensures Sane(Touched(s, s.threads[t].work[0], s.threads[t].env))
  {
    var stmt, env := s.threads[t].work[0], s.threads[t].env;
    assert EnvOk(env, s.heap);
    forall l | l in Escaping(stmt, env) ensures l < |s.heap| {}
    forall c | c in Captured(stmt, env) ensures EnvOk(c.env, s.heap) {}
  }

  lemma CalledSane(s: State, main: bool, env: Env, params: seq<Object>, results: seq<Result>, body: Node,
                   args: seq<Value>)
    requires Sane(s) && EnvOk(env, s.heap) && |args| == |params|
    ensures Sane(Called(s, main, env, params, results, body, args))
  {
    var m := Memory(env, s.heap);
    DeclareAllSane(m, params, args);
    var m1 := DeclareAll(m, params, args);
    DeclareAllSane(m1, ResultObjects(results), Zeros(|results|));
    SaneGrows(s, DeclareAll(m1, ResultObjects(results), Zeros(|results|)).heap);
  }

  lemma StoredSane(s: State, t: nat, targets: seq<Node>, vals: seq<Value>, work: seq<Node>)
    requires Sane(s) && t < |s.threads| && |targets| == |vals|
    ensures Sane(Stored(s, t, targets, vals, work))
  {
    var m := Memory(s.threads[t].env, s.heap);
    StoreAllSane(m, targets, vals);
    SaneGrows(s, StoreAll(m, targets, vals).heap);
  }

  lemma StepSane(fn: Function, s: State, step: Step)
    requires Sane(s) && Enabled(fn, s, step)
    ensures Sane(Apply(fn, s, step))
  {
    hide Nodes, Outer, StoreAll, DeclareAll, EnvOk, MayRecover, Escaping, Captured, Yields;
    match step
    case Invoke(args) => CalledSane(s, true, map[], fn.params, fn.results, fn.body, args);
    case Enter(c, args) => CalledSane(s, false, c.env, c.lit.params, c.lit.results, c.lit.body, args);
    case Evaluate(t) => TouchedSane(s, t);
    case Execute(t, choice, vals) =>
      TouchedSane(s, t);
      var th := s.threads[t];
      var stmt, rest := th.work[0], th.work[1..];
      var s1 := Touched(s, stmt, th.env);
      match stmt {
        case Assign(lhs, _) => StoredSane(s1, t, lhs, vals, rest);
        case ValueSpec(names, _) => StoredSane(s1, t, names, vals, rest);
        case Range(binds, _, body) =>
          if choice { StoredSane(s1, t, binds, vals, [body, stmt] + rest); } else { StoredSane(s1, t, [], [], rest); }
        case Return(_) => StoredSane(s1, t, ResultTargets(th.results), vals, []);
        case Defer(_) => StoredSane(s1, t, [], [], rest);
        case _ => StoredSane(s1, t, [], [], Continuation(stmt, choice) + rest);
      }
    case Abandon(_, _) =>
    case Recover(_) =>
    case Disturb(loc, v) => SaneGrows(s, s.heap[loc := s.heap[loc].(value := v)]);
  }

  lemma {:induction false} EveryRunIsSane(fn: Function, run: seq<Step>)
    requires Legal(fn, run)
    ensures Sane(Reached(fn, run))
  {
    if run != [] {
      EveryRunIsSane(fn, run[..|run| - 1]);
      StepSane(fn, Reached(fn, run[..|run| - 1]), run[|run| - 1]);
    }
  }
}
