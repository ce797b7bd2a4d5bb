/**
 The clauses on named results are exact: in a function written plainly, breaking
 one of them always shows, in a run that abandons nothing and whose caller receives
 an error no constructor built.
 */
module PropagationExactness {
  import opened GoAst
  import opened PropagationLint
  import opened PropagationSemantics
  import opened PropagationMemory
  import opened PropagationDiscipline
  import opened PropagationReturns
  import opened PropagationSoundness

  // --- plain functions -----------------------------------------------------------------

  predicate IsStatement(n: Node) {
    n.Assign? || n.ValueSpec? || n.Range? || n.Return? || n.If? || n.For? || n.Block? || n.ExprStmt? || n.Defer?
  }

  /** Control can come out behind the statement. */
  predicate Falls(n: Node) {
    match n
    case Return(_) => false
    case Block(stmts) => forall c | c in stmts :: Falls(c)
    case If(_, thn, els) => Falls(thn) || Falls(els)
    case _ => true
  }

  /** Expressions hold expressions, statements are where Go has them, and none is dead. */
  predicate WellFormed(n: Node) {
    match n
    case FuncLit(_, _, body) => body.Block?
    case Range(binds, over, body) => body.Block? && !IsStatement(over) && forall e | e in binds :: !IsStatement(e)
    case If(cond, thn, els) => !IsStatement(cond) && IsStatement(thn) && IsStatement(els)
    case For(cond, body) => !IsStatement(cond) && body.Block?
    case Block(stmts) =>
      (forall c | c in stmts :: IsStatement(c)) && forall i | 0 <= i < |stmts| - 1 :: Falls(stmts[i])
    case _ => forall c | c in Children(n) :: !IsStatement(c)
  }

  /** A variable from outside of the function. */
  predicate Foreign(fn: Function, obj: Object) {
    Unbound(fn, obj) && obj !in fn.params && forall r | r in fn.results :: r.obj != obj
  }

  /** Not a copy of a variable whose value depends on what happened before. */
  predicate NoCopy(fn: Function, e: Node) {
    Target(e).Var? ==> Guarded(fn, Target(e)) || Foreign(fn, Target(e))
  }

  /** An assignment names an error result once, and copies no such variable to it. */
  predicate Traceable(fn: Function, n: Node) {
    n.Assign? && |n.lhs| == |n.rhs| ==>
      forall i | 0 <= i < |n.lhs| && IsErrorResult(fn, Target(n.lhs[i])) ::
        NoCopy(fn, n.rhs[i]) && forall j | 0 <= j < |n.lhs| && j != i :: Target(n.lhs[j]) != Target(n.lhs[i])
  }

  /** The k-th statement defers a call that may recover, and those before it leave the results alone. */
  predicate DefersAt(fn: Function, k: nat) {
    fn.body.Block? && k < |fn.body.stmts| && MayRecover(fn.body.stmts[k]) &&
    forall i, m | 0 <= i < k && m in Outer(fn.body.stmts[i]) :: SparesResults(fn, m)
  }

  predicate Plain(fn: Function) {
    && (forall n | n in Nodes(fn.body) :: WellFormed(n) && Traceable(fn, n))
    && fn.body.Block? && !Falls(fn.body)
    && (Recovers(fn) ==> exists k: nat | k < |fn.body.stmts| :: DefersAt(fn, k))
  }

  // --- where nodes are -----------------------------------------------------------------------

  lemma {:induction false} ExpressionsOnly(n: Node, m: Node)
    requires !IsStatement(n) && m in Outer(n) && forall c | c in Nodes(n) :: WellFormed(c)
    ensures !IsStatement(m)
    decreases n
  {
    if m != n {
      var c := FindOuterChild(n, m, |Children(n)|);
      ChildOf(n, c);
      assert n in Nodes(n) && c in Nodes(c);
      ExpressionsOnly(c, m);
    }
  }

  /** An expression is evaluated by a statement, unless it is declared by one. */
  lemma {:induction false} Host(n: Node, m: Node) returns (h: Node, x: Node)
    requires IsStatement(n) && !IsStatement(m) && m in Outer(n)
    requires forall c | c in Nodes(n) :: WellFormed(c) && WellTypedStatement(c)
    requires !Defines(m)
    ensures h in Outer(n) && IsStatement(h) && x in Heads(h) && m in Outer(x)
    decreases n
  {
    hide Outer, Nodes, WellTypedStatement;
    var c := HostChild(n, m);
    if IsStatement(c) {
      h, x := Host(c, m);
      HostUp(n, c, h);
    } else {
      h, x := n, c;
      NotDeclared(n, c, m);
    }
  }

  lemma HostChild(n: Node, m: Node) returns (c: Node)
    requires IsStatement(n) && !IsStatement(m) && m in Outer(n)
    requires forall d | d in Nodes(n) :: WellFormed(d) && WellTypedStatement(d)
    ensures c in Children(n) && m in Outer(c) && n in Outer(n) && WellFormed(n) && WellTypedStatement(n)
    ensures forall d | d in Nodes(c) :: WellFormed(d) && WellTypedStatement(d)
  {
    hide WellFormed, WellTypedStatement;
    c := FindOuterChild(n, m, |Children(n)|);
    ChildOf(n, c);
    assert n in Nodes(n);
  }

  lemma HostUp(n: Node, c: Node, h: Node)
    requires c in Children(n) && h in Outer(c) && !n.FuncLit?
    ensures h in Outer(n)
  {
    ChildOf(n, c);
  }

  lemma NotDeclared(n: Node, c: Node, m: Node)
    requires IsStatement(n) && WellFormed(n) && WellTypedStatement(n) && c in Children(n) && !IsStatement(c)
    requires m in Outer(c) && !Defines(m)
    ensures c in Heads(n)
  {
  }

  /** A node is outside of all literals, or in one that is outside of all others. */
  lemma {:induction false} Inside(n: Node, m: Node) returns (l: Node)
    requires m in Nodes(n)
    ensures m in Outer(n) || (l in Outer(n) && l.FuncLit? && m in Nodes(l.body))
    decreases n
  {
    l := n;
    if m != n {
      var c := FindChild(n, m, |Children(n)|);
      if !n.FuncLit? {
        l := Inside(c, m);
        ChildOf(n, c);
      }
    }
  }

  // --- steps of one thread --------------------------------------------------------------------

  /** A run that abandons nothing. */
  predicate Straight(run: seq<Step>) {
    forall step | step in run :: !step.Abandon?
  }

  /** The result o has its cell at l, and nothing from outside of the function has one. */
  ghost predicate Sees(fn: Function, env: Env, o: Object, l: nat) {
    o in env && env[o] == l && forall p | Foreign(fn, p) :: p !in env
  }

  /** From s to s' only thread t has moved. */
  ghost predicate Later(fn: Function, s: State, s': State, t: nat, o: Object, l: nat) {
    && t < |s.threads| == |s'.threads| && (forall u | 0 <= u < |s.threads| && u != t :: s'.threads[u] == s.threads[u])
    && s.closures <= s'.closures && s.escaped <= s'.escaped && |s.heap| <= |s'.heap|
    && s'.threads[t].main == s.threads[t].main && s'.threads[t].results == s.threads[t].results
    && (s.threads[t].recovering ==> s'.threads[t].recovering)
    && Sees(fn, s'.threads[t].env, o, l)
  }

  /** Thread t is about to do this work, and the function is one to be traced. */
  ghost predicate Ready(fn: Function, run: seq<Step>, s: State, t: nat, work: seq<Node>, o: Object, l: nat) {
    && At(fn, run, s) && Straight(run)
    && t < |s.threads| && s.threads[t].work == work && Sees(fn, s.threads[t].env, o, l)
  }

  predicate Traced(fn: Function, o: Object) {
    && IsErrorResult(fn, o) && Unbound(fn, o)
    && forall n | n in Nodes(fn.body) :: WellFormed(n) && WellTypedStatement(n) && Traceable(fn, n)
  }

  /** A value an expression may always have. */
  function SomeValue(fn: Function, m: Memory, e: Node): (v: Value)
    ensures Yields(fn, m, e, v)
  {
    match e
    case Ident(_, obj, _) =>
      if obj == NilObject then Zero
      else if obj in m.env && m.env[obj] < |m.heap| then m.heap[m.env[obj]].value
      else Zero
    case Paren(x) => SomeValue(fn, m, x)
    case _ => Garlic
  }

  function SomeValues(fn: Function, m: Memory, exprs: seq<Node>): (vals: seq<Value>)
    ensures |vals| == |exprs| && forall i | 0 <= i < |exprs| :: Yields(fn, m, exprs[i], vals[i])
  {
    seq(|exprs|, i requires 0 <= i < |exprs| => SomeValue(fn, m, exprs[i]))
  }

  function Raws(n: nat): seq<Value> {
    seq(n, _ => Raw)
  }

  /** Every statement may produce something. */
  function Some(fn: Function, m: Memory, results: seq<Result>, stmt: Node): (vals: seq<Value>)
    ensures Produces(fn, m, results, stmt, vals)
  {
    match stmt
    case Assign(lhs, rhs) => if |lhs| == |rhs| then SomeValues(fn, m, rhs) else Raws(|lhs|)
    case ValueSpec(names, values) =>
      if values == [] then Zeros(|names|)
      else if |names| == |values| then SomeValues(fn, m, values) else Raws(|names|)
    case Range(binds, _, _) => Raws(|binds|)
    case Return(values) =>
      if values == [] then
        seq(|results|, i requires 0 <= i < |results| =>
          if results[i].obj == NoObject then Zero else SomeValue(fn, m, ResultIdent(results[i])))
      else if |values| == |results| then SomeValues(fn, m, values) else Raws(|results|)
    case _ => []
  }

  /** What a statement puts before the rest of the work. */
  function Next(stmt: Node, choice: bool): seq<Node> {
    if stmt.Range? then (if choice then [stmt.body, stmt] else []) else Continuation(stmt, choice)
  }

  /** The targets of a statement as the step uses them. */
  function TargetsOf(stmt: Node, choice: bool): seq<Node> {
    match stmt
    case Assign(lhs, _) => lhs
    case ValueSpec(names, _) => names
    case Range(binds, _, _) => if choice then binds else []
    case _ => []
  }

  lemma BindsNothingOutside(fn: Function, stmt: Node, choice: bool, o: Object)
    requires stmt in Nodes(fn.body) && Unbound(fn, o)
    ensures !Redeclares(TargetsOf(stmt, choice), o)
  {
    forall e | e in TargetsOf(stmt, choice) ensures e in Nodes(fn.body) {
      ChildInBody(fn, stmt, e);
    }
  }

  /** The values that go to them. */
  function Used(stmt: Node, choice: bool, vals: seq<Value>): seq<Value> {
    if TargetsOf(stmt, choice) == [] then [] else vals
  }

  /** What executing a statement other than a return changes. */
  lemma ExecutedShape(fn: Function, s: State, t: nat, choice: bool, vals: seq<Value>)
    requires Enabled(fn, s, Execute(t, choice, vals)) && !s.threads[t].work[0].Return?
    ensures var th, stmt := s.threads[t], s.threads[t].work[0];
      var targets, used := TargetsOf(stmt, choice), Used(stmt, choice, vals);
      && |targets| == |used|
      && var m := StoreAll(Memory(th.env, s.heap), targets, used);
      Executed(fn, s, t, choice, vals) ==
      State(m.heap, s.escaped + Escaping(stmt, th.env), s.closures + Captured(stmt, th.env),
            s.threads[t := th.(env := m.env, work := Next(stmt, choice) + th.work[1..],
                               recovering := th.recovering || MayRecover(stmt))])
  {
    hide MayRecover, Escaping, Captured;
    var rest := s.threads[t].work[1..];
    var stmt := s.threads[t].work[0];
    assert [] + rest == rest;
    NoOther(stmt);
    if stmt.Range? { assert [stmt.body, stmt] + rest == Next(stmt, true) + rest; }
  }

  lemma NoOther(stmt: Node)
    ensures MayRecover(stmt) ==> stmt.Defer?
  {
  }

  /** Execute a statement other than a return. */
  lemma Advance(fn: Function, run: seq<Step>, s: State, t: nat, work: seq<Node>, choice: bool, vals: seq<Value>,
                o: Object, l: nat)
    returns (run': seq<Step>, s': State)
    requires Ready(fn, run, s, t, work, o, l) && Unbound(fn, o)
    requires work != [] && work[0] in Nodes(fn.body) && !work[0].Return?
    requires Produces(fn, Memory(s.threads[t].env, s.heap), s.threads[t].results, work[0], vals)
    ensures Ready(fn, run', s', t, Next(work[0], choice) + work[1..], o, l) && Later(fn, s, s', t, o, l)
    ensures s'.threads[t].exit == s.threads[t].exit && (MayRecover(work[0]) ==> s'.threads[t].recovering)
    ensures var targets, used := TargetsOf(work[0], choice), Used(work[0], choice, vals);
      |targets| == |used| && s'.heap == StoreAll(Memory(s.threads[t].env, s.heap), targets, used).heap
  {
    hide Nodes, Outer, Unbound, Executed, Produces, TargetsOf, Used, StoreAll, MayRecover, Escaping, Captured, Next;
    var m := Memory(s.threads[t].env, s.heap);
    var targets, used := TargetsOf(work[0], choice), Used(work[0], choice, vals);
    run' := Take(fn, run, s, Execute(t, choice, vals));
    s' := Apply(fn, s, Execute(t, choice, vals));
    ExecutedShape(fn, s, t, choice, vals);
    EveryRunIsSane(fn, run);
    StoreAllSane(m, targets, used);
    SeesOn(fn, m.env, s'.threads[t].env, targets, o, l) by {
      BindsNothingOutside(fn, work[0], choice, o);
      forall p | Foreign(fn, p) ensures !Redeclares(targets, p) { BindsNothingOutside(fn, work[0], choice, p); }
    }
  }

  lemma SeesOn(fn: Function, env: Env, env': Env, targets: seq<Node>, o: Object, l: nat)
    requires Sees(fn, env, o, l) && !Redeclares(targets, o) && forall p | Foreign(fn, p) :: !Redeclares(targets, p)
    requires forall p | !Redeclares(targets, p) :: SameAt(env, env', p)
    ensures Sees(fn, env', o, l)
  {
  }

  // --- completing statements -----------------------------------------------------------------------

  lemma LaterChain(fn: Function, s: State, s1: State, s2: State, t: nat, o: Object, l: nat)
    requires Later(fn, s, s1, t, o, l) && Later(fn, s1, s2, t, o, l)
    ensures Later(fn, s, s2, t, o, l)
  {
  }

  /** A statement that falls is left behind; any other returns. */
  ghost predicate Completed(fn: Function, s: State, run': seq<Step>, s': State, t: nat, falls: bool, rest: seq<Node>,
                            o: Object, l: nat) {
    && Later(fn, s, s', t, o, l)
    && Ready(fn, run', s', t, if falls then rest else [], o, l)
    && if falls then s'.threads[t].exit == s.threads[t].exit else s'.threads[t].exit.Returned?
  }

  lemma Leave(fn: Function, run: seq<Step>, s: State, t: nat, work: seq<Node>, o: Object, l: nat)
    returns (run': seq<Step>, s': State)
    requires Ready(fn, run, s, t, work, o, l) && work != [] && work[0].Return?
    ensures Completed(fn, s, run', s', t, false, [], o, l)
  {
    hide Some, MayRecover, Escaping, Captured, StoreAll, Produces, Foreign;
    var th := s.threads[t];
    var m := Memory(th.env, s.heap);
    var vals := Some(fn, m, th.results, work[0]);
    ReturnWidth(fn, m, th.results, work[0], vals);
    run' := Take(fn, run, s, Execute(t, true, vals));
    s' := Apply(fn, s, Execute(t, true, vals));
    EveryRunIsSane(fn, run);
    StoreAllSane(m, ResultTargets(th.results), vals);
    SeesOn(fn, m.env, s'.threads[t].env, ResultTargets(th.results), o, l);
  }

  /** Carry out the statement at hand, by a branch that falls if there is one. */
  lemma {:induction false} Complete(fn: Function, run: seq<Step>, s: State, t: nat, n: Node, rest: seq<Node>,
                                    o: Object, l: nat)
    returns (run': seq<Step>, s': State)
    requires Ready(fn, run, s, t, [n] + rest, o, l) && Traced(fn, o) && n in Nodes(fn.body) && IsStatement(n)
    ensures Completed(fn, s, run', s', t, Falls(n), rest, o, l)
    decreases n, |Children(n)| + 1
  {
    hide Later, Nodes, Produces, Traced, Unbound, Traceable, WellTypedStatement, Some, Used, TargetsOf, Sees, At;
    hide MayRecover;
    var work := [n] + rest;
    assert work[0] == n && work[1..] == rest;
    if n.Return? {
      run', s' := Leave(fn, run, s, t, work, o, l);
    } else {
      var choice := n.If? && (Falls(n.thn) || !Falls(n.els));
      run', s' := Proceed(fn, run, s, t, n, rest, choice, o, l);
      assert WellFormed(n) && forall c | c in Children(n) :: c in Nodes(fn.body) by { TracedParts(fn, n, o); }
      var s1 := s';
      match n {
        case Block(stmts) =>
          run', s' := CompleteFrom(fn, run', s', t, n, 0, rest, o, l);
        case If(_, thn, els) =>
          run', s' := Complete(fn, run', s', t, if choice then thn else els, rest, o, l);
        case _ =>
          assert [] + rest == rest;
      }
      if n.Block? || n.If? { LaterChain(fn, s, s1, s', t, o, l); }
    }
  }

  lemma TracedParts(fn: Function, n: Node, o: Object)
    requires Traced(fn, o) && n in Nodes(fn.body)
    ensures WellFormed(n) && WellTypedStatement(n) && Traceable(fn, n)
    ensures forall c | c in Children(n) :: c in Nodes(fn.body)
  {
    forall c | c in Children(n) ensures c in Nodes(fn.body) { ChildInBody(fn, n, c); }
  }

  /** One step on, with some values. */
  lemma Proceed(fn: Function, run: seq<Step>, s: State, t: nat, n: Node, rest: seq<Node>, choice: bool,
                o: Object, l: nat)
    returns (run': seq<Step>, s': State)
    requires Ready(fn, run, s, t, [n] + rest, o, l) && Traced(fn, o) && n in Nodes(fn.body) && !n.Return?
    ensures Ready(fn, run', s', t, Next(n, choice) + rest, o, l) && Later(fn, s, s', t, o, l)
    ensures s'.threads[t].exit == s.threads[t].exit && (MayRecover(n) ==> s'.threads[t].recovering)
  {
    hide Next, Produces, Nodes, MayRecover, Later, Some;
    var work := [n] + rest;
    assert work[0] == n && work[1..] == rest;
    var vals := Some(fn, Memory(s.threads[t].env, s.heap), s.threads[t].results, n);
    run', s' := Advance(fn, run, s, t, work, choice, vals, o, l);
  }

  /** The statements of a block from the i-th on. */
  lemma {:induction false} CompleteFrom(fn: Function, run: seq<Step>, s: State, t: nat, n: Node, i: nat,
                                        rest: seq<Node>, o: Object, l: nat)
    returns (run': seq<Step>, s': State)
    requires n.Block? && i <= |n.stmts| && WellFormed(n) && n in Nodes(fn.body) && Traced(fn, o)
    requires Ready(fn, run, s, t, n.stmts[i..] + rest, o, l)
    requires forall c | c in n.stmts[..i] :: Falls(c)
    ensures Completed(fn, s, run', s', t, Falls(n), rest, o, l)
    decreases n, |n.stmts| - i
  {
    hide Later, Nodes, Traced, Sees, At;
    if i == |n.stmts| {
      run', s' := run, s;
      assert n.stmts[i..] + rest == rest && n.stmts[..i] == n.stmts;
      LaterSelf(fn, s, t, o, l);
    } else {
      var c := n.stmts[i];
      assert c in Children(n) && c in n.stmts;
      TracedParts(fn, n, o);
      var tail := n.stmts[i + 1..] + rest;
      assert n.stmts[i..] + rest == [c] + tail;
      run', s' := Complete(fn, run, s, t, c, tail, o, l);
      if Falls(c) {
        var s1 := s';
        assert n.stmts[..i + 1] == n.stmts[..i] + [c];
        run', s' := CompleteFrom(fn, run', s', t, n, i + 1, rest, o, l);
        LaterChain(fn, s, s1, s', t, o, l);
      } else {
        assert !Falls(n);
      }
    }
  }

  lemma LaterSelf(fn: Function, s: State, t: nat, o: Object, l: nat)
    requires t < |s.threads| && Sees(fn, s.threads[t].env, o, l)
    ensures Later(fn, s, s, t, o, l)
  {
  }

  /** Some statement of the work does not fall. */
  predicate Ends(work: seq<Node>) {
    exists n | n in work :: !Falls(n)
  }

  /** Work that ends in a return is carried out until then. */
  lemma {:induction false} RunOut(fn: Function, run: seq<Step>, s: State, t: nat, work: seq<Node>, o: Object, l: nat)
    returns (run': seq<Step>, s': State)
    requires Ready(fn, run, s, t, work, o, l) && Traced(fn, o) && Ends(work)
    requires forall n | n in work :: n in Nodes(fn.body) && IsStatement(n)
    ensures Completed(fn, s, run', s', t, false, [], o, l)
    decreases |work|
  {
    hide Later, Nodes, Traced, Sees, At, IsStatement;
    assert work == [work[0]] + work[1..];
    run', s' := Complete(fn, run, s, t, work[0], work[1..], o, l);
    if Falls(work[0]) {
      var s1 := s';
      run', s' := RunOut(fn, run', s', t, work[1..], o, l);
      LaterChain(fn, s, s1, s', t, o, l);
    }
  }

  // --- reaching a statement ------------------------------------------------------------------------

  predicate BodyWork(fn: Function, work: seq<Node>) {
    forall n | n in work :: n in Nodes(fn.body) && IsStatement(n)
  }

  /** Thread t has come to m, with the way to the end still before it. */
  ghost predicate Arrived(fn: Function, s: State, run': seq<Step>, s': State, t: nat, ends: bool, m: Node,
                          rest': seq<Node>, o: Object, l: nat) {
    && Later(fn, s, s', t, o, l) && s'.threads[t].exit == s.threads[t].exit
    && Ready(fn, run', s', t, [m] + rest', o, l)
    && BodyWork(fn, [m] + rest') && (ends ==> Ends([m] + rest'))
  }

  /** Leave the first statements of a block behind. */
  lemma {:induction false} PassTo(fn: Function, run: seq<Step>, s: State, t: nat, n: Node, i: nat, j: nat,
                                  rest: seq<Node>, o: Object, l: nat)
    returns (run': seq<Step>, s': State)
    requires n.Block? && i <= j <= |n.stmts| && n in Nodes(fn.body) && Traced(fn, o)
    requires Ready(fn, run, s, t, n.stmts[i..] + rest, o, l)
    requires forall c | c in n.stmts[..j] :: Falls(c)
    ensures Later(fn, s, s', t, o, l) && s'.threads[t].exit == s.threads[t].exit
    ensures Ready(fn, run', s', t, n.stmts[j..] + rest, o, l)
    decreases j - i
  {
    hide Later, Nodes, Traced, Sees, At;
    run', s' := run, s;
    if i == j {
      LaterSelf(fn, s, t, o, l);
    } else {
      var c := n.stmts[i];
      assert c in Children(n) && c in n.stmts[..j];
      TracedParts(fn, n, o);
      var tail := n.stmts[i + 1..] + rest;
      assert n.stmts[i..] + rest == [c] + tail;
      run', s' := Complete(fn, run, s, t, c, tail, o, l);
      var s1 := s';
      run', s' := PassTo(fn, run', s', t, n, i + 1, j, rest, o, l);
      LaterChain(fn, s, s1, s', t, o, l);
    }
  }

  /** The child of a statement on the way to another. */
  lemma StatementChild(fn: Function, n: Node, m: Node, o: Object) returns (c: Node)
    requires Traced(fn, o) && n in Nodes(fn.body) && IsStatement(n)
    requires m in Outer(n) && m != n && IsStatement(m)
    ensures c in Children(n) && m in Outer(c) && IsStatement(c) && c in Nodes(fn.body)
  {
    TracedParts(fn, n, o);
    c := FindOuterChild(n, m, |Children(n)|);
    if !IsStatement(c) {
      forall d | d in Nodes(c) ensures WellFormed(d) { NodesTransitive(fn.body, c, d); }
      ExpressionsOnly(c, m);
    }
  }

  /** Any statement outside of the literals below n is reached from n. */
  lemma {:induction false} Reach(fn: Function, run: seq<Step>, s: State, t: nat, n: Node, rest: seq<Node>, m: Node,
                                 o: Object, l: nat)
    returns (run': seq<Step>, s': State, rest': seq<Node>)
    requires Ready(fn, run, s, t, [n] + rest, o, l) && Traced(fn, o) && BodyWork(fn, [n] + rest)
    requires m in Outer(n) && IsStatement(m)
    ensures Arrived(fn, s, run', s', t, Ends([n] + rest), m, rest', o, l)
    decreases n
  {
    hide Later, Nodes, Traced, Sees, At, Outer, Falls, Ends;
    assert n in [n] + rest;
    run', s', rest' := run, s, rest;
    if m == n {
      LaterSelf(fn, s, t, o, l);
    } else {
      var c := StatementChild(fn, n, m, o);
      run', s', rest' := ReachChild(fn, run, s, t, n, rest, c, o, l);
      var s1 := s';
      run', s', rest' := Reach(fn, run', s', t, c, rest', m, o, l);
      LaterChain(fn, s, s1, s', t, o, l);
    }
  }

  lemma InWork(fn: Function, n: Node, rest: seq<Node>)
    requires BodyWork(fn, [n] + rest)
    ensures n in Nodes(fn.body) && IsStatement(n)
  {
    assert n in [n] + rest;
  }

  lemma AllButLastFall(n: Node)
    requires n.Block? && WellFormed(n)
    ensures forall i, c | 0 <= i < |n.stmts| && c in n.stmts[..i] :: Falls(c)
  {
  }

  lemma ReachChild(fn: Function, run: seq<Step>, s: State, t: nat, n: Node, rest: seq<Node>, c: Node,
                   o: Object, l: nat)
    returns (run': seq<Step>, s': State, rest': seq<Node>)
    requires Ready(fn, run, s, t, [n] + rest, o, l) && Traced(fn, o) && BodyWork(fn, [n] + rest)
    requires c in Children(n) && IsStatement(c)
    ensures Arrived(fn, s, run', s', t, Ends([n] + rest), c, rest', o, l)
  {
    hide Later, Nodes, Traced, Sees, At, Outer, Ends, BodyWork, MayRecover, Falls;
    InWork(fn, n, rest);
    TracedParts(fn, n, o);
    if n.Block? { AllButLastFall(n); }
    var choice := n.Range? || n.For? || (n.If? && c == n.thn);
    run', s' := Proceed(fn, run, s, t, n, rest, choice, o, l);
    if n.Block? {
      var i :| 0 <= i < |n.stmts| && n.stmts[i] == c;
      var s1 := s';
      assert n.stmts + rest == n.stmts[0..] + rest;
      run', s' := PassTo(fn, run', s', t, n, 0, i, rest, o, l);
      LaterChain(fn, s, s1, s', t, o, l);
      rest' := n.stmts[i + 1..] + rest;
      BlockWork(fn, n, i, rest);
    } else {
      rest' := Next(n, choice)[1..] + rest;
      OtherWork(fn, n, c, choice, rest);
    }
  }

  lemma BlockWork(fn: Function, n: Node, i: nat, rest: seq<Node>)
    requires n.Block? && WellFormed(n) && i < |n.stmts| && BodyWork(fn, [n] + rest)
    requires forall c | c in Children(n) :: c in Nodes(fn.body)
    ensures var work := [n.stmts[i]] + (n.stmts[i + 1..] + rest);
      && n.stmts[i..] + rest == work && BodyWork(fn, work) && (Ends([n] + rest) ==> Ends(work))
  {
    hide Nodes;
    var work := [n.stmts[i]] + (n.stmts[i + 1..] + rest);
    assert n.stmts[i..] + rest == work;
    BlockEnds(n, i, rest);
    forall e | e in work ensures e in Nodes(fn.body) && IsStatement(e) {
      assert e in n.stmts || e in [n] + rest;
    }
  }

  lemma OtherWork(fn: Function, n: Node, c: Node, choice: bool, rest: seq<Node>)
    requires (n.Range? || n.For? || n.If?) && WellFormed(n) && BodyWork(fn, [n] + rest)
    requires c in Nodes(fn.body) && IsStatement(c) && Next(n, choice) != [] && Next(n, choice)[0] == c
    ensures var work := [c] + (Next(n, choice)[1..] + rest);
      && Next(n, choice) + rest == work && BodyWork(fn, work) && (Ends([n] + rest) ==> Ends(work))
  {
    hide Nodes;
    var work := [c] + (Next(n, choice)[1..] + rest);
    assert Next(n, choice) + rest == work;
    OthersEnd(n, choice, rest);
    forall e | e in work ensures e in Nodes(fn.body) && IsStatement(e) {
      assert e == c || e in [n] + rest;
    }
  }

  /** Behind statements that fall, a block ends as it did. */
  lemma BlockEnds(n: Node, i: nat, rest: seq<Node>)
    requires n.Block? && i < |n.stmts| && forall c | c in n.stmts[..i] :: Falls(c)
    ensures Ends([n] + rest) ==> Ends(n.stmts[i..] + rest)
  {
    if Ends([n] + rest) {
      var e :| e in [n] + rest && !Falls(e);
      if e != n {
        assert e in n.stmts[i..] + rest;
      } else {
        var c :| c in n.stmts && !Falls(c);
        assert n.stmts == n.stmts[..i] + n.stmts[i..];
        assert c in n.stmts[i..] + rest;
      }
    }
  }

  lemma OthersEnd(n: Node, choice: bool, rest: seq<Node>)
    requires n.Range? || n.For? || n.If?
    requires Next(n, choice) != []
    ensures Ends([n] + rest) ==> Ends(Next(n, choice) + rest)
  {
    if Ends([n] + rest) {
      var e :| e in [n] + rest && !Falls(e);
      if e == n {
        assert Next(n, choice)[0] in Next(n, choice) + rest;
      } else {
        assert e in Next(n, choice) + rest;
      }
    }
  }

  // --- striking a result -----------------------------------------------------------------------------

  /** The cell of the result holds a foreign error, or the environment may put one there. */
  predicate Struck(s: State, l: nat) {
    l in s.escaped || (l < |s.heap| && s.heap[l].value == Raw)
  }

  lemma ExpressionHost(fn: Function, n: Node, m: Node, o: Object) returns (h: Node, x: Node)
    requires Traced(fn, o) && n in Nodes(fn.body) && IsStatement(n)
    requires m in Outer(n) && !IsStatement(m) && !Defines(m)
    ensures h in Outer(n) && IsStatement(h) && x in Heads(h) && m in Outer(x)
  {
    forall d | d in Nodes(n) ensures WellFormed(d) && WellTypedStatement(d) { NodesTransitive(fn.body, n, d); }
    h, x := Host(n, m);
  }

  /** Go to an expression and evaluate it. */
  lemma Look(fn: Function, run: seq<Step>, s: State, t: nat, n: Node, rest: seq<Node>, m: Node, o: Object, l: nat)
    returns (run': seq<Step>, s': State, work': seq<Node>)
    requires Ready(fn, run, s, t, [n] + rest, o, l) && Traced(fn, o) && BodyWork(fn, [n] + rest)
    requires m in Outer(n) && !IsStatement(m) && !Defines(m)
    ensures Later(fn, s, s', t, o, l) && s'.threads[t].exit == s.threads[t].exit
    ensures Ready(fn, run', s', t, work', o, l) && BodyWork(fn, work') && (Ends([n] + rest) ==> Ends(work'))
    ensures Exposes(m) == o ==> l in s'.escaped
    ensures m.FuncLit? ==> Closure(s'.threads[t].env, m) in s'.closures
  {
    hide Nodes, Traced, Outer, Falls, Ends, IsStatement, Heads, Foreign;
    assert n in [n] + rest;
    var h, x := ExpressionHost(fn, n, m, o);
    var rest';
    run', s', rest' := Reach(fn, run, s, t, n, rest, h, o, l);
    work' := [h] + rest';
    var s1, env := s', s'.threads[t].env;
    run' := Take(fn, run', s1, Evaluate(t));
    s' := Touched(s1, h, env);
    if Exposes(m) == o { assert env[Exposes(m)] in Escaping(h, env); }
    if m.FuncLit? { assert Closure(env, m) in Captured(h, env); }
  }

  /** What an unsound expression may yield. */
  lemma {:induction false} UnsoundYieldsRaw(fn: Function, m: Memory, e: Node)
    requires !Sound(fn, e) && NoCopy(fn, e) && NoObject !in m.env && forall p | Foreign(fn, p) :: p !in m.env
    ensures Yields(fn, m, e, Raw)
    decreases e
  {
    match e
    case Paren(x) => UnsoundYieldsRaw(fn, m, x);
    case Ident(_, obj, _) => if obj.Var? { ForeignIsNotLocal(fn, obj); }
    case _ =>
  }

  lemma ForeignIsNotLocal(fn: Function, obj: Object)
    requires Foreign(fn, obj)
    ensures !IsLocal(fn, obj)
  {
  }

  /** Values for an unsound statement that put a foreign error into o. */
  lemma RawValues(fn: Function, m: Memory, results: seq<Result>, n: Node, o: Object) returns (vals: seq<Value>)
    requires Traced(fn, o) && n in Nodes(fn.body) && !StoresSound(fn, n, o)
    requires NoObject !in m.env && forall p | Foreign(fn, p) :: p !in m.env
    ensures Binds(n) && Produces(fn, m, results, n, vals)
    ensures var targets := TargetsOf(n, true);
      && |vals| == |targets| && (exists i :: Hits(targets, o, i))
      && forall i | Hits(targets, o, i) :: vals[i] == Raw
  {
    hide Foreign, Guarded, Yields, NoCopy, WellFormed;
    TracedParts(fn, n, o);
    vals := Raws(|TargetsOf(n, true)|);
    if n.Assign? && |n.lhs| == |n.rhs| {
      var v :| v in ValuesAt(n, o) && !Sound(fn, v);
      var i := PairedFrom(n.lhs, n.rhs, v, o);
      UnsoundYieldsRaw(fn, m, v) by { assert IsErrorResult(fn, Target(n.lhs[i])); }
      vals := SomeValues(fn, m, n.rhs)[i := Raw];
      assert Hits(n.lhs, o, i);
    } else {
      if n.ValueSpec? { NotAName(fn, n, o); }
      var e :| e in TargetsOf(n, true) && IdentObject(e) == o;
      var i :| 0 <= i < |TargetsOf(n, true)| && TargetsOf(n, true)[i] == e;
      assert Hits(TargetsOf(n, true), o, i);
    }
  }

  /** A result is not among the names of a declaration. */
  lemma NotAName(fn: Function, n: Node, o: Object)
    requires Traced(fn, o) && n in Nodes(fn.body) && n.ValueSpec?
    ensures StoresSound(fn, n, o)
  {
    TracedParts(fn, n, o);
    forall e | e in n.names ensures e in Nodes(fn.body) && IdentObject(e) != o {
      ChildInBody(fn, n, e);
    }
    if |n.names| == |n.values| && ValuesAt(n, o) != [] {
      var i := PairedFrom(n.names, n.values, ValuesAt(n, o)[0], o);
    }
  }

  /** Execute an unsound statement. */
  lemma RawStore(fn: Function, run: seq<Step>, s: State, t: nat, n: Node, rest: seq<Node>, o: Object, l: nat)
    returns (run': seq<Step>, s': State)
    requires Ready(fn, run, s, t, [n] + rest, o, l) && Traced(fn, o)
    requires n in Nodes(fn.body) && !StoresSound(fn, n, o)
    ensures Later(fn, s, s', t, o, l) && s'.threads[t].exit == s.threads[t].exit
    ensures At(fn, run', s') && Straight(run') && l < |s'.heap| && s'.heap[l].value == Raw
  {
    hide Nodes, StoresSound, Produces, Later, Foreign, Next, StoreAll, TargetsOf, IsErrorResult;
    var work := [n] + rest;
    assert work[0] == n && work[1..] == rest;
    var m := Memory(s.threads[t].env, s.heap);
    EveryRunIsSane(fn, run);
    var vals := RawValues(fn, m, s.threads[t].results, n, o);
    run', s' := Advance(fn, run, s, t, work, true, vals, o, l);
    BindsNothingOutside(fn, n, true, o);
    StoreAllCell(m, TargetsOf(n, true), vals, l);
  }

  // --- from a literal --------------------------------------------------------------------------------

  /** A node that may do a named result harm. */
  predicate Harms(fn: Function, m: Node, o: Object) {
    Exposes(m) == o || !StoresSound(fn, m, o)
  }

  /** Earlier threads have not moved since s. */
  predicate Beside(s: State, s': State) {
    |s.threads| <= |s'.threads| && s'.threads[..|s.threads|] == s.threads
  }

  lemma HarmIsNoDeclaration(fn: Function, m: Node, o: Object)
    requires Traced(fn, o) && m in Nodes(fn.body) && Harms(fn, m, o)
    ensures StoresSound(fn, m, o) ==> !IsStatement(m) && !Defines(m)
    ensures !StoresSound(fn, m, o) ==> IsStatement(m)
  {
  }

  /** Thread t comes to a harmful node outside of the literals below n. */
  lemma Strike(fn: Function, run: seq<Step>, s: State, t: nat, n: Node, rest: seq<Node>, m: Node, o: Object, l: nat)
    returns (run': seq<Step>, s': State)
    requires Ready(fn, run, s, t, [n] + rest, o, l) && Traced(fn, o) && BodyWork(fn, [n] + rest)
    requires m in Outer(n) && m in Nodes(fn.body) && Harms(fn, m, o)
    ensures At(fn, run', s') && Straight(run') && Struck(s', l) && Later(fn, s, s', t, o, l)
  {
    hide Nodes, Traced, Outer, StoresSound, Sees, IsStatement, Defines, Falls;
    HarmIsNoDeclaration(fn, m, o);
    if StoresSound(fn, m, o) {
      var work';
      run', s', work' := Look(fn, run, s, t, n, rest, m, o, l);
    } else {
      var rest';
      run', s', rest' := Reach(fn, run, s, t, n, rest, m, o, l);
      var s1 := s';
      assert m in [m] + rest';
      run', s' := RawStore(fn, run', s1, t, m, rest', o, l);
      LaterChain(fn, s, s1, s', t, o, l);
    }
  }

  /** A call hides no variable but its own parameters and results. */
  lemma CalledSees(s: State, main: bool, env: Env, params: seq<Object>, results: seq<Result>, body: Node,
                   args: seq<Value>, p: Object)
    requires EnvOk(env, s.heap) && |args| == |params| && p !in params && forall r | r in results :: r.obj != p
    ensures SameAt(env, Called(s, main, env, params, results, body, args).threads[|s.threads|].env, p)
  {
    var m0 := Memory(env, s.heap);
    DeclareAllSane(m0, params, args);
    var m1 := DeclareAll(m0, params, args);
    DeclareAllSane(m1, ResultObjects(results), Zeros(|results|));
    assert p !in ResultObjects(results);
  }

  /** Call a closure. */
  lemma CallClosure(fn: Function, run: seq<Step>, s: State, c: Closure, o: Object, l: nat)
    returns (run': seq<Step>, s': State)
    requires At(fn, run, s) && Straight(run) && c in s.closures && Sees(fn, c.env, o, l)
    requires Traced(fn, o) && c.lit in Nodes(fn.body) && c.lit.FuncLit?
    ensures Ready(fn, run', s', |s.threads|, [c.lit.body], o, l) && Beside(s, s')
    ensures BodyWork(fn, [c.lit.body]) && |s'.threads| == |s.threads| + 1
  {
    hide Nodes, Outer, IsErrorResult, WellTypedStatement, Traceable, DeclareAll, EnvOk, SameAt;
    var args := Raws(|c.lit.params|);
    run' := Take(fn, run, s, Enter(c, args));
    s' := Apply(fn, s, Enter(c, args));
    EveryRunIsSane(fn, run);
    ClosureSees(fn, s, c, args, o, l);
    ChildInBody(fn, c.lit, c.lit.body);
  }

  lemma ClosureSees(fn: Function, s: State, c: Closure, args: seq<Value>, o: Object, l: nat)
    requires EnvOk(c.env, s.heap) && Sees(fn, c.env, o, l) && Unbound(fn, o)
    requires c.lit in Nodes(fn.body) && c.lit.FuncLit? && |args| == |c.lit.params|
    ensures var s' := Called(s, false, c.env, c.lit.params, c.lit.results, c.lit.body, args);
      Sees(fn, s'.threads[|s.threads|].env, o, l)
  {
    forall p | p == o || Foreign(fn, p)
      ensures var s' := Called(s, false, c.env, c.lit.params, c.lit.results, c.lit.body, args);
        SameAt(c.env, s'.threads[|s.threads|].env, p)
    {
      CalledSees(s, false, c.env, c.lit.params, c.lit.results, c.lit.body, args, p);
    }
  }

  lemma {:induction false} NodesAreSmaller(n: Node, m: Node)
    requires m in Nodes(n)
    ensures m == n || m < n
    decreases n
  {
    if m != n {
      var c := FindChild(n, m, |Children(n)|);
      NodesAreSmaller(c, m);
    }
  }

  lemma InLiteralBody(fn: Function, lit: Node, m: Node)
    requires lit in Nodes(fn.body) && lit.FuncLit? && m in Nodes(lit.body)
    ensures m in Nodes(fn.body) && m < lit
  {
    ChildInBody(fn, lit, lit.body);
    NodesTransitive(fn.body, lit.body, m);
    NodesAreSmaller(lit.body, m);
  }

  /** Through the literals, one in the other, to a harmful node. */
  lemma {:induction false} Through(fn: Function, run: seq<Step>, s: State, c: Closure, m: Node, o: Object, l: nat)
    returns (run': seq<Step>, s': State)
    requires At(fn, run, s) && Straight(run) && c in s.closures && Sees(fn, c.env, o, l)
    requires Traced(fn, o) && c.lit in Nodes(fn.body) && c.lit.FuncLit?
    requires m in Nodes(c.lit.body) && Harms(fn, m, o)
    ensures At(fn, run', s') && Straight(run') && Struck(s', l) && Beside(s, s')
    decreases c.lit
  {
    hide Nodes, Outer, Traced, Harms, Struck, Sees, StoresSound, Falls;
    var body, t := c.lit.body, |s.threads|;
    run', s' := CallClosure(fn, run, s, c, o, l);
    var s1 := s';
    assert [body] + [] == [body] && body in [body];
    InLiteralBody(fn, c.lit, m);
    var lit := Inside(body, m);
    if m in Outer(body) {
      run', s' := Strike(fn, run', s', t, body, [], m, o, l);
    } else {
      OuterWithinNodes(body, lit);
      InLiteralBody(fn, c.lit, lit);
      var work';
      run', s', work' := Look(fn, run', s', t, body, [], lit, o, l);
      run', s' := Through(fn, run', s', Closure(s'.threads[t].env, lit), m, o, l);
    }
  }

  // --- the caller receives it ----------------------------------------------------------------------------

  /** The first call has left the function, with its result o at l. */
  ghost predicate Gone(fn: Function, run: seq<Step>, s: State, o: Object, l: nat) {
    && At(fn, run, s) && Straight(run) && Answers(s, 0) && s.threads[0].results == fn.results
    && Sees(fn, s.threads[0].env, o, l)
  }

  lemma PlainIsTraced(fn: Function, o: Object)
    requires WellTyped(fn) && Plain(fn) && IsErrorResult(fn, o)
    ensures Traced(fn, o)
  {
  }

  lemma Start(fn: Function, o: Object) returns (run: seq<Step>, s: State, l: nat)
    requires WellTyped(fn) && Plain(fn) && IsErrorResult(fn, o)
    ensures Ready(fn, run, s, 0, [fn.body], o, l) && BodyWork(fn, [fn.body]) && Ends([fn.body])
    ensures |s.threads| == 1 && s.threads[0].main && s.threads[0].results == fn.results && s.threads[0].exit.Running?
  {
    hide Nodes, Outer, WellTyped, WellTypedStatement, WellFormed, Traceable, DefersAt, DeclareAll;
    var args := Raws(|fn.params|);
    run := Take(fn, [], Initial, Invoke(args));
    s := Apply(fn, Initial, Invoke(args));
    BodyInBody(fn);
    FirstSees(fn, args, o);
    l := s.threads[0].env[o];
  }

  lemma FirstSees(fn: Function, args: seq<Value>, o: Object)
    requires |args| == |fn.params| && IsErrorResult(fn, o)
    ensures var env := Called(Initial, true, map[], fn.params, fn.results, fn.body, args).threads[0].env;
      o in env && forall p | Foreign(fn, p) :: p !in env
  {
    var m0 := Memory(map[], []);
    DeclareAllSane(m0, fn.params, args);
    var m1 := DeclareAll(m0, fn.params, args);
    DeclareAllSane(m1, ResultObjects(fn.results), Zeros(|fn.results|));
    var r :| r in fn.results && r.isError && r.obj == o;
    var i :| 0 <= i < |fn.results| && fn.results[i] == r;
    assert ResultObjects(fn.results)[i] == o;
    forall p | Foreign(fn, p) ensures p !in ResultObjects(fn.results) {}
  }

  /** A struck result of a call that is gone is received. */
  lemma Receive(fn: Function, run: seq<Step>, s: State, o: Object, l: nat) returns (run': seq<Step>)
    requires Gone(fn, run, s, o, l) && Struck(s, l) && IsErrorResult(fn, o)
    ensures Legal(fn, run') && Straight(run') && Leaks(fn, run')
  {
    hide Apply, Enabled;
    EveryRunIsSane(fn, run);
    run' := run;
    var s' := s;
    if s.heap[l].value != Raw {
      run', s' := DisturbAt(fn, run, s, l);
    }
    var r :| r in fn.results && r.isError && r.obj == o;
    var i :| 0 <= i < |fn.results| && fn.results[i] == r;
    assert s'.threads[0].results[i].isError && !Clean(Received(s', 0, i));
    assert AnswersRaw(s', 0);
  }

  lemma DisturbAt(fn: Function, run: seq<Step>, s: State, l: nat) returns (run': seq<Step>, s': State)
    requires At(fn, run, s) && Straight(run) && l in s.escaped && l < |s.heap|
    ensures At(fn, run', s') && Straight(run')
    ensures s' == s.(heap := s.heap[l := s.heap[l].(value := Raw)])
  {
    run' := Take(fn, run, s, Disturb(l, Raw));
    s' := Apply(fn, s, Disturb(l, Raw));
  }

  /** Look at an expression on the way, and return. */
  lemma LookAndReturn(fn: Function, m: Node, o: Object) returns (run: seq<Step>, s: State, l: nat, env: Env)
    requires WellTyped(fn) && Plain(fn) && IsErrorResult(fn, o)
    requires m in Outer(fn.body) && !IsStatement(m) && !Defines(m)
    ensures Gone(fn, run, s, o, l) && |s.threads| == 1
    ensures Exposes(m) == o ==> Struck(s, l)
    ensures m.FuncLit? ==> Closure(env, m) in s.closures && Sees(fn, env, o, l)
  {
    hide Nodes, Outer, Traced, Sees, IsStatement, Falls, Ends, WellTyped, Plain;
    PlainIsTraced(fn, o);
    var work;
    run, s, l := Start(fn, o);
    assert [fn.body] + [] == [fn.body];
    run, s, work := Look(fn, run, s, 0, fn.body, [], m, o, l);
    env := s.threads[0].env;
    run, s := RunOut(fn, run, s, 0, work, o, l);
  }

  /** The address of a named result is taken, or it can be changed in place. */
  lemma ExposureLeaks(fn: Function, m: Node, o: Object) returns (run: seq<Step>)
    requires WellTyped(fn) && Plain(fn) && IsErrorResult(fn, o)
    requires m in Nodes(fn.body) && Exposes(m) == o
    ensures Legal(fn, run) && Straight(run) && Leaks(fn, run)
  {
    hide Nodes, Outer, WellTyped, Plain, Struck;
    var lit := Inside(fn.body, m);
    if m in Outer(fn.body) {
      ExposesNothingDeclared(fn, m, o);
      var s, l, env;
      run, s, l, env := LookAndReturn(fn, m, o);
      run := Receive(fn, run, s, o, l);
    } else {
      run := LiteralLeaks(fn, lit, m, o);
    }
  }

  lemma ExposesNothingDeclared(fn: Function, m: Node, o: Object)
    requires WellTyped(fn) && Plain(fn) && IsErrorResult(fn, o) && m in Nodes(fn.body) && Exposes(m) == o
    ensures !IsStatement(m) && !Defines(m)
  {
  }

  /** A literal does harm to a named result. */
  lemma LiteralLeaks(fn: Function, lit: Node, m: Node, o: Object) returns (run: seq<Step>)
    requires WellTyped(fn) && Plain(fn) && IsErrorResult(fn, o)
    requires lit in Outer(fn.body) && lit.FuncLit? && m in Nodes(lit.body) && Harms(fn, m, o)
    ensures Legal(fn, run) && Straight(run) && Leaks(fn, run)
  {
    hide Nodes, Outer, WellTyped, Plain, Struck, Harms, Sees, Traced;
    PlainIsTraced(fn, o);
    OuterWithinNodes(fn.body, lit);
    var s, l, env;
    run, s, l, env := LookAndReturn(fn, lit, o);
    var s1 := s;
    run, s := Through(fn, run, s1, Closure(env, lit), m, o, l);
    assert s.threads[0] == s1.threads[0];
    run := Receive(fn, run, s, o, l);
  }

  /** The first call, up to and including its deferral. */
  ghost predicate Waiting(fn: Function, run: seq<Step>, s: State, o: Object, l: nat) {
    && At(fn, run, s) && Straight(run) && 0 < |s.threads| && s.threads[0].main && s.threads[0].results == fn.results
    && s.threads[0].exit.Running? && s.threads[0].recovering && Sees(fn, s.threads[0].env, o, l)
  }

  lemma Deferral(fn: Function, k: nat, o: Object) returns (run: seq<Step>, s: State, l: nat)
    requires WellTyped(fn) && Plain(fn) && IsErrorResult(fn, o) && DefersAt(fn, k)
    ensures Waiting(fn, run, s, o, l) && Ready(fn, run, s, 0, fn.body.stmts[k + 1..] + [], o, l)
  {
    hide Nodes, Outer, WellTyped, Traced, Traceable, MayRecover, Falls, Sees, SparesResults;
    PlainIsTraced(fn, o);
    BodyInBody(fn);
    var stmts := fn.body.stmts;
    run, s, l := Start(fn, o);
    assert [fn.body] + [] == [fn.body] && Next(fn.body, true) + [] == stmts[0..] + [];
    run, s := Proceed(fn, run, s, 0, fn.body, [], true, o, l);
    BlockFalls(fn, k);
    run, s := PassTo(fn, run, s, 0, fn.body, 0, k, [], o, l);
    assert stmts[k..] + [] == [stmts[k]] + (stmts[k + 1..] + []);
    ChildInBody(fn, fn.body, stmts[k]);
    DefersOnly(stmts[k]);
    run, s := Proceed(fn, run, s, 0, stmts[k], stmts[k + 1..] + [], true, o, l);
    assert Next(stmts[k], true) + (stmts[k + 1..] + []) == stmts[k + 1..] + [];
  }

  lemma BlockFalls(fn: Function, k: nat)
    requires Plain(fn) && k <= |fn.body.stmts| - 1
    ensures forall c | c in fn.body.stmts[..k] :: Falls(c)
  {
    BodyInBody(fn);
    assert WellFormed(fn.body);
  }

  lemma DefersOnly(n: Node)
    requires MayRecover(n)
    ensures n.Defer?
  {
  }

  /** What does harm before a panic does it behind the deferral. */
  lemma HarmBehind(fn: Function, k: nat, m: Node, o: Object) returns (i: nat)
    requires WellTyped(fn) && Plain(fn) && IsErrorResult(fn, o) && DefersAt(fn, k)
    requires m in Outer(fn.body) && !StoresSound(fn, m, o)
    ensures k < i < |fn.body.stmts| && m in Outer(fn.body.stmts[i])
  {
    hide WellTyped, Traceable, WellFormed, Nodes, Outer, Falls, StoresSound, MayRecover;
    HarmIsNoBlock(fn, m, o);
    var c := FindBelow(fn.body, m);
    i :| 0 <= i < |fn.body.stmts| && fn.body.stmts[i] == c;
    if i == k {
      BodyInBody(fn);
      ChildInBody(fn, fn.body, c);
      DeferStoresNothing(fn, c, m, o);
    } else if i < k {
      SparedBefore(fn, k, i, m, o);
    }
  }

  lemma SparedBefore(fn: Function, k: nat, i: nat, m: Node, o: Object)
    requires DefersAt(fn, k) && i < k && m in Outer(fn.body.stmts[i]) && IsErrorResult(fn, o)
    ensures StoresSound(fn, m, o)
  {
    hide Outer, StoresSound, MayRecover;
    assert SparesResults(fn, m);
  }

  lemma HarmIsNoBlock(fn: Function, m: Node, o: Object)
    requires !StoresSound(fn, m, o)
    ensures !m.Block?
  {
  }

  lemma FindBelow(n: Node, m: Node) returns (c: Node)
    requires m in Outer(n) && m != n
    ensures c in Children(n) && m in Outer(c)
  {
    c := FindOuterChild(n, m, |Children(n)|);
  }

  lemma DeferStoresNothing(fn: Function, c: Node, m: Node, o: Object)
    requires Plain(fn) && c in Nodes(fn.body) && MayRecover(c) && m in Outer(c)
    ensures StoresSound(fn, m, o)
  {
    hide Traceable, MayRecover, Sound;
    DefersOnly(c);
    assert WellFormed(c);
    if m != c {
      var x := FindOuterChild(c, m, 1);
      ChildInBody(fn, c, x);
      forall d | d in Nodes(x) ensures WellFormed(d) { NodesTransitive(fn.body, x, d); }
      ExpressionsOnly(x, m);
    }
  }

  lemma RawBehind(fn: Function, run: seq<Step>, s: State, k: nat, i: nat, m: Node, o: Object, l: nat)
    returns (run': seq<Step>, s': State)
    requires WellTyped(fn) && Plain(fn) && IsErrorResult(fn, o) && k <= i < |fn.body.stmts|
    requires Waiting(fn, run, s, o, l) && Ready(fn, run, s, 0, fn.body.stmts[k..] + [], o, l)
    requires m in Outer(fn.body.stmts[i]) && !StoresSound(fn, m, o)
    ensures Waiting(fn, run', s', o, l) && Struck(s', l)
  {
    hide Nodes, Outer, WellTyped, Plain, Traced, Falls, Sees, StoresSound, IsErrorResult;
    PlainIsTraced(fn, o);
    BlockParts(fn, i, o);
    var stmts := fn.body.stmts;
    run', s' := PassTo(fn, run, s, 0, fn.body, k, i, [], o, l);
    assert stmts[i..] + [] == [stmts[i]] + (stmts[i + 1..] + []);
    HarmIsStatement(fn, m, o);
    var rest';
    run', s', rest' := Reach(fn, run', s', 0, stmts[i], stmts[i + 1..] + [], m, o, l);
    assert m in [m] + rest';
    run', s' := RawStore(fn, run', s', 0, m, rest', o, l);
  }

  lemma BlockParts(fn: Function, i: nat, o: Object)
    requires Plain(fn) && i < |fn.body.stmts| && Traced(fn, o)
    ensures fn.body.Block? && fn.body in Nodes(fn.body)
    ensures BodyWork(fn, [fn.body.stmts[i]] + (fn.body.stmts[i + 1..] + []))
    ensures forall c | c in fn.body.stmts[..i] :: Falls(c)
  {
    BodyInBody(fn);
    TracedParts(fn, fn.body, o);
    BlockFalls(fn, i);
  }

  lemma HarmIsStatement(fn: Function, m: Node, o: Object)
    requires !StoresSound(fn, m, o)
    ensures IsStatement(m)
  {
  }

  /** The panic is recovered. */
  lemma RecoverNow(fn: Function, run: seq<Step>, s: State, o: Object, l: nat) returns (run': seq<Step>, s': State)
    requires Waiting(fn, run, s, o, l) && Struck(s, l)
    ensures Gone(fn, run', s', o, l) && Struck(s', l)
  {
    run' := Take(fn, run, s, Recover(0));
    s' := Apply(fn, s, Recover(0));
  }

  /** A statement before a recovered panic does. */
  lemma RecoveryLeaks(fn: Function, m: Node, o: Object) returns (run: seq<Step>)
    requires WellTyped(fn) && Plain(fn) && Recovers(fn) && IsErrorResult(fn, o)
    requires m in Outer(fn.body) && !StoresSound(fn, m, o)
    ensures Legal(fn, run) && Straight(run) && Leaks(fn, run)
  {
    hide Nodes, Outer, WellTyped, Struck, StoresSound, Sees, WellFormed, Traceable, DefersAt, Falls;
    var k: nat :| k < |fn.body.stmts| && DefersAt(fn, k);
    var s, l;
    run, s, l := Deferral(fn, k, o);
    var i := HarmBehind(fn, k, m, o);
    run, s := RawBehind(fn, run, s, k + 1, i, m, o, l);
    run, s := RecoverNow(fn, run, s, o, l);
    run := Receive(fn, run, s, o, l);
  }

  // --- exactness ------------------------------------------------------------------------------------------

  /** In a plain function, a clause on results that is broken shows in a run that abandons nothing. */
  lemma BrokenLeaks(fn: Function, c: Clause) returns (run: seq<Step>)
    requires WellTyped(fn) && Plain(fn) && OnResults(c) && !Keeps(fn, c)
    ensures Legal(fn, run) && Straight(run) && Leaks(fn, run)
  {
    hide Nodes, Outer, WellTyped, Plain, StoresSound, Legal, Leaks;
    var n :| n in (if OutsideLiterals(c) then Outer(fn.body) else Nodes(fn.body)) && !KeepsAt(fn, c, n);
    match c {
      case PointerLikeResults => run := ExposureLeaks(fn, n, n.obj);
      case KeptAddresses => run := ExposureLeaks(fn, n, Target(n.operand));
      case KeptByLiterals =>
        var m :| m in Nodes(n.body) && !SparesResults(fn, m);
        var r :| r in fn.results && r.isError && r.obj.Var? && !StoresSound(fn, m, r.obj);
        var lit := OutermostLiteral(fn, n, m);
        run := LiteralLeaks(fn, lit, m, r.obj);
      case KeptByRecovery =>
        var r :| r in fn.results && r.isError && r.obj.Var? && !StoresSound(fn, n, r.obj);
        run := RecoveryLeaks(fn, n, r.obj);
    }
  }

  lemma OutermostLiteral(fn: Function, n: Node, m: Node) returns (lit: Node)
    requires n in Nodes(fn.body) && n.FuncLit? && m in Nodes(n.body)
    ensures lit in Outer(fn.body) && lit.FuncLit? && m in Nodes(lit.body)
  {
    lit := Inside(fn.body, n);
    if n in Outer(fn.body) {
      lit := n;
    } else {
      ChildOf(n, n.body);
      NodesTransitive(lit.body, n, m);
    }
  }

  /**
   Of a silent function that is disciplined in what it returns and plainly written,
   every caller receives only nil and constructor-built errors, in every run, if and
   only if it keeps the clauses on its named results.
   */
  lemma ResultsAreHeldExactly(fn: Function)
    requires Examined(fn) && Plain(fn)
    ensures HoldsResults(fn) <==> forall run | Legal(fn, run) :: !Leaks(fn, run)
  {
    hide Plain, Keeps, Leaks, Legal;
    if HoldsResults(fn) {
      forall run | Legal(fn, run) ensures !Leaks(fn, run) { NothingLeaks(fn, run); }
    } else {
      var c :| OnResults(c) && !Keeps(fn, c);
      var run := BrokenLeaks(fn, c);
    }
  }
}
