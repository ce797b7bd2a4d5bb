/**
 What a checked function can do when it runs, and what its caller receives.

 Variables live in cells, closures capture the cells of their surroundings, and
 every invocation and every closure call is a thread of its own, so deferred
 calls, goroutines and callbacks are all covered by the interleaving.  The
 environment may start closures at any time and overwrite a cell whose address has
 escaped, under an ampersand or as the operand of a method: a variable whose type
 is neither an interface nor a pointer can be changed in place by a field or
 element update, an increment, or a pointer-receiver method, which takes the
 address of its receiver without saying so.  Conditions are arbitrary, and a thread
 may abandon any stretch of its pending work (break, continue, panic).

 A return statement stores its values in the named results, and the function then
 answers with what these hold once the deferred calls are through, whoever stored
 it.  A deferred call may also recover a panic, and the named results answer as
 they are.
 */
module PropagationSemantics {
  import opened GoAst
  import opened PropagationLint

  /** A value as the check cares about it: zero (nil), built by a Garlic constructor, or anything else. */
  datatype Value = Zero | Garlic | Raw

  datatype Cell = Cell(owner: Object, value: Value)
  type Env = map<Object, nat>
  datatype Memory = Memory(env: Env, heap: seq<Cell>)
  /** How a thread left its function: not yet, by a return statement, or by a recovered panic. */
  datatype Exit = Running | Returned(vals: seq<Value>) | Recovered

  /** recovering says that a deferred call waits that may recover a panic. */
  datatype Thread =
    Thread(main: bool, results: seq<Result>, env: Env, work: seq<Node>, recovering: bool, exit: Exit)
  datatype Closure = Closure(env: Env, lit: Node)
  datatype State = State(heap: seq<Cell>, escaped: set<nat>, closures: set<Closure>, threads: seq<Thread>)

  const Initial := State([], {}, {}, [])

  predicate Clean(v: Value) {
    v != Raw
  }

  /** Named result, or declared by `:=`, `var` or a range clause somewhere in the body. */
  predicate IsLocal(fn: Function, obj: Object) {
    obj.Var? &&
    ((exists r | r in fn.results :: r.obj == obj) ||
     (exists n | n in Nodes(fn.body) :: n.Ident? && n.defines && n.obj == obj))
  }

  /** The variable an assignment target or an address operand denotes; parentheses change nothing. */
  function Target(e: Node): Object {
    match e
    case Ident(_, obj, _) => obj
    case Paren(x) => Target(x)
    case _ => NoObject
  }

  /** Evaluating e in memory m may give v.  A local is bound by then; were it not, it would be zero. */
  predicate Yields(fn: Function, m: Memory, e: Node, v: Value) {
    match e
    case Ident(_, obj, _) =>
      if obj == NilObject then v == Zero
      else if obj in m.env && m.env[obj] < |m.heap| then v == m.heap[m.env[obj]].value
      else IsLocal(fn, obj) ==> v == Zero
    case Paren(x) => Yields(fn, m, x, v)
    case Call(callee, _, _, _) => IsGarlicConstructor(callee) ==> Clean(v)
    case _ => true
  }

  /** A deferred literal recovers if it calls recover itself; what a deferred function does is unknown. */
  predicate MayRecover(stmt: Node) {
    stmt.Defer? &&
    var call := stmt.call;
    call.Call? && call.callee.Unresolved? && call.args != [] && call.args[0].FuncLit? ==>
      exists n | n in Outer(call.args[0].body) :: n.Call? && n.callee == Builtin("recover")
  }

  // --- memory ------------------------------------------------------------------

  function Declare(m: Memory, obj: Object, v: Value): Memory {
    if obj.Var? then Memory(m.env[obj := |m.heap|], m.heap + [Cell(obj, v)]) else m
  }

  function DeclareAll(m: Memory, objs: seq<Object>, vals: seq<Value>): Memory
    requires |objs| == |vals|
  {
    if objs == [] then m else
      var k := |objs| - 1;
      Declare(DeclareAll(m, objs[..k], vals[..k]), objs[k], vals[k])
  }

  function Update(m: Memory, obj: Object, v: Value): Memory {
    if obj in m.env && m.env[obj] < |m.heap| then
      m.(heap := m.heap[m.env[obj] := m.heap[m.env[obj]].(value := v)])
    else m
  }

  /** Selectors, index expressions and dereferences leave every cell's own value to the environment. */
  function Store(m: Memory, target: Node, v: Value): Memory {
    if Defines(target) then Declare(m, target.obj, v) else Update(m, Target(target), v)
  }

  predicate Defines(target: Node) {
    target.Ident? && target.defines
  }

  function StoreAll(m: Memory, targets: seq<Node>, vals: seq<Value>): Memory
    requires |targets| == |vals|
  {
    if targets == [] then m else
      var k := |targets| - 1;
      Store(StoreAll(m, targets[..k], vals[..k]), targets[k], vals[k])
  }

  function ResultObjects(results: seq<Result>): seq<Object> {
    seq(|results|, i requires 0 <= i < |results| => results[i].obj)
  }

  function ResultTargets(results: seq<Result>): seq<Node> {
    seq(|results|, i requires 0 <= i < |results| => Ident(results[i].name, results[i].obj, false))
  }

  function Zeros(n: nat): seq<Value> {
    seq(n, _ => Zero)
  }

  // --- steps ---------------------------------------------------------------------

  datatype Step =
    | Invoke(args: seq<Value>)                        // a fresh call of the function
    | Enter(closure: Closure, args: seq<Value>)       // a call of one of its closures
    | Evaluate(t: nat)                                // expressions of the next statement take effect
    | Execute(t: nat, choice: bool, vals: seq<Value>) // the next statement completes
    | Abandon(t: nat, k: nat)                         // break, continue, panic
    | Recover(t: nat)                                 // a deferred call recovers a panic of the function
    | Disturb(loc: nat, v: Value)                     // a write the body does not name

  /** The expressions a statement evaluates itself. */
  function Heads(stmt: Node): (heads: seq<Node>)
    ensures forall x :: x in heads ==> x in Children(stmt)
    ensures heads != [] ==> !stmt.FuncLit?
  {
    match stmt
    case Assign(lhs, rhs) => lhs + rhs
    case ValueSpec(_, values) => values
    case Range(binds, over, _) => binds + [over]
    case Return(values) => values
    case If(cond, _, _) => [cond]
    case For(cond, _) => [cond]
    case ExprStmt(x) => [x]
    case Defer(x) => [x]
    case _ => []
  }

  /** The variable whose address this expression may take. */
  function Exposes(m: Node): Object {
    match m
    case AddressOf(x) => Target(x)
    case Ident(_, obj, _) => if obj.Var? && !obj.pointerLike then obj else NoObject
    case _ => NoObject
  }

  function Escaping(stmt: Node, env: Env): set<nat> {
    set x, m | x in Heads(stmt) && m in Outer(x) && Exposes(m) in env :: env[Exposes(m)]
  }

  function Captured(stmt: Node, env: Env): set<Closure> {
    set x, m | x in Heads(stmt) && m in Outer(x) && m.FuncLit? :: Closure(env, m)
  }

  function Touched(s: State, stmt: Node, env: Env): State {
    s.(escaped := s.escaped + Escaping(stmt, env), closures := s.closures + Captured(stmt, env))
  }

  /** The statement may produce these values: for its targets, or as the function's results. */
  predicate Produces(fn: Function, m: Memory, results: seq<Result>, stmt: Node, vals: seq<Value>) {
    match stmt
    case Assign(lhs, rhs) =>
      |vals| == |lhs| && (|lhs| == |rhs| ==> forall i | 0 <= i < |rhs| :: Yields(fn, m, rhs[i], vals[i]))
    case ValueSpec(names, values) =>
      |vals| == |names| &&
      (values == [] ==> vals == Zeros(|names|)) &&
      (|names| == |values| ==> forall i | 0 <= i < |values| :: Yields(fn, m, values[i], vals[i]))
    case Range(binds, _, _) => |vals| == |binds|
    case Return(values) =>
      |vals| == |results| &&
      (values == [] ==> forall i | 0 <= i < |results| ::
           if results[i].obj == NoObject then vals[i] == Zero
           else Yields(fn, m, ResultIdent(results[i]), vals[i])) &&
      (|values| == |results| ==> forall i | 0 <= i < |values| :: Yields(fn, m, values[i], vals[i]))
    case _ => true
  }

  predicate Enabled(fn: Function, s: State, step: Step) {
    match step
    case Invoke(args) => |args| == |fn.params|
    case Enter(c, args) => c in s.closures && c.lit.FuncLit? && |args| == |c.lit.params|
    case Evaluate(t) => t < |s.threads| && s.threads[t].work != []
    case Execute(t, _, vals) =>
      t < |s.threads| && s.threads[t].work != [] &&
      Produces(fn, Memory(s.threads[t].env, s.heap), s.threads[t].results, s.threads[t].work[0], vals)
    case Abandon(t, k) => t < |s.threads| && k <= |s.threads[t].work|
    case Recover(t) =>
      t < |s.threads| && s.threads[t].main && s.threads[t].recovering && s.threads[t].exit.Running?
    case Disturb(loc, _) => loc < |s.heap| && loc in s.escaped
  }

  function Called(s: State, main: bool, env: Env, params: seq<Object>, results: seq<Result>, body: Node,
                  args: seq<Value>): State
    requires |args| == |params|
  {
    var m := DeclareAll(DeclareAll(Memory(env, s.heap), params, args), ResultObjects(results), Zeros(|results|));
    s.(heap := m.heap, threads := s.threads + [Thread(main, results, m.env, [body], false, Running)])
  }

  function Stored(s: State, t: nat, targets: seq<Node>, vals: seq<Value>, work: seq<Node>): State
    requires t < |s.threads| && |targets| == |vals|
  {
    var th := s.threads[t];
    var m := StoreAll(Memory(th.env, s.heap), targets, vals);
    s.(heap := m.heap, threads := s.threads[t := th.(env := m.env, work := work)])
  }

  function Left(s: State, t: nat, exit: Exit): State
    requires t < |s.threads|
  {
    s.(threads := s.threads[t := s.threads[t].(work := [], exit := exit)])
  }

  function Deferring(s: State, t: nat, stmt: Node): State
    requires t < |s.threads|
  {
    var th := s.threads[t];
    s.(threads := s.threads[t := th.(recovering := th.recovering || MayRecover(stmt))])
  }

  /** What a control statement leaves to do; choice is how its condition came out. */
  function Continuation(stmt: Node, choice: bool): seq<Node> {
    match stmt
    case If(_, thn, els) => [if choice then thn else els]
    case For(_, body) => if choice then [body, stmt] else []
    case Block(stmts) => stmts
    case _ => []
  }

  function Executed(fn: Function, s: State, t: nat, choice: bool, vals: seq<Value>): State
    requires Enabled(fn, s, Execute(t, choice, vals))
  {
    var th := s.threads[t];
    var stmt, rest := th.work[0], th.work[1..];
    var s := Touched(s, stmt, th.env);
    match stmt
    case Assign(lhs, _) => Stored(s, t, lhs, vals, rest)
    case ValueSpec(names, _) => Stored(s, t, names, vals, rest)
    case Range(binds, _, body) =>
      if choice then Stored(s, t, binds, vals, [body, stmt] + rest) else Stored(s, t, [], [], rest)
    case Return(_) => Left(Stored(s, t, ResultTargets(th.results), vals, []), t, Returned(vals))
    case Defer(_) => Deferring(Stored(s, t, [], [], rest), t, stmt)
    case _ => Stored(s, t, [], [], Continuation(stmt, choice) + rest)
  }

  function Apply(fn: Function, s: State, step: Step): State
    requires Enabled(fn, s, step)
  {
    match step
    case Invoke(args) => Called(s, true, map[], fn.params, fn.results, fn.body, args)
    case Enter(c, args) => Called(s, false, c.env, c.lit.params, c.lit.results, c.lit.body, args)
    case Evaluate(t) => Touched(s, s.threads[t].work[0], s.threads[t].env)
    case Execute(t, choice, vals) => Executed(fn, s, t, choice, vals)
    case Abandon(t, k) =>
      s.(threads := s.threads[t := s.threads[t].(work := s.threads[t].work[k..])])
    case Recover(t) => Left(s, t, Recovered)
    case Disturb(loc, v) => s.(heap := s.heap[loc := s.heap[loc].(value := v)])
  }

  /** This step completes a return statement of the function itself; deferred calls may still follow. */
  predicate IsReturn(fn: Function, s: State, step: Step)
    requires Enabled(fn, s, step)
  {
    step.Execute? && s.threads[step.t].main && s.threads[step.t].work[0].Return?
  }

  /** A call of the function that has nothing left to do but to answer. */
  predicate Answers(s: State, t: nat) {
    t < |s.threads| && s.threads[t].main && !s.threads[t].exit.Running?
  }

  /** What the caller of that call receives in result i if it answers now. */
  function Received(s: State, t: nat, i: nat): Value
    requires Answers(s, t) && i < |s.threads[t].results|
  {
    var th := s.threads[t];
    var obj := th.results[i].obj;
    if obj in th.env && th.env[obj] < |s.heap| then s.heap[th.env[obj]].value
    else if th.exit.Returned? && i < |th.exit.vals| then th.exit.vals[i]
    else Zero
  }

  // --- runs ------------------------------------------------------------------------

  predicate Legal(fn: Function, run: seq<Step>)
    decreases |run|, 0
  {
    run == [] ||
    (Legal(fn, run[..|run| - 1]) && Enabled(fn, Reached(fn, run[..|run| - 1]), run[|run| - 1]))
  }

  function Reached(fn: Function, run: seq<Step>): State
    requires Legal(fn, run)
    decreases |run|, 1
  {
    if run == [] then Initial else Apply(fn, Reached(fn, run[..|run| - 1]), run[|run| - 1])
  }

  /** The run ends in this state. */
  predicate At(fn: Function, run: seq<Step>, s: State) {
    Legal(fn, run) && Reached(fn, run) == s
  }

  lemma Take(fn: Function, run: seq<Step>, s: State, step: Step) returns (run': seq<Step>)
    requires At(fn, run, s) && Enabled(fn, s, step)
    ensures run' == run + [step] && At(fn, run', Apply(fn, s, step))
  {
    run' := run + [step];
    assert run'[..|run|] == run;
  }

  /** Some result that call t answers with is an error that no constructor built. */
  predicate AnswersRaw(s: State, t: nat) {
    Answers(s, t) &&
    exists i | 0 <= i < |s.threads[t].results| :: s.threads[t].results[i].isError && !Clean(Received(s, t, i))
  }

  /** At the end of the run some caller can receive such an error. */
  predicate Leaks(fn: Function, run: seq<Step>)
    requires Legal(fn, run)
  {
    var s := Reached(fn, run);
    exists t | 0 <= t < |s.threads| :: AnswersRaw(s, t)
  }
}
