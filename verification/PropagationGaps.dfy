/**
 Each clause of the discipline is needed: for each there is a family of well-typed
 functions the check accepts, keeping every other clause, and a run of each that
 returns an error no Garlic constructor built.
 */
module PropagationGaps {
  import opened GoAst
  import opened PropagationLint
  import opened PropagationSemantics
  import opened PropagationMemory
  import opened PropagationDiscipline
  import opened PropagationReturns
  import opened PropagationExactness

  predicate Accepted(fn: Function) {
    WellTyped(fn) && Reports(fn) == [] && !fn.exempt && ReturnsError(fn.results)
  }

  predicate KeepsAllBut(fn: Function, c: Clause) {
    forall d: Clause | d != c :: Keeps(fn, d)
  }

  /** The function shows what happens without clause c alone. */
  predicate Needs(fn: Function, c: Clause, run: seq<Step>) {
    Accepted(fn) && KeepsAllBut(fn, c) && Legal(fn, run) && Leaks(fn, run)
  }

  // --- acceptance of a small tree, from its interesting nodes -----------------------

  /** A node the check has nothing to say about, whatever is below it. */
  predicate Inner(n: Node) {
    (n.Block? || n.If? || n.ExprStmt? || n.Other? || n.Paren?) && WellFormed(n)
  }

  /** Below n there are only inner nodes and the given atoms. */
  predicate BuiltFrom(n: Node, atoms: set<Node>) {
    (n in atoms || Inner(n)) && forall c | c in Children(n) :: BuiltFrom(c, atoms)
  }

  lemma {:induction false} BuiltNodes(n: Node, atoms: set<Node>, m: Node)
    requires BuiltFrom(n, atoms) && m in Nodes(n)
    ensures m in atoms || Inner(m)
    decreases n
  {
    if m != n {
      var c := FindChild(n, m, |Children(n)|);
      BuiltNodes(c, atoms, m);
    }
  }

  lemma {:induction false} BuiltOuterNodes(n: Node, atoms: set<Node>)
    requires BuiltFrom(n, atoms)
    ensures forall m | m in Nodes(n) :: m in atoms || Inner(m)
    ensures forall m | m in Outer(n) :: m in atoms || Inner(m)
  {
    forall m | m in Nodes(n) ensures m in atoms || Inner(m) {
      BuiltNodes(n, atoms, m);
    }
    forall m | m in Outer(n) ensures m in Nodes(n) {
      OuterWithinNodes(n, m);
    }
  }

  /** A call of a Garlic constructor without arguments of interest. */
  predicate Constructs(n: Node) {
    IsGarlicCall(n) && n.args == [] && |n.errorResults| == 1
  }

  /** A use of an interface or pointer variable under an ordinary name. */
  predicate Uses(n: Node, obj: Object) {
    n.Ident? && n.name != "nil" && n.obj == obj && obj.Var? && obj.isError && obj.pointerLike && !n.defines
  }

  /** What one node contributes to acceptance and to the clauses other than c. */
  predicate Fine(fn: Function, c: Clause, m: Node) {
    && (m.FuncLit? ==> m.params == [] && m.results == []) && WellTypedStatement(m)
    && (Defines(m) ==> m.obj !in fn.params && forall r | r in fn.results && r.obj.Var? :: r.obj != m.obj)
    && (IsGarlicCall(m) ==> |m.errorResults| == 1)
    && (m.Return? ==> WellTypedReturn(fn, m.values) && ReportsAt(fn, m) == [])
    && (forall d: Clause | d != c :: KeepsAt(fn, d, m))
  }

  predicate PlainSignature(fn: Function) {
    && !fn.exempt && ReturnsError(fn.results)
    && forall r | r in fn.results ::
      r.obj !in fn.params && r.obj != NilObject && (r.obj.Var? ==> r.obj.isError == r.isError)
  }

  lemma AcceptedByAtoms(fn: Function, c: Clause, atoms: set<Node>)
    requires PlainSignature(fn) && BuiltFrom(fn.body, atoms)
    requires forall m | m in atoms :: Fine(fn, c, m)
    ensures Accepted(fn) && KeepsAllBut(fn, c)
  {
    BuiltOuterNodes(fn.body, atoms);
    forall m | m in Outer(fn.body) ensures ReportsAt(fn, m) == [] {
      assert m in atoms ==> Fine(fn, c, m);
    }
    CleanReturns(fn, fn.body);
    WellTypedByAtoms(fn, c, atoms);
    KeptByAtoms(fn, c, atoms);
  }

  lemma KeptByAtoms(fn: Function, c: Clause, atoms: set<Node>)
    requires forall m | m in atoms :: Fine(fn, c, m)
    requires forall m | m in Nodes(fn.body) :: m in atoms || Inner(m)
    requires forall m | m in Outer(fn.body) :: m in atoms || Inner(m)
    ensures KeepsAllBut(fn, c)
  {
    forall d: Clause, n | d != c && n in (if OutsideLiterals(d) then Outer(fn.body) else Nodes(fn.body))
      ensures KeepsAt(fn, d, n)
    {
      assert n in atoms ==> Fine(fn, c, n);
    }
  }

  lemma WellTypedByAtoms(fn: Function, c: Clause, atoms: set<Node>)
    requires PlainSignature(fn) && forall m | m in atoms :: Fine(fn, c, m)
    requires forall m | m in Nodes(fn.body) :: m in atoms || Inner(m)
    requires forall m | m in Outer(fn.body) :: m in atoms || Inner(m)
    ensures WellTyped(fn)
  {
    hide KeepsAt, WellFormed;
    forall m | m in Nodes(fn.body)
      ensures (m.FuncLit? ==> m.params == [] && m.results == []) && WellTypedStatement(m)
      ensures Defines(m) ==> m.obj !in fn.params && forall r | r in fn.results && r.obj.Var? :: r.obj != m.obj
      ensures IsGarlicCall(m) ==> |m.errorResults| == 1
    {
      assert m in atoms ==> Fine(fn, c, m);
    }
    forall m | m in Outer(fn.body) && m.Return? ensures WellTypedReturn(fn, m.values) {
      assert Fine(fn, c, m);
    }
  }

  /** Without a defer statement there is nothing to recover in. */
  lemma NothingRecovers(fn: Function, atoms: set<Node>)
    requires BuiltFrom(fn.body, atoms) && forall m | m in atoms :: !m.Defer?
    ensures !Recovers(fn)
  {
    hide WellFormed;
    BuiltOuterNodes(fn.body, atoms);
  }

  /** A small tree without assignments to its results, other than of calls and the like, is plain. */
  lemma PlainByAtoms(fn: Function, atoms: set<Node>)
    requires BuiltFrom(fn.body, atoms) && forall m | m in atoms :: WellFormed(m) && Traceable(fn, m)
    requires fn.body.Block? && !Falls(fn.body)
    requires !Recovers(fn) || (fn.body.stmts != [] && MayRecover(fn.body.stmts[0]))
    ensures Plain(fn)
  {
    hide WellFormed, Falls, MayRecover, Recovers;
    BuiltOuterNodes(fn.body, atoms);
    if Recovers(fn) { assert DefersAt(fn, 0); }
  }

  predicate Tracks(m: Node, obj: Object) {
    (forall v | v in ValuesAt(m, obj) :: IsGarlicCall(v)) && !UntrackedAt(m, obj)
  }

  lemma PropagatedByAtoms(body: Node, atoms: set<Node>, obj: Object, w: Node)
    requires BuiltFrom(body, atoms) && forall m | m in atoms :: Tracks(m, obj)
    requires w in Children(body) || exists c | c in Children(body) :: w in Children(c)
    requires ValuesAt(w, obj) != []
    ensures IsPropagatedVar(body, obj)
  {
    hide Outer, WellFormed, UntrackedUnder, ValuesUnder, BuiltFrom;
    BuiltOuterNodes(body, atoms);
    if UntrackedUnder(body, obj) {
      var m := UntrackedFrom(body, obj);
    }
    forall v | v in ValuesUnder(body, obj) ensures IsGarlicCall(v) {
      var m := CollectedFrom(body, v, obj);
    }
    if w in Children(body) {
      ChildOf(body, w);
    } else {
      var c :| c in Children(body) && w in Children(c);
      ChildOf(body, c);
      ChildOf(c, w);
    }
    CollectedAtRoot(body, w, obj);
    assert ValuesAt(w, obj)[0] in ValuesUnder(body, obj);
  }

  lemma NeverAssignedByAtoms(body: Node, atoms: set<Node>, obj: Object)
    requires BuiltFrom(body, atoms) && forall m | m in atoms :: ValuesAt(m, obj) == [] && !UntrackedAt(m, obj)
    ensures NeverAssigned(body, obj)
  {
    BuiltOuterNodes(body, atoms);
    if UntrackedUnder(body, obj) {
      var m := UntrackedFrom(body, obj);
    }
    if ValuesUnder(body, obj) != [] {
      var m := CollectedFrom(body, ValuesUnder(body, obj)[0], obj);
    }
  }

  /** A node that is neither a statement of interest nor a literal. */
  lemma FineLeaf(fn: Function, c: Clause, m: Node)
    requires
      || (m.Ident? && (c.PointerLikeResults? || (m.obj.Var? && m.obj.pointerLike)) &&
          (m.defines ==> m.obj !in fn.params && forall r | r in fn.results && r.obj.Var? :: r.obj != m.obj))
      || (m.Call? && (IsGarlicCall(m) ==> |m.errorResults| == 1))
      || (m.AddressOf? && ((c.PlainAddresses? && m.operand.Paren?) || (c.KeptAddresses? && m.operand.Ident?)))
      || (m.Range? && c.PlainRanges? && !Recovers(fn))
      || (m.FuncLit? && m.params == [] && m.results == [] && c.KeptByLiterals?)
      || m.Other? || m.Defer?
    ensures Fine(fn, c, m)
  {
  }

  /** The return of one expression, and what the check says about it. */
  lemma FineExplicit(fn: Function, c: Clause, e: Node)
    requires |fn.results| == 1 && fn.results[0].isError && Justified(fn.body, e)
    requires e.Ident? ==> (c.OwnIdents? || Owns(fn, e.obj)) && (c.NoNilIdents? || e.name != "nil")
    ensures Fine(fn, c, Return([e]))
  {
    hide Guarded, Recovers, Owns, TupleOf, Justified, Sound, ReportsAt;
    SilentAbout(fn, e);
  }

  lemma SilentAbout(fn: Function, e: Node)
    requires |fn.results| == 1 && fn.results[0].isError && Justified(fn.body, e)
    ensures ReportsAt(fn, Return([e])) == []
  {
    hide Justified;
    assert [e][..0] == [] && ExplicitErrorReturns([], fn.results[..0]) == [];
    assert ExplicitErrorReturns([e], fn.results) == [e];
    assert ReportsFor(fn.body, []) == [];
  }

  /** An explicit return of an identifier the check justifies. */
  lemma FineReturn(fn: Function, c: Clause, use: Node)
    requires use.Ident? && use.obj.Var? && fn.results == [Result("", NoObject, true)]
    requires use.name == "nil" || IsPropagatedVar(fn.body, use.obj)
    requires c.OwnIdents? || Owns(fn, use.obj)
    requires c.NoNilIdents? || use.name != "nil"
    ensures Fine(fn, c, Return([use]))
  {
    hide Fine, Owns, IsPropagatedVar;
    FineExplicit(fn, c, use);
  }

  /** A naked return of a result that is never assigned, or that is called nil. */
  lemma FineNakedReturn(fn: Function, c: Clause, r: Result)
    requires fn.results == [r] && r.obj.Var? && (NeverAssigned(fn.body, r.obj) || r.name == "nil")
    requires c.NoNilResults? || r.name != "nil"
    ensures Fine(fn, c, Return([]))
  {
    assert fn.results[..0] == [] && NamedErrorResults(fn.body, fn.results[..0]) == [];
    var named := NamedErrorResults(fn.body, fn.results);
    assert named == [] || (r.name == "nil" && named == [ResultIdent(r)]);
    if named != [] {
      assert named[..0] == [] && ReportsFor(fn.body, named[..0]) == [];
      assert Justified(fn.body, named[0]);
    }
    assert forall q | q in fn.results :: q == r;
  }

  lemma FineAssignment(fn: Function, c: Clause, target: Node, value: Node)
    requires IsGarlicCall(value) && IdentObject(target).Var? ==> IdentObject(target).pointerLike
    requires c.PlainAssignments? || PlainTarget(target)
    requires c.KeptByRecovery? || fn.results == UNNAMED || !Recovers(fn)
    ensures Fine(fn, c, Assign([target], [value]))
  {
    assert forall e | e in [target] :: e == target;
  }

  /** An explicit return of a constructor's result. */
  lemma FineConstruction(fn: Function, c: Clause, new_: Node)
    requires Constructs(new_) && |fn.results| == 1 && fn.results[0].isError
    ensures Fine(fn, c, Return([new_]))
  {
    hide Fine;
    FineExplicit(fn, c, new_);
  }

  lemma AssignmentTracks(target: Node, value: Node, obj: Object)
    requires IdentObject(target) == obj ==> IsGarlicCall(value)
    ensures Tracks(Assign([target], [value]), obj)
    ensures ValuesAt(Assign([target], [value]), obj) == if IdentObject(target) == obj then [value] else []
  {
    assert [target][..0] == [] && [value][..0] == [];
    assert PairedValues([target][..0], [value][..0], obj) == [];
  }

  lemma InertTracks(m: Node, obj: Object)
    requires m.Ident? || m.Call? || m.Return?
    ensures Tracks(m, obj)
  {
  }

  // --- runs of one thread -------------------------------------------------------------------

  /** One invocation in flight, nothing escaped, no closure created. */
  function Alone(fn: Function, heap: seq<Cell>, env: Env, work: seq<Node>): State {
    State(heap, {}, {}, [Thread(true, fn.results, env, work, false, Running)])
  }

  /** Its expressions take no address and create no closure. */
  predicate Quiet(stmt: Node) {
    forall x, m | x in Heads(stmt) && m in Outer(x) :: Exposes(m) == NoObject && !m.FuncLit?
  }

  lemma QuietByAtoms(body: Node, atoms: set<Node>)
    requires BuiltFrom(body, atoms)
    requires forall m | m in atoms :: Exposes(m) == NoObject && !m.FuncLit?
    ensures forall n | n in Nodes(body) :: Quiet(n)
  {
    hide WellFormed, Outer, Nodes, Heads;
    BuiltOuterNodes(body, atoms);
    forall n, x, m | n in Nodes(body) && x in Heads(n) && m in Outer(x) ensures m in Nodes(body) {
      InHead(body, n, x, m);
    }
  }

  lemma InHead(body: Node, n: Node, x: Node, m: Node)
    requires n in Nodes(body) && x in Heads(n) && m in Outer(x)
    ensures m in Nodes(body)
  {
    OuterWithinNodes(x, m);
    ChildOf(n, x);
    NodesTransitive(body, n, m);
  }

  lemma QuietTouched(s: State, stmt: Node, env: Env)
    requires Quiet(stmt) && NoObject !in env
    ensures Touched(s, stmt, env) == s
  {
    assert Escaping(stmt, env) == {} && Captured(stmt, env) == {};
  }

  lemma Started(fn: Function, args: seq<Value>, heap: seq<Cell>, env: Env)
    requires |args| == |fn.params|
    requires Memory(env, heap) ==
             DeclareAll(DeclareAll(Memory(map[], []), fn.params, args), ResultObjects(fn.results), Zeros(|fn.results|))
    ensures At(fn, [Invoke(args)], Alone(fn, heap, env, [fn.body]))
  {
    var run := Take(fn, [], Initial, Invoke(args));
    assert run == [Invoke(args)];
  }

  lemma Control(fn: Function, run: seq<Step>, heap: seq<Cell>, env: Env, work: seq<Node>, choice: bool,
                work': seq<Node>)
    returns (run': seq<Step>)
    requires work != [] && At(fn, run, Alone(fn, heap, env, work))
    requires (work[0].Block? || work[0].If? || work[0].ExprStmt?) && Quiet(work[0])
    requires work' == Continuation(work[0], choice) + work[1..]
    ensures At(fn, run', Alone(fn, heap, env, work'))
  {
    run' := Take(fn, run, Alone(fn, heap, env, work), Execute(0, choice, []));
    EveryRunIsSane(fn, run);
    QuietTouched(Alone(fn, heap, env, work), work[0], env);
  }

  lemma Bind(fn: Function, run: seq<Step>, before: Memory, work: seq<Node>, v: Value, after: Memory)
    returns (run': seq<Step>)
    requires work != [] && At(fn, run, Alone(fn, before.heap, before.env, work))
    requires work[0].Assign? && |work[0].lhs| == 1 && Quiet(work[0])
    requires Produces(fn, before, fn.results, work[0], [v])
    requires after == Store(before, work[0].lhs[0], v)
    ensures At(fn, run', Alone(fn, after.heap, after.env, work[1..]))
  {
    var s := Alone(fn, before.heap, before.env, work);
    run' := Take(fn, run, s, Execute(0, false, [v]));
    EveryRunIsSane(fn, run);
    QuietTouched(s, work[0], before.env);
    StoreOne(before, work[0].lhs, v);
  }

  lemma StoreOne(m: Memory, targets: seq<Node>, v: Value)
    requires |targets| == 1
    ensures StoreAll(m, targets, [v]) == Store(m, targets[0], v)
  {
    assert StoreAll(m, targets[..0], [v][..0]) == m;
  }

  /** The only thread left has only the return before it. */
  lemma Finish(fn: Function, run: seq<Step>, s: State, env: Env, ret: Node) returns (run': seq<Step>)
    requires At(fn, run, s) && s.threads == [Thread(true, fn.results, env, [ret], false, Running)]
    requires ret.Return? && |fn.results| == 1 && fn.results[0].isError
    requires Produces(fn, Memory(env, s.heap), fn.results, ret, [Raw])
    ensures Legal(fn, run') && Leaks(fn, run')
  {
    hide Produces;
    run' := Take(fn, run, s, Execute(0, false, [Raw]));
    var s' := Apply(fn, s, Execute(0, false, [Raw]));
    var targets := ResultTargets(fn.results);
    EveryRunIsSane(fn, run);
    StoreOne(Memory(env, s.heap), targets, Raw);
    assert s'.threads[0].exit == Returned([Raw]);
    assert !Clean(Received(s', 0, 0));
    assert AnswersRaw(s', 0);
  }

  /** A call of a function with one error result, named or not. */
  lemma StartedPlain(fn: Function) returns (run: seq<Step>, heap: seq<Cell>, env: Env)
    requires fn.params == [] && |fn.results| == 1
    ensures At(fn, run, Alone(fn, heap, env, [fn.body]))
    ensures var obj := fn.results[0].obj;
      if obj.Var? then heap == [Cell(obj, Zero)] && env == map[obj := 0] else heap == [] && env == map[]
  {
    var obj := fn.results[0].obj;
    heap, env := if obj.Var? then [Cell(obj, Zero)] else [], if obj.Var? then map[obj := 0] else map[];
    assert ResultObjects(fn.results) == [obj] && Zeros(1) == [Zero];
    assert [obj][..0] == [] && [Zero][..0] == [];
    assert DeclareAll(Memory(map[], []), [obj], [Zero]) == Declare(Memory(map[], []), obj, Zero);
    Started(fn, [], heap, env);
    run := [Invoke([])];
  }

  // --- a function that keeps everything -------------------------------------------------------

  // func f() error { err := errors.New(); return err }
  predicate Orderly(fn: Function, err: Object, def: Node, use: Node, new_: Node) {
    && Uses(use, err) && Constructs(new_) && def == Ident(use.name, err, true)
    && fn == Function([], UNNAMED, Block([Assign([def], [new_]), Return([use])]), false)
  }

  lemma OrderlyPropagates(fn: Function, err: Object, def: Node, use: Node, new_: Node, atoms: set<Node>)
    requires Orderly(fn, err, def, use, new_)
    requires atoms == {def, use, new_, Assign([def], [new_]), Return([use])}
    ensures BuiltFrom(fn.body, atoms) && IsPropagatedVar(fn.body, err) && Owns(fn, err)
  {
    hide IsPropagatedVar, Tracks, Outer, WellFormed, BuiltFrom, Owns;
    var set_ := Assign([def], [new_]);
    TwoBuilt(def, new_, set_, Return([use]), atoms);
    AssignmentTracks(def, new_, err);
    forall m | m in {def, use, new_, Return([use])} ensures Tracks(m, err) { InertTracks(m, err); }
    PropagatedByAtoms(fn.body, atoms, err, set_);
    DefinedHere(fn, set_, def);
    OwnedHere(fn, err);
  }

  lemma OrderlyBut(fn: Function, c: Clause, err: Object, def: Node, use: Node, new_: Node)
    requires Orderly(fn, err, def, use, new_)
    ensures Accepted(fn) && KeepsAllBut(fn, c)
  {
    hide Fine, KeepsAt, Accepted, KeepsAllBut, IsPropagatedVar, Outer, WellFormed, Owns, BuiltFrom;
    var atoms := {def, use, new_, Assign([def], [new_]), Return([use])};
    OrderlyPropagates(fn, err, def, use, new_, atoms);
    FineReturn(fn, c, use);
    FineAssignment(fn, c, def, new_);
    FineLeaf(fn, c, def);
    FineLeaf(fn, c, use);
    FineLeaf(fn, c, new_);
    AcceptedByAtoms(fn, c, atoms);
  }

  lemma OwnedHere(fn: Function, err: Object)
    requires fn.results == UNNAMED && IsLocal(fn, err) && err.Var?
    ensures Owns(fn, err)
  {
  }

  /** The ordinary function is covered: silent, and in keeping with every clause. */
  lemma OrderlyIsCovered(fn: Function, err: Object, def: Node, use: Node, new_: Node)
    requires Orderly(fn, err, def, use, new_)
    ensures Covered(fn)
  {
    hide Accepted, Keeps, WellTyped, Reports;
    OrderlyBut(fn, PlainRanges, err, def, use, new_);
    OrderlyBut(fn, PlainAddresses, err, def, use, new_);
    AcceptedSays(fn);
  }

  lemma AcceptedSays(fn: Function)
    requires Accepted(fn)
    ensures WellTyped(fn) && Reports(fn) == [] && !fn.exempt && ReturnsError(fn.results)
  {
  }

  // --- a returned parameter -----------------------------------------------------------------

  const UNNAMED := [Result("", NoObject, true)]

  // func f(err error) error { if c { err = errors.New() }; return err }
  predicate Parameter(fn: Function, err: Object, use: Node, new_: Node) {
    && Uses(use, err) && Constructs(new_)
    && fn == Function([err], UNNAMED, Block([If(Other([]), Assign([use], [new_]), Block([])), Return([use])]), false)
  }

  lemma ParameterFormed(branch: Node, use: Node)
    requires branch.If? && branch.cond == Other([]) && branch.thn.Assign? && branch.els == Block([])
    ensures WellFormed(branch) && WellFormed(Block([branch, Return([use])])) && WellFormed(Block([]))
  {
    assert Falls(branch.thn);
  }

  lemma ParameterBuilt(use: Node, set_: Node, new_: Node, atoms: set<Node>)
    requires use.Ident? && new_.Call? && new_.args == [] && set_ == Assign([use], [new_])
    requires atoms == {use, new_, set_, Return([use])}
    ensures BuiltFrom(Block([If(Other([]), set_, Block([])), Return([use])]), atoms)
  {
    var branch := If(Other([]), set_, Block([]));
    ParameterFormed(branch, use);
    assert WellFormed(Other([]));
    hide WellFormed;
    assert BuiltFrom(use, atoms) && BuiltFrom(new_, atoms);
    assert BuiltFrom(set_, atoms) && BuiltFrom(Return([use]), atoms);
    assert BuiltFrom(Other([]), atoms) && BuiltFrom(Block([]), atoms);
    assert BuiltFrom(branch, atoms);
  }

  lemma ParameterAccepted(fn: Function, err: Object, use: Node, new_: Node)
    requires Parameter(fn, err, use, new_)
    ensures Accepted(fn) && KeepsAllBut(fn, OwnIdents)
    ensures forall n | n in Nodes(fn.body) :: Quiet(n)
  {
    hide Fine, KeepsAt, Accepted, KeepsAllBut, IsPropagatedVar, NeverAssigned, Quiet, BuiltFrom, Tracks, Outer;
    hide WellFormed;
    var set_ := Assign([use], [new_]);
    var atoms := {use, new_, set_, Return([use])};
    ParameterBuilt(use, set_, new_, atoms);
    AssignmentTracks(use, new_, err);
    forall m | m in {use, new_, Return([use])} ensures Tracks(m, err) { InertTracks(m, err); }
    assert set_ in Children(Children(fn.body)[0]);
    PropagatedByAtoms(fn.body, atoms, err, set_);
    FineReturn(fn, OwnIdents, use);
    FineAssignment(fn, OwnIdents, use, new_);
    FineLeaf(fn, OwnIdents, use);
    FineLeaf(fn, OwnIdents, new_);
    AcceptedByAtoms(fn, OwnIdents, atoms);
    QuietByAtoms(fn.body, atoms);
  }

  /** Enter the body, skip the branch, return. */
  lemma SkipBranch(fn: Function, run: seq<Step>, heap: seq<Cell>, env: Env, branch: Node, ret: Node)
    returns (run': seq<Step>)
    requires fn.body == Block([branch, ret]) && branch.If? && branch.els == Block([])
    requires At(fn, run, Alone(fn, heap, env, [fn.body])) && Quiet(branch)
    requires ret.Return? && |fn.results| == 1 && fn.results[0].isError
    requires Produces(fn, Memory(env, heap), fn.results, ret, [Raw])
    ensures Legal(fn, run') && Leaks(fn, run')
  {
    run' := Control(fn, run, heap, env, [fn.body], false, [branch, ret]);
    run' := Control(fn, run', heap, env, [branch, ret], false, [Block([]), ret]);
    run' := Control(fn, run', heap, env, [Block([]), ret], false, [ret]);
    run' := Finish(fn, run', Alone(fn, heap, env, [ret]), env, ret);
  }

  lemma ParameterLeaks(fn: Function, err: Object, use: Node, new_: Node) returns (run: seq<Step>)
    requires Parameter(fn, err, use, new_)
    ensures Needs(fn, OwnIdents, run)
  {
    hide Parameter, Accepted, KeepsAllBut, Leaks;
    ParameterAccepted(fn, err, use, new_);
    run := ParameterRuns(fn, err, use, new_);
  }

  lemma ParameterRuns(fn: Function, err: Object, use: Node, new_: Node) returns (run: seq<Step>)
    requires Parameter(fn, err, use, new_) && forall n | n in Nodes(fn.body) :: Quiet(n)
    ensures Legal(fn, run) && Leaks(fn, run)
  {
    var branch := If(Other([]), Assign([use], [new_]), Block([]));
    ChildOf(fn.body, branch);
    var heap, env := [Cell(err, Raw)], map[err := 0];
    OneParameter(fn, err);
    Started(fn, [Raw], heap, env);
    run := SkipBranch(fn, [Invoke([Raw])], heap, env, branch, Return([use]));
  }

  lemma OneParameter(fn: Function, err: Object)
    requires fn.params == [err] && fn.results == UNNAMED && err.Var?
    ensures Memory(map[err := 0], [Cell(err, Raw)]) ==
            DeclareAll(DeclareAll(Memory(map[], []), fn.params, [Raw]), ResultObjects(fn.results), Zeros(1))
  {
    var m := Memory(map[err := 0], [Cell(err, Raw)]);
    assert [err][..0] == [] && [Raw][..0] == [];
    assert DeclareAll(Memory(map[], []), [err], [Raw]) == Declare(Memory(map[], []), err, Raw) == m;
    assert ResultObjects(fn.results) == [NoObject] && Zeros(1) == [Zero];
    assert [NoObject][..0] == [] && [Zero][..0] == [];
    assert DeclareAll(m, [NoObject], [Zero]) == m;
  }

  // --- a parenthesised target -------------------------------------------------------------

  // func f() error { err := errors.New(); (err) = raw; return err }
  predicate Hidden(fn: Function, err: Object, def: Node, use: Node, new_: Node) {
    && Uses(use, err) && Constructs(new_) && def == Ident(use.name, err, true)
    && fn == Function([], UNNAMED,
                      Block([Assign([def], [new_]), Assign([Paren(use)], [Other([])]), Return([use])]), false)
  }

  lemma HiddenBuilt(def: Node, use: Node, new_: Node, set_: Node, hidden: Node, atoms: set<Node>)
    requires def.Ident? && use.Ident? && new_.Call? && new_.args == []
    requires set_ == Assign([def], [new_]) && hidden == Assign([Paren(use)], [Other([])])
    requires atoms == {def, use, new_, set_, hidden, Return([use])}
    ensures BuiltFrom(Block([set_, hidden, Return([use])]), atoms)
  {
    assert BuiltFrom(def, atoms) && BuiltFrom(use, atoms) && BuiltFrom(new_, atoms);
    assert BuiltFrom(Paren(use), atoms) && BuiltFrom(Other([]), atoms);
    assert BuiltFrom(set_, atoms) && BuiltFrom(hidden, atoms) && BuiltFrom(Return([use]), atoms);
  }

  lemma HiddenPropagated(body: Node, def: Node, use: Node, new_: Node, set_: Node, hidden: Node, atoms: set<Node>)
    requires def.Ident? && def.obj.Var? && use.Ident? && IsGarlicCall(new_)
    requires set_ == Assign([def], [new_]) && hidden == Assign([Paren(use)], [Other([])])
    requires atoms == {def, use, new_, set_, hidden, Return([use])}
    requires BuiltFrom(body, atoms) && set_ in Children(body)
    ensures IsPropagatedVar(body, def.obj)
  {
    hide BuiltFrom, IsPropagatedVar, Tracks;
    AssignmentTracks(def, new_, def.obj);
    AssignmentTracks(Paren(use), Other([]), def.obj);
    forall m | m in {def, use, new_, Return([use])} ensures Tracks(m, def.obj) { InertTracks(m, def.obj); }
    PropagatedByAtoms(body, atoms, def.obj, set_);
  }

  lemma HiddenAccepted(fn: Function, err: Object, def: Node, use: Node, new_: Node)
    requires Hidden(fn, err, def, use, new_)
    ensures Accepted(fn) && KeepsAllBut(fn, PlainAssignments)
    ensures forall n | n in Nodes(fn.body) :: Quiet(n)
  {
    hide Fine, KeepsAt, Accepted, KeepsAllBut, IsPropagatedVar, NeverAssigned, Quiet, BuiltFrom, Outer, WellFormed;
    var set_, hidden := Assign([def], [new_]), Assign([Paren(use)], [Other([])]);
    var atoms := {def, use, new_, set_, hidden, Return([use])};
    HiddenBuilt(def, use, new_, set_, hidden, atoms);
    HiddenPropagated(fn.body, def, use, new_, set_, hidden, atoms);
    DefinedHere(fn, set_, def);
    FineReturn(fn, PlainAssignments, use);
    FineAssignment(fn, PlainAssignments, def, new_);
    FineAssignment(fn, PlainAssignments, Paren(use), Other([]));
    FineLeaf(fn, PlainAssignments, def);
    FineLeaf(fn, PlainAssignments, use);
    FineLeaf(fn, PlainAssignments, new_);
    AcceptedByAtoms(fn, PlainAssignments, atoms);
    QuietByAtoms(fn.body, atoms);
  }

  lemma DefinedHere(fn: Function, set_: Node, def: Node)
    requires set_ in Children(fn.body) && def in Children(set_) && def.Ident? && def.defines && def.obj.Var?
    ensures IsLocal(fn, def.obj)
  {
    ChildOf(fn.body, set_);
    ChildOf(set_, def);
    NodesTransitive(fn.body, set_, def);
  }

  /** Two assignments, then the return. */
  lemma AssignAssignReturn(fn: Function, run: seq<Step>, first: Node, second: Node, ret: Node, m0: Memory, v1: Value,
                           m1: Memory, m2: Memory)
    returns (run': seq<Step>)
    requires fn.body == Block([first, second, ret]) && Quiet(first) && Quiet(second)
    requires At(fn, run, Alone(fn, m0.heap, m0.env, [fn.body]))
    requires first.Assign? && |first.lhs| == 1 && second.Assign? && |second.lhs| == 1
    requires Produces(fn, m0, fn.results, first, [v1]) && m1 == Store(m0, first.lhs[0], v1)
    requires Produces(fn, m1, fn.results, second, [Raw]) && m2 == Store(m1, second.lhs[0], Raw)
    requires ret.Return? && |fn.results| == 1 && fn.results[0].isError
    requires Produces(fn, m2, fn.results, ret, [Raw])
    ensures Legal(fn, run') && Leaks(fn, run')
  {
    hide Produces, Store;
    run' := Control(fn, run, m0.heap, m0.env, [fn.body], false, [first, second, ret]);
    run' := Bind(fn, run', m0, [first, second, ret], v1, m1);
    assert [first, second, ret][1..] == [second, ret];
    run' := Bind(fn, run', m1, [second, ret], Raw, m2);
    assert [second, ret][1..] == [ret];
    run' := Finish(fn, run', Alone(fn, m2.heap, m2.env, [ret]), m2.env, ret);
  }

  lemma HiddenRuns(fn: Function, err: Object, def: Node, use: Node, new_: Node) returns (run: seq<Step>)
    requires Hidden(fn, err, def, use, new_) && forall n | n in Nodes(fn.body) :: Quiet(n)
    ensures Legal(fn, run) && Leaks(fn, run)
  {
    hide Leaks;
    var set_, hidden := Assign([def], [new_]), Assign([Paren(use)], [Other([])]);
    ChildOf(fn.body, set_);
    ChildOf(fn.body, hidden);
    var heap, env;
    run, heap, env := StartedPlain(fn);
    assert Target(Paren(use)) == err by { assert Target(use) == err; }
    run := AssignAssignReturn(fn, run, set_, hidden, Return([use]), Memory(env, heap), Garlic,
                              Memory(map[err := 0], [Cell(err, Garlic)]), Memory(map[err := 0], [Cell(err, Raw)]));
  }

  lemma HiddenLeaks(fn: Function, err: Object, def: Node, use: Node, new_: Node) returns (run: seq<Step>)
    requires Hidden(fn, err, def, use, new_)
    ensures Needs(fn, PlainAssignments, run)
  {
    hide Hidden, Accepted, KeepsAllBut, Leaks;
    HiddenAccepted(fn, err, def, use, new_);
    run := HiddenRuns(fn, err, def, use, new_);
  }

  // --- variables named nil ------------------------------------------------------------------

  // func f(err error) error { nil := err; return nil }
  predicate Shadow(fn: Function, shadow: Object, def: Node, use: Node, err: Node) {
    && shadow.Var? && shadow.isError && shadow.pointerLike
    && def == Ident("nil", shadow, true) && use == Ident("nil", shadow, false)
    && err.Ident? && Uses(err, err.obj) && err.obj != shadow
    && fn == Function([err.obj], UNNAMED, Block([Assign([def], [err]), Return([use])]), false)
  }

  lemma TwoBuilt(target: Node, value: Node, set_: Node, ret: Node, atoms: set<Node>)
    requires target.Ident? && Children(value) == [] && set_ == Assign([target], [value])
    requires ret.Return? && forall c | c in Children(ret) :: c in atoms && c.Ident?
    requires {target, value, set_, ret} <= atoms
    ensures BuiltFrom(Block([set_, ret]), atoms)
  {
    assert BuiltFrom(target, atoms) && BuiltFrom(value, atoms);
    assert BuiltFrom(set_, atoms) && BuiltFrom(ret, atoms);
  }

  lemma ShadowAccepted(fn: Function, shadow: Object, def: Node, use: Node, err: Node)
    requires Shadow(fn, shadow, def, use, err)
    ensures Accepted(fn) && KeepsAllBut(fn, NoNilIdents)
    ensures forall n | n in Nodes(fn.body) :: Quiet(n)
  {
    hide Fine, KeepsAt, Accepted, KeepsAllBut, IsPropagatedVar, NeverAssigned, Quiet, Outer, WellFormed;
    var set_ := Assign([def], [err]);
    var atoms := {def, use, err, set_, Return([use])};
    TwoBuilt(def, err, set_, Return([use]), atoms);
    DefinedHere(fn, set_, def);
    FineReturn(fn, NoNilIdents, use);
    FineAssignment(fn, NoNilIdents, def, err);
    FineLeaf(fn, NoNilIdents, def);
    FineLeaf(fn, NoNilIdents, use);
    FineLeaf(fn, NoNilIdents, err);
    AcceptedByAtoms(fn, NoNilIdents, atoms);
    QuietByAtoms(fn.body, atoms);
  }

  /** One assignment, then the return. */
  lemma AssignReturn(fn: Function, run: seq<Step>, first: Node, ret: Node, m0: Memory, m1: Memory)
    returns (run': seq<Step>)
    requires fn.body == Block([first, ret]) && Quiet(first)
    requires At(fn, run, Alone(fn, m0.heap, m0.env, [fn.body]))
    requires first.Assign? && |first.lhs| == 1
    requires Produces(fn, m0, fn.results, first, [Raw]) && m1 == Store(m0, first.lhs[0], Raw)
    requires ret.Return? && |fn.results| == 1 && fn.results[0].isError
    requires Produces(fn, m1, fn.results, ret, [Raw])
    ensures Legal(fn, run') && Leaks(fn, run')
  {
    hide Produces, Store;
    run' := Control(fn, run, m0.heap, m0.env, [fn.body], false, [first, ret]);
    run' := Bind(fn, run', m0, [first, ret], Raw, m1);
    assert [first, ret][1..] == [ret];
    run' := Finish(fn, run', Alone(fn, m1.heap, m1.env, [ret]), m1.env, ret);
  }

  lemma ShadowRuns(fn: Function, shadow: Object, def: Node, use: Node, err: Node) returns (run: seq<Step>)
    requires Shadow(fn, shadow, def, use, err) && forall n | n in Nodes(fn.body) :: Quiet(n)
    ensures Legal(fn, run) && Leaks(fn, run)
  {
    hide Leaks, Legal, Reached, Quiet, Outer;
    var set_ := Assign([def], [err]);
    ChildOf(fn.body, set_);
    var m0 := Memory(map[err.obj := 0], [Cell(err.obj, Raw)]);
    OneParameter(fn, err.obj);
    Started(fn, [Raw], m0.heap, m0.env);
    run := AssignReturn(fn, [Invoke([Raw])], set_, Return([use]), m0,
                        Memory(map[err.obj := 0, shadow := 1], [Cell(err.obj, Raw), Cell(shadow, Raw)]));
  }

  lemma ShadowLeaks(fn: Function, shadow: Object, def: Node, use: Node, err: Node) returns (run: seq<Step>)
    requires Shadow(fn, shadow, def, use, err)
    ensures Needs(fn, NoNilIdents, run)
  {
    hide Shadow, Accepted, KeepsAllBut, Leaks;
    ShadowAccepted(fn, shadow, def, use, err);
    run := ShadowRuns(fn, shadow, def, use, err);
  }

  // func f() (nil error) { nil = raw; return }
  predicate NilResult(fn: Function, obj: Object, use: Node) {
    && obj.Var? && obj.isError && obj.pointerLike && use == Ident("nil", obj, false)
    && fn == Function([], [Result("nil", obj, true)], Block([Assign([use], [Other([])]), Return([])]), false)
  }

  lemma NilResultAccepted(fn: Function, obj: Object, use: Node)
    requires NilResult(fn, obj, use)
    ensures Accepted(fn) && KeepsAllBut(fn, NoNilResults)
    ensures forall n | n in Nodes(fn.body) :: Quiet(n)
  {
    hide Fine, KeepsAt, Accepted, KeepsAllBut, IsPropagatedVar, NeverAssigned, Quiet, Outer, WellFormed;
    var set_ := Assign([use], [Other([])]);
    var atoms := {use, Other([]), set_, Return([])};
    TwoBuilt(use, Other([]), set_, Return([]), atoms);
    NothingRecovers(fn, atoms);
    FineNakedReturn(fn, NoNilResults, fn.results[0]);
    FineAssignment(fn, NoNilResults, use, Other([]));
    FineLeaf(fn, NoNilResults, use);
    FineLeaf(fn, NoNilResults, Other([]));
    AcceptedByAtoms(fn, NoNilResults, atoms);
    QuietByAtoms(fn.body, atoms);
  }

  lemma NilResultRuns(fn: Function, obj: Object, use: Node) returns (run: seq<Step>)
    requires NilResult(fn, obj, use) && forall n | n in Nodes(fn.body) :: Quiet(n)
    ensures Legal(fn, run) && Leaks(fn, run)
  {
    var set_ := Assign([use], [Other([])]);
    ChildOf(fn.body, set_);
    var heap, env;
    run, heap, env := StartedPlain(fn);
    run := AssignReturn(fn, run, set_, Return([]), Memory(env, heap), Memory(env, [Cell(obj, Raw)]));
  }

  lemma NilResultLeaks(fn: Function, obj: Object, use: Node) returns (run: seq<Step>)
    requires NilResult(fn, obj, use)
    ensures Needs(fn, NoNilResults, run)
  {
    hide NilResult, Accepted, KeepsAllBut, Leaks;
    NilResultAccepted(fn, obj, use);
    run := NilResultRuns(fn, obj, use);
  }

  // --- a named result changed without an assignment ---------------------------------------------

  // func f() (code Errno) { code++; return }
  // func f() (errs ErrorList) { errs.Add(pos, msg); return }
  predicate InPlace(fn: Function, obj: Object, use: Node, change: Node) {
    && obj.Var? && obj.isError && !obj.pointerLike && use.Ident? && use.obj == obj && use.name != "nil" && !use.defines
    && (change == Other([use]) || (change.Call? && !IsGarlicCall(change) && change.args == [Other([use])]))
    && fn == Function([], [Result(use.name, obj, true)], Block([ExprStmt(change), Return([])]), false)
  }

  lemma InPlaceUnassigned(use: Node, change: Node, body: Node, atoms: set<Node>)
    requires use.Ident? && (change == Other([use]) || (change.Call? && change.args == [Other([use])]))
    requires body == Block([ExprStmt(change), Return([])]) && atoms == {use, change, Return([])}
    ensures BuiltFrom(body, atoms) && NeverAssigned(body, use.obj)
  {
    assert BuiltFrom(use, atoms) && BuiltFrom(Return([]), atoms) && BuiltFrom(Other([use]), atoms);
    assert BuiltFrom(change, atoms) && BuiltFrom(ExprStmt(change), atoms);
    NeverAssignedByAtoms(body, atoms, use.obj);
  }

  lemma InPlaceAccepted(fn: Function, obj: Object, use: Node, change: Node)
    requires InPlace(fn, obj, use, change)
    ensures Accepted(fn) && KeepsAllBut(fn, PointerLikeResults) && Plain(fn)
  {
    hide Fine, KeepsAt, Accepted, KeepsAllBut, IsPropagatedVar, NeverAssigned, Quiet, BuiltFrom;
    var atoms := {use, change, Return([])};
    InPlaceUnassigned(use, change, fn.body, atoms);
    NothingRecovers(fn, atoms);
    FineNakedReturn(fn, PointerLikeResults, fn.results[0]);
    FineLeaf(fn, PointerLikeResults, use);
    FineLeaf(fn, PointerLikeResults, change);
    AcceptedByAtoms(fn, PointerLikeResults, atoms);
    assert Return([]) in fn.body.stmts;
    PlainByAtoms(fn, atoms);
  }

  lemma InPlaceLeaks(fn: Function, obj: Object, use: Node, change: Node) returns (run: seq<Step>)
    requires InPlace(fn, obj, use, change)
    ensures Needs(fn, PointerLikeResults, run)
  {
    hide KeepsAllBut, Leaks, Keeps, Plain;
    InPlaceAccepted(fn, obj, use, change);
    InPlaceBroken(fn, obj, use, change);
    run := BrokenLeaks(fn, PointerLikeResults);
  }

  lemma InPlaceBroken(fn: Function, obj: Object, use: Node, change: Node)
    requires InPlace(fn, obj, use, change)
    ensures !Keeps(fn, PointerLikeResults)
  {
    hide Nodes, Outer, Guarded, StoresSound, Reports;
    var stmt := ExprStmt(change);
    ChildInBody(fn, fn.body, stmt) by { BodyInBody(fn); }
    ChildInBody(fn, stmt, change);
    var inner := if change.Other? then change else change.args[0];
    if change.Call? { ChildInBody(fn, change, inner); }
    ChildInBody(fn, inner, use);
    assert fn.results[0] in fn.results;
    assert !KeepsAt(fn, PointerLikeResults, use);
  }

  // func f() (err error) { p := &(err); return }
  predicate Addressed(fn: Function, err: Object, use: Node, p: Node) {
    && Uses(use, err) && p.Ident? && p.defines && p.obj.Var? && !p.obj.isError && p.obj.pointerLike && p.obj != err
    && fn == Function([], [Result(use.name, err, true)],
                      Block([Assign([p], [AddressOf(Paren(use))]), Return([])]), false)
  }

  lemma AddressedBuilt(use: Node, p: Node, address: Node, set_: Node, atoms: set<Node>)
    requires use.Ident? && p.Ident? && address == AddressOf(Paren(use)) && set_ == Assign([p], [address])
    requires atoms == {use, p, address, set_, Return([])}
    ensures BuiltFrom(Block([set_, Return([])]), atoms)
  {
    assert BuiltFrom(use, atoms) && BuiltFrom(p, atoms) && BuiltFrom(Return([]), atoms);
    assert BuiltFrom(Paren(use), atoms) && BuiltFrom(address, atoms) && BuiltFrom(set_, atoms);
  }

  lemma AddressedUnassigned(body: Node, use: Node, p: Node, address: Node, set_: Node, atoms: set<Node>)
    requires use.Ident? && p.Ident? && address == AddressOf(Paren(use)) && set_ == Assign([p], [address])
    requires p.obj != use.obj && use.obj.Var?
    requires atoms == {use, p, address, set_, Return([])} && BuiltFrom(body, atoms)
    ensures NeverAssigned(body, use.obj)
  {
    AssignmentTracks(p, address, use.obj);
    NeverAssignedByAtoms(body, atoms, use.obj);
  }

  lemma AddressedAccepted(fn: Function, err: Object, use: Node, p: Node)
    requires Addressed(fn, err, use, p)
    ensures Accepted(fn) && KeepsAllBut(fn, PlainAddresses)
  {
    hide Fine, KeepsAt, Accepted, KeepsAllBut, IsPropagatedVar, NeverAssigned, Quiet, BuiltFrom, Outer, WellFormed;
    var address := AddressOf(Paren(use));
    var set_ := Assign([p], [address]);
    var atoms := {use, p, address, set_, Return([])};
    AddressedBuilt(use, p, address, set_, atoms);
    AddressedUnassigned(fn.body, use, p, address, set_, atoms);
    NothingRecovers(fn, atoms);
    FineNakedReturn(fn, PlainAddresses, fn.results[0]);
    FineAssignment(fn, PlainAddresses, p, address);
    FineLeaf(fn, PlainAddresses, use);
    FineLeaf(fn, PlainAddresses, p);
    FineLeaf(fn, PlainAddresses, address);
    AcceptedByAtoms(fn, PlainAddresses, atoms);
  }

  lemma AddressEscapes(use: Node, set_: Node, p: Node, env: Env)
    requires use.Ident? && p.Ident? && set_ == Assign([p], [AddressOf(Paren(use))]) && env == map[use.obj := 0]
    requires use.obj.Var? && use.obj.pointerLike && p.obj.Var? && p.obj.pointerLike
    ensures Escaping(set_, env) == {0} && Captured(set_, env) == {}
  {
    var address := AddressOf(Paren(use));
    assert Heads(set_) == [p, address];
    OnlyTheAddress(use, address);
    assert Target(Paren(use)) == use.obj by { assert Target(use) == use.obj; }
    assert Outer(p) == [p];
    assert address in Heads(set_) && address in Outer(address) && Exposes(address) == use.obj;
  }

  lemma OnlyTheAddress(use: Node, address: Node)
    requires use.Ident? && address == AddressOf(Paren(use))
    ensures forall m | m in Outer(address) :: m == address || m == Paren(use) || m == use
  {
    assert Outer(use) == [use];
    forall m | m in Outer(Paren(use)) ensures m == Paren(use) || m == use {
      if m != Paren(use) { var c := FindOuterChild(Paren(use), m, 1); }
    }
    forall m | m in Outer(address) ensures m == address || m == Paren(use) || m == use {
      if m != address { var c := FindOuterChild(address, m, 1); }
    }
  }

  /** The assignment takes the address of err's cell. */
  lemma TakesAddress(fn: Function, run: seq<Step>, heap: seq<Cell>, env: Env, use: Node, p: Node, set_: Node, ret: Node)
    returns (run': seq<Step>)
    requires use.Ident? && use.obj.Var? && use.obj.pointerLike && set_ == Assign([p], [AddressOf(Paren(use))])
    requires p.Ident? && p.defines && p.obj.Var? && p.obj.pointerLike
    requires |heap| == 1 && env == map[use.obj := 0]
    requires At(fn, run, Alone(fn, heap, env, [set_, ret]))
    ensures var env' := env[p.obj := 1];
      At(fn, run', State(heap + [Cell(p.obj, Raw)], {0}, {}, [Thread(true, fn.results, env', [ret], false, Running)]))
  {
    AddressEscapes(use, set_, p, env);
    run' := Take(fn, run, Alone(fn, heap, env, [set_, ret]), Execute(0, false, [Raw]));
    StoreOne(Memory(env, heap), [p], Raw);
    assert [set_, ret][1..] == [ret];
  }

  /** A change the body does not name as an assignment, then the naked return reads it. */
  lemma DisturbReturn(fn: Function, run: seq<Step>, s: State, heap: seq<Cell>, env: Env, ret: Node)
    returns (run': seq<Step>)
    requires At(fn, run, s) && s.threads == [Thread(true, fn.results, env, [ret], false, Running)]
    requires Enabled(fn, s, Disturb(0, Raw)) && heap == s.heap[0 := s.heap[0].(value := Raw)]
    requires ret.Return? && |fn.results| == 1 && fn.results[0].isError
    requires Produces(fn, Memory(env, heap), fn.results, ret, [Raw])
    ensures Legal(fn, run') && Leaks(fn, run')
  {
    hide Produces;
    run' := Take(fn, run, s, Disturb(0, Raw));
    run' := Finish(fn, run', s.(heap := heap), env, ret);
  }

  lemma AddressedRuns(fn: Function, err: Object, use: Node, p: Node) returns (run: seq<Step>)
    requires Addressed(fn, err, use, p)
    ensures Legal(fn, run) && Leaks(fn, run)
  {
    hide Leaks, Legal, Reached, Outer, Nodes;
    var set_, ret := Assign([p], [AddressOf(Paren(use))]), Return([]);
    var heap, env;
    run, heap, env := StartedPlain(fn);
    run := Control(fn, run, heap, env, [fn.body], false, [set_, ret]);
    run := TakesAddress(fn, run, heap, env, use, p, set_, ret);
    var cells, env' := heap + [Cell(p.obj, Raw)], env[p.obj := 1];
    var s := State(cells, {0}, {}, [Thread(true, fn.results, env', [ret], false, Running)]);
    run := DisturbReturn(fn, run, s, cells[0 := Cell(err, Raw)], env', ret);
  }

  lemma AddressedLeaks(fn: Function, err: Object, use: Node, p: Node) returns (run: seq<Step>)
    requires Addressed(fn, err, use, p)
    ensures Needs(fn, PlainAddresses, run)
  {
    hide Addressed, Accepted, KeepsAllBut, Leaks;
    AddressedAccepted(fn, err, use, p);
    run := AddressedRuns(fn, err, use, p);
  }

  // func f() (err error) { for (err) = range raws { }; return }
  predicate Ranged(fn: Function, err: Object, use: Node) {
    && Uses(use, err)
    && fn == Function([], [Result(use.name, err, true)],
                      Block([Range([Paren(use)], Other([]), Block([])), Return([])]), false)
  }

  lemma RangedBuilt(use: Node, loop: Node, body: Node, atoms: set<Node>)
    requires use.Ident? && loop == Range([Paren(use)], Other([]), Block([]))
    requires body == Block([loop, Return([])]) && atoms == {use, loop, Return([])}
    ensures BuiltFrom(body, atoms)
  {
    assert BuiltFrom(use, atoms) && BuiltFrom(Paren(use), atoms) && BuiltFrom(Return([]), atoms);
    assert BuiltFrom(Other([]), atoms) && BuiltFrom(Block([]), atoms) && BuiltFrom(loop, atoms);
    assert Falls(loop);
  }

  lemma RangedUnassigned(use: Node, loop: Node, body: Node, atoms: set<Node>)
    requires use.Ident? && use.obj.Var? && loop == Range([Paren(use)], Other([]), Block([]))
    requires body == Block([loop, Return([])]) && atoms == {use, loop, Return([])}
    ensures BuiltFrom(body, atoms) && NeverAssigned(body, use.obj)
  {
    hide NeverAssigned;
    RangedBuilt(use, loop, body, atoms);
    hide BuiltFrom;
    NeverAssignedByAtoms(body, atoms, use.obj);
  }

  lemma RangedAccepted(fn: Function, err: Object, use: Node)
    requires Ranged(fn, err, use)
    ensures Accepted(fn) && KeepsAllBut(fn, PlainRanges)
    ensures forall n | n in Nodes(fn.body) :: Quiet(n)
  {
    hide Fine, KeepsAt, Accepted, KeepsAllBut, IsPropagatedVar, NeverAssigned, Quiet, BuiltFrom, Outer, WellFormed;
    var loop := Range([Paren(use)], Other([]), Block([]));
    var atoms := {use, loop, Return([])};
    RangedUnassigned(use, loop, fn.body, atoms);
    NothingRecovers(fn, atoms);
    FineNakedReturn(fn, PlainRanges, fn.results[0]);
    FineLeaf(fn, PlainRanges, use);
    FineLeaf(fn, PlainRanges, loop);
    AcceptedByAtoms(fn, PlainRanges, atoms);
    QuietByAtoms(fn.body, atoms);
  }

  lemma RangedRuns(fn: Function, err: Object, use: Node) returns (run: seq<Step>)
    requires Ranged(fn, err, use) && forall n | n in Nodes(fn.body) :: Quiet(n)
    ensures Legal(fn, run) && Leaks(fn, run)
  {
    hide Leaks;
    var loop, ret := Range([Paren(use)], Other([]), Block([])), Return([]);
    ChildOf(fn.body, loop);
    var heap, env;
    run, heap, env := StartedPlain(fn);
    run := Control(fn, run, heap, env, [fn.body], false, [loop, ret]);
    run := OneRound(fn, run, heap, env, loop, ret, use);
    run := Finish(fn, run, Alone(fn, [Cell(err, Raw)], env, [ret]), env, ret);
  }

  lemma OneRound(fn: Function, run: seq<Step>, heap: seq<Cell>, env: Env, loop: Node, ret: Node, use: Node)
    returns (run': seq<Step>)
    requires At(fn, run, Alone(fn, heap, env, [loop, ret])) && Quiet(loop)
    requires loop == Range([Paren(use)], Other([]), Block([])) && use.Ident? && !use.defines
    requires |heap| == 1 && env == map[use.obj := 0]
    ensures At(fn, run', Alone(fn, [heap[0].(value := Raw)], env, [ret]))
  {
    hide At, Alone, Outer;
    var cells := [heap[0].(value := Raw)];
    var work := [Block([]), loop, ret];
    assert work[1..] == [loop, ret];
    run' := Iterate(fn, run, heap, env, loop, ret, use);
    run' := Control(fn, run', cells, env, work, false, [loop, ret]);
    run' := Leave(fn, run', cells, env, loop, ret);
  }

  /** The loop binds its target and enters its body. */
  lemma Iterate(fn: Function, run: seq<Step>, heap: seq<Cell>, env: Env, loop: Node, ret: Node, use: Node)
    returns (run': seq<Step>)
    requires At(fn, run, Alone(fn, heap, env, [loop, ret])) && Quiet(loop)
    requires loop == Range([Paren(use)], Other([]), Block([])) && use.Ident? && !use.defines
    requires |heap| == 1 && env == map[use.obj := 0]
    ensures At(fn, run', Alone(fn, [heap[0].(value := Raw)], env, [Block([]), loop, ret]))
  {
    var s := Alone(fn, heap, env, [loop, ret]);
    run' := Take(fn, run, s, Execute(0, true, [Raw]));
    EveryRunIsSane(fn, run);
    QuietTouched(s, loop, env);
    StoreOne(Memory(env, heap), [Paren(use)], Raw);
    assert Target(Paren(use)) == use.obj by { assert Target(use) == use.obj; }
    assert heap[0 := heap[0].(value := Raw)] == [heap[0].(value := Raw)];
    assert [loop, ret][1..] == [ret] && [Block([]), loop] + [ret] == [Block([]), loop, ret];
  }

  /** The loop is done. */
  lemma Leave(fn: Function, run: seq<Step>, heap: seq<Cell>, env: Env, loop: Node, ret: Node)
    returns (run': seq<Step>)
    requires At(fn, run, Alone(fn, heap, env, [loop, ret])) && Quiet(loop) && loop.Range? && |loop.binds| == 1
    ensures At(fn, run', Alone(fn, heap, env, [ret]))
  {
    var s := Alone(fn, heap, env, [loop, ret]);
    run' := Take(fn, run, s, Execute(0, false, [Raw]));
    EveryRunIsSane(fn, run);
    QuietTouched(s, loop, env);
    assert [loop, ret][1..] == [ret];
  }

  lemma RangedLeaks(fn: Function, err: Object, use: Node) returns (run: seq<Step>)
    requires Ranged(fn, err, use)
    ensures Needs(fn, PlainRanges, run)
  {
    hide Ranged, Accepted, KeepsAllBut, Leaks;
    RangedAccepted(fn, err, use);
    run := RangedRuns(fn, err, use);
  }

  // --- a returned call whose value is converted to an error -----------------------------------------

  // func f() (int, MultiError) { return g() }, where g returns (int, []error)
  predicate Converted(fn: Function, call: Node) {
    && call.Call? && !IsGarlicCall(call) && call.args == [] && call.errorResults == [false, false]
    && fn == Function([], [Result("", NoObject, false), Result("", NoObject, true)], Block([Return([call])]), false)
  }

  lemma ConvertedAccepted(fn: Function, call: Node)
    requires Converted(fn, call)
    ensures Accepted(fn) && KeepsAllBut(fn, ErrorTuples)
    ensures forall n | n in Nodes(fn.body) :: Quiet(n)
  {
    hide Accepted, KeepsAllBut, Quiet;
    var ret := Return([call]);
    var atoms := {call, ret};
    assert BuiltFrom(call, atoms) && BuiltFrom(ret, atoms) && BuiltFrom(fn.body, atoms);
    assert ReturnsError(fn.results) by { assert fn.results[1] in fn.results; }
    FineConversion(fn, ret);
    FineLeaf(fn, ErrorTuples, call);
    AcceptedByAtoms(fn, ErrorTuples, atoms);
    QuietByAtoms(fn.body, atoms);
  }

  lemma FineConversion(fn: Function, ret: Node)
    requires ret.Return? && |ret.values| == 1 && |fn.results| == 2 && TupleOf(ret.values[0]) == [false, false]
    ensures Fine(fn, ErrorTuples, ret)
  {
    hide Recovers, Guarded, Owns;
    assert TupleErrorReturn(ret.values[0], fn.results) == [];
  }

  lemma ConvertedLeaks(fn: Function, call: Node) returns (run: seq<Step>)
    requires Converted(fn, call)
    ensures Needs(fn, ErrorTuples, run)
  {
    hide Converted, Accepted, KeepsAllBut, Leaks, Legal;
    ConvertedAccepted(fn, call);
    run := ConvertedRuns(fn, call);
  }

  lemma ConvertedRuns(fn: Function, call: Node) returns (run: seq<Step>)
    requires Converted(fn, call) && forall n | n in Nodes(fn.body) :: Quiet(n)
    ensures Legal(fn, run) && Leaks(fn, run)
  {
    hide Quiet;
    var ret := Return([call]);
    assert ResultObjects(fn.results) == [NoObject, NoObject] && Zeros(2) == [Zero, Zero];
    assert [NoObject, NoObject][..1] == [NoObject] && [Zero, Zero][..1] == [Zero];
    assert [NoObject][..0] == [] && [Zero][..0] == [];
    assert DeclareAll(Memory(map[], []), [NoObject], [Zero]) == Memory(map[], []);
    Started(fn, [], [], map[]);
    BodyInBody(fn);
    run := Control(fn, [Invoke([])], [], map[], [fn.body], false, [ret]);
    run := FinishPair(fn, run, ret);
  }

  lemma FinishPair(fn: Function, run: seq<Step>, ret: Node) returns (run': seq<Step>)
    requires At(fn, run, Alone(fn, [], map[], [ret])) && ret.Return? && |ret.values| == 1
    requires fn.results == [Result("", NoObject, false), Result("", NoObject, true)]
    ensures Legal(fn, run') && Leaks(fn, run')
  {
    var s, raws := Alone(fn, [], map[], [ret]), [Raw, Raw];
    run' := Take(fn, run, s, Execute(0, false, raws));
    var s' := Apply(fn, s, Execute(0, false, raws));
    EveryRunIsSane(fn, run');
    assert s'.threads[0].exit == Returned(raws) && s'.threads[0].results == fn.results;
    assert !Clean(Received(s', 0, 1));
    assert AnswersRaw(s', 0);
  }

  // --- a named result that changes after the return statement, or without one -------------------------

  // func f() (err error) { defer capture(&err); return errors.New() }
  predicate Captures(fn: Function, err: Object, use: Node, call: Node, new_: Node) {
    && Uses(use, err) && Constructs(new_) && call.Call? && !IsGarlicCall(call) && call.args == [AddressOf(use)]
    && fn == Function([], [Result(use.name, err, true)], Block([Defer(call), Return([new_])]), false)
  }

  /** A deferral, perhaps another statement, and the return. */
  lemma DeferralFormed(body: Node, call: Node, ret: Node)
    requires body.Block? && 1 < |body.stmts| <= 3 && body.stmts[0] == Defer(call) && ret.Return?
    requires body.stmts[|body.stmts| - 1] == ret && (|body.stmts| == 3 ==> body.stmts[1].Assign?)
    ensures WellFormed(body) && !Falls(body)
  {
    assert ret in body.stmts && !Falls(ret);
    assert forall c | c in body.stmts :: c == Defer(call) || c == body.stmts[1] || c == ret;
  }

  /** A leaf or a statement of leaves that does not assign. */
  lemma LeafFormed(fn: Function, m: Node)
    requires (!IsStatement(m) && !m.FuncLit?) || m.Defer? || m.Return?
    requires forall c | c in Children(m) :: !IsStatement(c)
    ensures WellFormed(m) && Traceable(fn, m)
  {
  }

  lemma CapturesBuilt(fn: Function, err: Object, use: Node, call: Node, new_: Node, atoms: set<Node>)
    requires Captures(fn, err, use, call, new_)
    requires atoms == {use, new_, call, AddressOf(use), Defer(call), Return([new_])}
    ensures BuiltFrom(fn.body, atoms)
  {
    hide WellFormed, Falls;
    assert BuiltFrom(use, atoms) && BuiltFrom(new_, atoms) && BuiltFrom(AddressOf(use), atoms);
    assert BuiltFrom(call, atoms) && BuiltFrom(Defer(call), atoms) && BuiltFrom(Return([new_]), atoms);
    DeferralFormed(fn.body, call, Return([new_]));
  }

  lemma CapturesFormed(fn: Function, err: Object, use: Node, call: Node, new_: Node, atoms: set<Node>)
    requires Captures(fn, err, use, call, new_)
    requires atoms == {use, new_, call, AddressOf(use), Defer(call), Return([new_])}
    ensures BuiltFrom(fn.body, atoms) && forall m | m in atoms :: WellFormed(m) && Traceable(fn, m)
  {
    hide WellFormed, Falls, Traceable, BuiltFrom;
    CapturesBuilt(fn, err, use, call, new_, atoms);
    forall m | m in atoms ensures WellFormed(m) && Traceable(fn, m) { LeafFormed(fn, m); }
  }

  lemma CapturesAccepted(fn: Function, err: Object, use: Node, call: Node, new_: Node)
    requires Captures(fn, err, use, call, new_)
    ensures Accepted(fn) && KeepsAllBut(fn, KeptAddresses) && Plain(fn)
  {
    hide Fine, KeepsAt, Accepted, KeepsAllBut, Plain, Recovers, BuiltFrom, WellFormed, Traceable;
    var address, ret := AddressOf(use), Return([new_]);
    var atoms := {use, new_, call, address, Defer(call), ret};
    CapturesFormed(fn, err, use, call, new_, atoms);
    FineLeaf(fn, KeptAddresses, use);
    FineLeaf(fn, KeptAddresses, new_);
    FineLeaf(fn, KeptAddresses, call);
    FineLeaf(fn, KeptAddresses, address);
    FineLeaf(fn, KeptAddresses, Defer(call));
    FineConstruction(fn, KeptAddresses, new_);
    AcceptedByAtoms(fn, KeptAddresses, atoms);
    PlainByAtoms(fn, atoms) by { assert ret in fn.body.stmts; }
  }

  lemma CapturesLeaks(fn: Function, err: Object, use: Node, call: Node, new_: Node) returns (run: seq<Step>)
    requires Captures(fn, err, use, call, new_)
    ensures Needs(fn, KeptAddresses, run)
  {
    hide KeepsAllBut, Leaks, Legal, Plain, Keeps;
    CapturesAccepted(fn, err, use, call, new_);
    assert !Keeps(fn, KeptAddresses) by { CapturesBroken(fn, err, use, call, new_); }
    run := BrokenLeaks(fn, KeptAddresses);
  }

  lemma CapturesBroken(fn: Function, err: Object, use: Node, call: Node, new_: Node)
    requires Captures(fn, err, use, call, new_)
    ensures !Keeps(fn, KeptAddresses)
  {
    hide Nodes;
    BodyInBody(fn);
    ChildInBody(fn, fn.body, Defer(call));
    ChildInBody(fn, Defer(call), call);
    ChildInBody(fn, call, AddressOf(use));
    assert fn.results[0] in fn.results;
    assert !KeepsAt(fn, KeptAddresses, AddressOf(use));
  }

  // func f() (err error) { defer func() { err = raw }(); return errors.New() }
  predicate Overwrites(fn: Function, err: Object, use: Node, new_: Node) {
    && Uses(use, err) && Constructs(new_)
    && fn == Function([], [Result(use.name, err, true)],
                      Block([Defer(Overwriting(use)), Return([new_])]), false)
  }

  /** An immediate call of a literal that assigns a foreign error. */
  function Overwriting(use: Node): Node {
    Call(Unresolved, [], false, [FuncLit([], [], Block([Assign([use], [Other([])])]))])
  }

  lemma OverwritingBuilt(use: Node, atoms: set<Node>)
    requires use.Ident? && {use, Assign([use], [Other([])])} <= atoms
    ensures BuiltFrom(Block([Assign([use], [Other([])])]), atoms)
  {
    assert BuiltFrom(use, atoms) && BuiltFrom(Other([]), atoms) && BuiltFrom(Assign([use], [Other([])]), atoms);
  }

  lemma OverwritingRecoversNothing(use: Node)
    requires use.Ident?
    ensures !MayRecover(Defer(Overwriting(use)))
  {
    var body := Block([Assign([use], [Other([])])]);
    OverwritingBuilt(use, {use, Assign([use], [Other([])])});
    BuiltOuterNodes(body, {use, Assign([use], [Other([])])});
    assert Overwriting(use).args[0].body == body;
  }

  lemma OverwritesBuilt(fn: Function, err: Object, use: Node, new_: Node, atoms: set<Node>)
    requires Overwrites(fn, err, use, new_)
    requires var call := Overwriting(use);
      atoms == {use, new_, Assign([use], [Other([])]), call.args[0], call, Defer(call), Return([new_])}
    ensures BuiltFrom(fn.body, atoms) && !Recovers(fn)
    ensures forall m | m in atoms :: WellFormed(m) && Traceable(fn, m)
  {
    hide MayRecover, WellFormed, Falls, Traceable, BuiltFrom;
    var call := Overwriting(use);
    OverwritingRecoversNothing(use);
    OverwritesFromAtoms(fn, err, use, new_, atoms);
    BuiltOuterNodes(fn.body, atoms);
    forall m | m in Outer(fn.body) ensures !MayRecover(m) {
      if MayRecover(m) { DefersOnly(m); }
    }
    forall m | m in atoms ensures WellFormed(m) && Traceable(fn, m) {
      if m == Assign([use], [Other([])]) || m.FuncLit? { AssigningFormed(fn, use, m); } else { LeafFormed(fn, m); }
    }
  }

  lemma AssigningFormed(fn: Function, use: Node, m: Node)
    requires use.Ident? && (m == Assign([use], [Other([])]) || (m.FuncLit? && m.body.Block?))
    ensures WellFormed(m) && Traceable(fn, m)
  {
    if m.Assign? { assert Target(Other([])) == NoObject; }
  }

  lemma OverwritesFromAtoms(fn: Function, err: Object, use: Node, new_: Node, atoms: set<Node>)
    requires Overwrites(fn, err, use, new_)
    requires var call := Overwriting(use);
      atoms == {use, new_, Assign([use], [Other([])]), call.args[0], call, Defer(call), Return([new_])}
    ensures BuiltFrom(fn.body, atoms)
  {
    hide WellFormed, Falls;
    var call := Overwriting(use);
    OverwritingBuilt(use, atoms);
    assert BuiltFrom(call.args[0], atoms) && BuiltFrom(call, atoms) && BuiltFrom(Defer(call), atoms);
    assert BuiltFrom(new_, atoms) && BuiltFrom(Return([new_]), atoms);
    DeferralFormed(fn.body, call, Return([new_]));
  }

  lemma OverwritesAccepted(fn: Function, err: Object, use: Node, new_: Node)
    requires Overwrites(fn, err, use, new_)
    ensures Accepted(fn) && KeepsAllBut(fn, KeptByLiterals) && Plain(fn)
  {
    hide Fine, KeepsAt, Accepted, KeepsAllBut, Plain, Recovers, BuiltFrom, WellFormed, Traceable, MayRecover;
    var call := Overwriting(use);
    var lit, set_, ret := call.args[0], Assign([use], [Other([])]), Return([new_]);
    var atoms := {use, new_, set_, lit, call, Defer(call), ret};
    OverwritesBuilt(fn, err, use, new_, atoms);
    FineLeaf(fn, KeptByLiterals, use);
    FineLeaf(fn, KeptByLiterals, new_);
    FineLeaf(fn, KeptByLiterals, lit);
    FineLeaf(fn, KeptByLiterals, call);
    FineLeaf(fn, KeptByLiterals, Defer(call));
    FineAssignment(fn, KeptByLiterals, use, Other([]));
    FineConstruction(fn, KeptByLiterals, new_);
    AcceptedByAtoms(fn, KeptByLiterals, atoms);
    PlainByAtoms(fn, atoms) by { assert ret in fn.body.stmts; }
  }

  lemma OverwritesLeaks(fn: Function, err: Object, use: Node, new_: Node) returns (run: seq<Step>)
    requires Overwrites(fn, err, use, new_)
    ensures Needs(fn, KeptByLiterals, run)
  {
    hide KeepsAllBut, Leaks, Legal, Plain, Keeps;
    OverwritesAccepted(fn, err, use, new_);
    assert !Keeps(fn, KeptByLiterals) by { OverwritesBroken(fn, err, use, new_); }
    run := BrokenLeaks(fn, KeptByLiterals);
  }

  lemma OverwritesBroken(fn: Function, err: Object, use: Node, new_: Node)
    requires Overwrites(fn, err, use, new_)
    ensures !Keeps(fn, KeptByLiterals)
  {
    hide Nodes, Outer, StoresSound, Constructs;
    var call := Overwriting(use);
    var lit, set_ := call.args[0], Assign([use], [Other([])]);
    BodyInBody(fn);
    ChildInBody(fn, fn.body, Defer(call));
    ChildInBody(fn, Defer(call), call);
    ChildInBody(fn, call, lit);
    AssignsRaw(fn, use);
    ChildOf(lit.body, set_);
    SelfInNodes(set_);
    assert !KeepsAt(fn, KeptByLiterals, lit);
  }

  lemma SelfInNodes(n: Node)
    ensures n in Nodes(n)
  {
  }

  /** Assigning a foreign error to the result does not spare it. */
  lemma AssignsRaw(fn: Function, use: Node)
    requires use.Ident? && use.obj.Var? && fn.results == [Result(use.name, use.obj, true)]
    ensures !SparesResults(fn, Assign([use], [Other([])]))
  {
    assert fn.results[0] in fn.results;
    PairedValuesAt([use], [Other([])], use.obj, 0);
    assert Other([]) in ValuesAt(Assign([use], [Other([])]), use.obj) && !Sound(fn, Other([]));
  }

  // func f() (err error) { defer tidy(); err = raw; return errors.New() }, with a panic in between
  predicate Panics(fn: Function, err: Object, use: Node, call: Node, new_: Node) {
    && Uses(use, err) && Constructs(new_) && call.Call? && !IsGarlicCall(call) && call.args == []
    && fn == Function([], [Result(use.name, err, true)],
                      Block([Defer(call), Assign([use], [Other([])]), Return([new_])]), false)
  }

  lemma PanicsFromAtoms(fn: Function, err: Object, use: Node, call: Node, new_: Node, atoms: set<Node>)
    requires Panics(fn, err, use, call, new_)
    requires atoms == {use, new_, call, Defer(call), Assign([use], [Other([])]), Return([new_])}
    ensures BuiltFrom(fn.body, atoms)
  {
    hide WellFormed, Falls;
    var set_ := Assign([use], [Other([])]);
    LeafFormed(fn, Other([]));
    assert BuiltFrom(use, atoms) && BuiltFrom(new_, atoms) && BuiltFrom(call, atoms) && BuiltFrom(Other([]), atoms);
    assert BuiltFrom(Defer(call), atoms) && BuiltFrom(set_, atoms) && BuiltFrom(Return([new_]), atoms);
    DeferralFormed(fn.body, call, Return([new_]));
  }

  lemma PanicsBuilt(fn: Function, err: Object, use: Node, call: Node, new_: Node, atoms: set<Node>)
    requires Panics(fn, err, use, call, new_)
    requires atoms == {use, new_, call, Defer(call), Assign([use], [Other([])]), Return([new_])}
    ensures BuiltFrom(fn.body, atoms) && MayRecover(Defer(call))
    ensures forall m | m in atoms :: WellFormed(m) && Traceable(fn, m)
  {
    hide WellFormed, Falls, Traceable, BuiltFrom;
    var set_ := Assign([use], [Other([])]);
    PanicsFromAtoms(fn, err, use, call, new_, atoms);
    forall m | m in atoms ensures WellFormed(m) && Traceable(fn, m) {
      if m == set_ { AssigningFormed(fn, use, m); } else { LeafFormed(fn, m); }
    }
  }

  lemma PanicsAccepted(fn: Function, err: Object, use: Node, call: Node, new_: Node)
    requires Panics(fn, err, use, call, new_)
    ensures Accepted(fn) && KeepsAllBut(fn, KeptByRecovery) && Plain(fn)
  {
    hide Fine, KeepsAt, Accepted, KeepsAllBut, Plain, Recovers, BuiltFrom, WellFormed, Traceable, MayRecover;
    var set_, ret := Assign([use], [Other([])]), Return([new_]);
    var atoms := {use, new_, call, Defer(call), set_, ret};
    PanicsBuilt(fn, err, use, call, new_, atoms);
    FineLeaf(fn, KeptByRecovery, use);
    FineLeaf(fn, KeptByRecovery, new_);
    FineLeaf(fn, KeptByRecovery, call);
    FineLeaf(fn, KeptByRecovery, Defer(call));
    FineAssignment(fn, KeptByRecovery, use, Other([]));
    FineConstruction(fn, KeptByRecovery, new_);
    AcceptedByAtoms(fn, KeptByRecovery, atoms);
    PlainByAtoms(fn, atoms) by { assert ret in fn.body.stmts; }
  }

  lemma PanicsLeaks(fn: Function, err: Object, use: Node, call: Node, new_: Node) returns (run: seq<Step>)
    requires Panics(fn, err, use, call, new_)
    ensures Needs(fn, KeptByRecovery, run)
  {
    hide KeepsAllBut, Leaks, Legal, Plain, Keeps;
    PanicsAccepted(fn, err, use, call, new_);
    assert !Keeps(fn, KeptByRecovery) by { PanicsBroken(fn, err, use, call, new_); }
    run := BrokenLeaks(fn, KeptByRecovery);
  }

  lemma PanicsBroken(fn: Function, err: Object, use: Node, call: Node, new_: Node)
    requires Panics(fn, err, use, call, new_)
    ensures !Keeps(fn, KeptByRecovery)
  {
    hide Outer, MayRecover, Nodes, StoresSound, Constructs, WellFormed, Traceable, BuiltFrom;
    var set_ := Assign([use], [Other([])]);
    PanicsBuilt(fn, err, use, call, new_, {use, new_, call, Defer(call), set_, Return([new_])});
    BodyInBody(fn);
    ChildInBody(fn, fn.body, Defer(call));
    ChildInBody(fn, fn.body, set_);
    AssignsRaw(fn, use);
    assert Recovers(fn) && !KeepsAt(fn, KeptByRecovery, set_);
  }

  // --- together ------------------------------------------------------------------------------------

  /** So no clause of the discipline can be dropped. */
  lemma NoClauseCanBeDropped(c: Clause, new_: Node) returns (fn: Function, run: seq<Step>)
    requires Constructs(new_)
    ensures Needs(fn, c, run)
  {
    hide Needs;
    var err, other, value := Var(0, true, true), Var(1, true, true), Var(2, true, false);
    var use := Ident("e", err, false);
    var raw := Other([]);
    match c
    case PlainAssignments =>
      var def := Ident("e", err, true);
      fn := Function([], UNNAMED,
                     Block([Assign([def], [new_]), Assign([Paren(use)], [raw]), Return([use])]), false);
      run := HiddenLeaks(fn, err, def, use, new_);
    case PlainRanges =>
      fn := Function([], [Result("e", err, true)], Block([Range([Paren(use)], raw, Block([])), Return([])]), false);
      run := RangedLeaks(fn, err, use);
    case PlainAddresses =>
      var p := Ident("p", Var(3, false, true), true);
      fn := Function([], [Result("e", err, true)],
                     Block([Assign([p], [AddressOf(Paren(use))]), Return([])]), false);
      run := AddressedLeaks(fn, err, use, p);
    case OwnIdents =>
      fn := Function([err], UNNAMED, Block([If(raw, Assign([use], [new_]), Block([])), Return([use])]), false);
      run := ParameterLeaks(fn, err, use, new_);
    case NoNilIdents =>
      var def, nil := Ident("nil", other, true), Ident("nil", other, false);
      fn := Function([err], UNNAMED, Block([Assign([def], [use]), Return([nil])]), false);
      run := ShadowLeaks(fn, other, def, nil, use);
    case NoNilResults =>
      var nil := Ident("nil", err, false);
      fn := Function([], [Result("nil", err, true)], Block([Assign([nil], [raw]), Return([])]), false);
      run := NilResultLeaks(fn, err, nil);
    case ErrorTuples =>
      var call := Call(Unresolved, [false, false], false, []);
      fn := Function([], [Result("", NoObject, false), Result("", NoObject, true)], Block([Return([call])]), false);
      run := ConvertedLeaks(fn, call);
    case KeptAddresses =>
      var call := Call(Unresolved, [], false, [AddressOf(use)]);
      fn := Function([], [Result("e", err, true)], Block([Defer(call), Return([new_])]), false);
      run := CapturesLeaks(fn, err, use, call, new_);
    case KeptByLiterals =>
      fn := Function([], [Result("e", err, true)], Block([Defer(Overwriting(use)), Return([new_])]), false);
      run := OverwritesLeaks(fn, err, use, new_);
    case KeptByRecovery =>
      var call := Call(Unresolved, [], false, []);
      fn := Function([], [Result("e", err, true)],
                     Block([Defer(call), Assign([use], [Other([])]), Return([new_])]), false);
      run := PanicsLeaks(fn, err, use, call, new_);
    case PointerLikeResults =>
      var errs := Ident("e", value, false);
      fn := Function([], [Result("e", value, true)], Block([ExprStmt(Other([errs])), Return([])]), false);
      run := InPlaceLeaks(fn, value, errs, Other([errs]));
  }
}
