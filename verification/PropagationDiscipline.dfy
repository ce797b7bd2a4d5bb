/**
 What the propagation check takes for granted: what the Go type checker guarantees
 it, and a discipline, clause by clause, that nothing guarantees.
 */
module PropagationDiscipline {
  import opened GoAst
  import opened PropagationLint
  import opened PropagationSemantics

  // --- what the Go type checker guarantees -----------------------------------------

  /** A multi-valued call may convert its values, so only their number is known. */
  predicate WellTypedReturn(fn: Function, values: seq<Node>) {
    || values == []
    || |values| == |fn.results|
    || (|values| == 1 && |TupleOf(values[0])| == |fn.results|)
  }

  /** Constructors return error or *ErrorT, which only pointer-like variables can hold. */
  predicate WellTypedBinding(targets: seq<Node>, values: seq<Node>) {
    |targets| == |values| ==>
      forall i | 0 <= i < |targets| ::
        IsGarlicCall(values[i]) && IdentObject(targets[i]).Var? ==> IdentObject(targets[i]).pointerLike
  }

  predicate WellTypedStatement(n: Node) {
    match n
    case Assign(lhs, rhs) => WellTypedBinding(lhs, rhs)
    // the names of a var declaration are identifiers, declared there
    case ValueSpec(names, values) => WellTypedBinding(names, values) && forall e | e in names :: Defines(e)
    case _ => true
  }

  /** A variable the body neither declares nor binds: a result, or one from outside of the function. */
  predicate Unbound(fn: Function, obj: Object) {
    && (forall n | n in Nodes(fn.body) && Defines(n) :: n.obj != obj)
    && (forall n | n in Nodes(fn.body) && n.FuncLit? :: obj !in n.params && forall r | r in n.results :: r.obj != obj)
  }

  predicate WellTyped(fn: Function) {
    // an object is declared once: parameters and literals' results are not the body's variables
    && (forall o | o in fn.params :: !IsLocal(fn, o))
    && (forall n | n in Nodes(fn.body) && n.FuncLit? ::
          (forall o | o in n.params :: !IsLocal(fn, o)) && (forall r | r in n.results :: !IsLocal(fn, r.obj)))
    && (forall r | r in fn.results ::
          (r.obj.Var? ==> r.obj.isError == r.isError && Unbound(fn, r.obj)) && r.obj != NilObject)
    // every Garlic constructor has exactly one result
    && (forall n | n in Nodes(fn.body) && IsGarlicCall(n) :: |n.errorResults| == 1)
    && (forall n | n in Nodes(fn.body) :: WellTypedStatement(n))
    && (forall n | n in Outer(fn.body) && n.Return? :: WellTypedReturn(fn, n.values))
  }

  // --- variables that only ever hold constructor-built errors -------------------------

  /** Everything the body assigns to obj, it assigns from a Garlic constructor. */
  predicate Tracked(fn: Function, obj: Object) {
    !UntrackedUnder(fn.body, obj) && forall v | v in ValuesUnder(fn.body, obj) :: IsGarlicCall(v)
  }

  /** Somewhere in the body the address of obj may be taken, parentheses or not. */
  predicate Exposed(fn: Function, obj: Object) {
    exists n | n in Nodes(fn.body) :: Exposes(n) == obj
  }

  /** A variable of the function's own, unless it is a result of another type, where returns may store anything. */
  predicate Owns(fn: Function, obj: Object) {
    IsLocal(fn, obj) && forall r | r in fn.results :: r.obj == obj ==> r.isError
  }

  predicate Guarded(fn: Function, obj: Object) {
    Owns(fn, obj) && !Exposed(fn, obj) && Tracked(fn, obj)
  }

  /** A value that is never foreign: a constructor's, nil, or that of a guarded variable. */
  predicate Sound(fn: Function, e: Node) {
    match e
    case Paren(x) => Sound(fn, x)
    case Ident(_, obj, _) => obj == NilObject || Guarded(fn, obj)
    case _ => IsGarlicCall(e)
  }

  /** What this statement stores in obj, if it does, is never foreign. */
  predicate StoresSound(fn: Function, n: Node, obj: Object) {
    n.AddressOf? || (!UntrackedAt(n, obj) && forall v | v in ValuesAt(n, obj) :: Sound(fn, v))
  }

  predicate IsErrorResult(fn: Function, obj: Object) {
    obj.Var? && exists r | r in fn.results :: r.isError && r.obj == obj
  }

  predicate SparesResults(fn: Function, n: Node) {
    forall r | r in fn.results && r.isError && r.obj.Var? :: StoresSound(fn, n, r.obj)
  }

  /** The function itself defers a call that may recover its panics. */
  predicate Recovers(fn: Function) {
    exists n | n in Outer(fn.body) :: MayRecover(n)
  }

  // --- the discipline ----------------------------------------------------------------

  datatype Clause =
    // on targets
    | PlainAssignments   // no variable is assigned through parentheses
    | PlainRanges        // none is ranged over through parentheses
    | PlainAddresses     // none is addressed through parentheses
    // on what a return statement evaluates
    | OwnIdents          // a returned identifier is nil or the function's own variable
    | NoNilIdents        // and no variable called nil
    | NoNilResults       // a naked return has no error result called nil
    | ErrorTuples        // a returned call has errors where the function has: none is converted to one
    // on what happens to the named error results afterwards
    | PointerLikeResults // none is mentioned whose type is neither an interface nor a pointer
    | KeptAddresses      // the address of none is taken
    | KeptByLiterals     // function literals store nothing foreign in them
    | KeptByRecovery     // nor does the function itself, if its panics may be recovered

  predicate PlainTarget(e: Node) {
    e.Paren? ==> Target(e) == NoObject
  }

  /** These clauses look at the function outside of its literals only. */
  predicate OutsideLiterals(c: Clause) {
    c.OwnIdents? || c.NoNilIdents? || c.NoNilResults? || c.ErrorTuples? || c.KeptByRecovery?
  }

  /** These concern what becomes of a result after the return statement, or without one. */
  predicate OnResults(c: Clause) {
    c.PointerLikeResults? || c.KeptAddresses? || c.KeptByLiterals? || c.KeptByRecovery?
  }

  predicate KeepsAt(fn: Function, c: Clause, n: Node) {
    match c
    case PlainAssignments => n.Assign? ==> forall e | e in n.lhs :: PlainTarget(e)
    case PlainRanges => n.Range? ==> forall e | e in n.binds :: PlainTarget(e)
    case PlainAddresses => n.AddressOf? ==> PlainTarget(n.operand)
    case OwnIdents =>
      n.Return? && n.values != [] && |n.values| == |fn.results| ==>
        forall i | 0 <= i < |n.values| :: fn.results[i].isError && n.values[i].Ident? ==>
          n.values[i].obj == NilObject || Owns(fn, n.values[i].obj)
    case NoNilIdents =>
      n.Return? && n.values != [] && |n.values| == |fn.results| ==>
        forall i | 0 <= i < |n.values| :: fn.results[i].isError && n.values[i].Ident? ==>
          n.values[i].obj == NilObject || n.values[i].name != "nil"
    case NoNilResults =>
      n == Return([]) ==> forall r | r in fn.results :: r.isError && r.obj.Var? ==> r.name != "nil"
    case ErrorTuples =>
      n.Return? && |n.values| == 1 < |fn.results| == |TupleOf(n.values[0])| ==>
        forall i | 0 <= i < |fn.results| :: fn.results[i].isError ==> TupleOf(n.values[0])[i]
    case PointerLikeResults => n.Ident? && IsErrorResult(fn, n.obj) ==> n.obj.pointerLike
    case KeptAddresses => n.AddressOf? ==> !IsErrorResult(fn, IdentObject(n.operand))
    case KeptByLiterals => n.FuncLit? ==> forall m | m in Nodes(n.body) :: SparesResults(fn, m)
    case KeptByRecovery => Recovers(fn) ==> SparesResults(fn, n)
  }

  predicate Keeps(fn: Function, c: Clause) {
    forall n | n in (if OutsideLiterals(c) then Outer(fn.body) else Nodes(fn.body)) :: KeepsAt(fn, c, n)
  }

  /** Silent, and disciplined in what its return statements evaluate. */
  predicate Examined(fn: Function) {
    && WellTyped(fn) && Reports(fn) == [] && !fn.exempt && ReturnsError(fn.results)
    && forall c | !OnResults(c) :: Keeps(fn, c)
  }

  /** Disciplined, too, in what becomes of its named error results. */
  predicate HoldsResults(fn: Function) {
    forall c | OnResults(c) :: Keeps(fn, c)
  }

  predicate Covered(fn: Function) {
    Examined(fn) && HoldsResults(fn)
  }

  // --- consequences ---------------------------------------------------------------------

  lemma KeepsEverywhere(fn: Function, c: Clause, n: Node)
    requires Keeps(fn, c) && n in Nodes(fn.body) && !OutsideLiterals(c)
    ensures KeepsAt(fn, c, n)
  {
  }

  lemma KeepsOutside(fn: Function, c: Clause, n: Node)
    requires Keeps(fn, c) && n in Outer(fn.body)
    ensures KeepsAt(fn, c, n)
  {
    OuterWithinNodes(fn.body, n);
  }

  /** What the collector does not find addressed, under a type that cannot be changed in place, is not exposed. */
  lemma TrackedIsHidden(fn: Function, obj: Object)
    requires Keeps(fn, PlainAddresses) && obj.Var? && !UntrackedUnder(fn.body, obj)
    requires obj.pointerLike || forall n | n in Nodes(fn.body) && n.Ident? :: n.obj != obj
    ensures !Exposed(fn, obj)
  {
    forall n | n in Nodes(fn.body) ensures Exposes(n) != obj {
      KeepsEverywhere(fn, PlainAddresses, n);
      CollectedAtRoot(fn.body, n, obj);
      assert n.AddressOf? && Target(n.operand) == obj ==> UntrackedAt(n, obj);
    }
  }

  /** Nor is a named error result of a function that holds its results. */
  lemma ResultIsHidden(fn: Function, obj: Object)
    requires Keeps(fn, PlainAddresses) && Keeps(fn, PointerLikeResults) && Keeps(fn, KeptAddresses)
    requires IsErrorResult(fn, obj)
    ensures !Exposed(fn, obj)
  {
    forall n | n in Nodes(fn.body) ensures Exposes(n) != obj {
      KeepsEverywhere(fn, PlainAddresses, n);
      KeepsEverywhere(fn, PointerLikeResults, n);
      KeepsEverywhere(fn, KeptAddresses, n);
    }
  }

  /** A variable that is assigned a constructor's result is of a type that can hold it. */
  lemma PropagatedIsPointerLike(fn: Function, obj: Object)
    requires WellTyped(fn) && IsPropagatedVar(fn.body, obj) && obj.Var?
    ensures obj.pointerLike
  {
    var v := ValuesUnder(fn.body, obj)[0];
    var m := CollectedFrom(fn.body, v, obj);
    assert WellTypedStatement(m);
    var i;
    if m.Assign? {
      i := PairedFrom(m.lhs, m.rhs, v, obj);
    } else {
      i := PairedFrom(m.names, m.values, v, obj);
    }
  }
}
