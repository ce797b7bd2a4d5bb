/**
 The propagation check (rules G0.01 and G0.02) as the analyzer runs it: which
 expressions answer for a return statement, which assignments reach a variable,
 and which returns are reported.
 */
module PropagationLint {
  import opened GoAst
  import Prelude

  const GARLIC_ERRORS_PATH := "github.com/luanguimaraesla/garlic/errors"

  datatype Rule = BareReturn | BareClassification
  datatype Report = Report(expr: Node, rule: Rule)

  predicate IsGarlicConstructor(callee: Callee) {
    match callee
    case Unresolved => false
    case Builtin(_) => false
    case Func(pkg, receiver, name) =>
      pkg == GARLIC_ERRORS_PATH &&
      (if receiver == "" then
         name in ["Propagate", "PropagateAs", "New", "Raw", "From", "Override", "Mirror", "MirrorOverride"]
       else if receiver == "ErrorT" then name == "With"
       else receiver == "TemplateT" && (name == "New" || name == "Propagate"))
  }

  predicate IsGarlicCall(e: Node) {
    e.Call? && IsGarlicConstructor(e.callee)
  }

  predicate IsNil(e: Node) {
    e.Ident? && e.name == "nil"
  }

  function IdentObject(e: Node): Object {
    if e.Ident? then e.obj else NoObject
  }

  // --- assignments that reach a variable -------------------------------------

  /** The expressions one node assigns to obj, position by position. */
  function PairedValues(targets: seq<Node>, values: seq<Node>, obj: Object): seq<Node>
    requires |targets| == |values|
  {
    if targets == [] then [] else
      PairedValues(targets[..|targets| - 1], values[..|values| - 1], obj) +
      if IdentObject(targets[|targets| - 1]) == obj then [values[|values| - 1]] else []
  }

  function ValuesAt(m: Node, obj: Object): seq<Node> {
    match m
    case Assign(lhs, rhs) => if |lhs| == |rhs| then PairedValues(lhs, rhs, obj) else []
    case ValueSpec(names, values) => if |names| == |values| then PairedValues(names, values, obj) else []
    case _ => []
  }

  /** One node assigns obj in a form whose value cannot be followed. */
  predicate UntrackedAt(m: Node, obj: Object) {
    match m
    case Assign(lhs, rhs) => |lhs| != |rhs| && exists t | t in lhs :: IdentObject(t) == obj
    case ValueSpec(names, values) =>
      0 < |values| && |names| != |values| && exists t | t in names :: IdentObject(t) == obj
    case AddressOf(x) => IdentObject(x) == obj
    case Range(binds, _, _) => exists t | t in binds :: IdentObject(t) == obj
    case _ => false
  }

  /** Everything assigned to obj at n or below it, in walk order. */
  function ValuesUnder(n: Node, obj: Object): seq<Node>
    decreases n, |Children(n)| + 1
  {
    ValuesAt(n, obj) + ValuesUnderChildren(n, |Children(n)|, obj)
  }

  function ValuesUnderChildren(n: Node, k: nat, obj: Object): seq<Node>
    requires k <= |Children(n)|
    decreases n, k
  {
    if k == 0 then [] else
      var c := Children(n)[k - 1];
      assert c in Children(n);
      ValuesUnderChildren(n, k - 1, obj) + ValuesUnder(c, obj)
  }

  predicate UntrackedUnder(n: Node, obj: Object)
    decreases n, |Children(n)| + 1
  {
    UntrackedAt(n, obj) || UntrackedUnderChildren(n, |Children(n)|, obj)
  }

  predicate UntrackedUnderChildren(n: Node, k: nat, obj: Object)
    requires k <= |Children(n)|
    decreases n, k
  {
    0 < k &&
    var c := Children(n)[k - 1];
    assert c in Children(n);
    UntrackedUnderChildren(n, k - 1, obj) || UntrackedUnder(c, obj)
  }

  predicate NeverAssigned(root: Node, obj: Object) {
    ValuesUnder(root, obj) == [] && !UntrackedUnder(root, obj)
  }

  predicate IsPropagatedVar(root: Node, obj: Object) {
    var values := ValuesUnder(root, obj);
    !UntrackedUnder(root, obj) && values != [] && forall v | v in values :: IsGarlicCall(v)
  }

  // --- the expressions a return statement answers for ------------------------

  /** The element types of a multi-valued call, as "is an error type" flags. */
  function TupleOf(e: Node): seq<bool> {
    match e
    case Call(_, errorResults, _, _) => errorResults
    case Paren(x) => TupleOf(x)
    case _ => []
  }

  predicate ReturnsError(results: seq<Result>) {
    exists r | r in results :: r.isError
  }

  function ResultIdent(r: Result): Node {
    Ident(r.name, r.obj, true)
  }

  function NamedErrorResults(body: Node, results: seq<Result>): seq<Node> {
    if results == [] then [] else
      var r := results[|results| - 1];
      NamedErrorResults(body, results[..|results| - 1]) +
      if !r.isError || r.obj == NoObject || NeverAssigned(body, r.obj) then [] else [ResultIdent(r)]
  }

  function ExplicitErrorReturns(values: seq<Node>, results: seq<Result>): seq<Node>
    requires |values| == |results|
  {
    if values == [] then [] else
      var k := |values| - 1;
      ExplicitErrorReturns(values[..k], results[..k]) + if results[k].isError then [values[k]] else []
  }

  function TupleErrorReturn(e: Node, results: seq<Result>): seq<Node> {
    if |TupleOf(e)| == |results| &&
       exists i | 0 <= i < |results| :: results[i].isError && TupleOf(e)[i]
    then [e] else []
  }

  function ErrorReturnExpressions(values: seq<Node>, fn: Function): seq<Node> {
    if fn.results == [] then []
    else if values == [] then NamedErrorResults(fn.body, fn.results)
    else if |values| == |fn.results| then ExplicitErrorReturns(values, fn.results)
    else if |values| == 1 then TupleErrorReturn(values[0], fn.results)
    else []
  }

  // --- reports ---------------------------------------------------------------

  predicate Justified(body: Node, e: Node) {
    || IsNil(e)
    || IsGarlicCall(e)
    || (e.Ident? && e.obj != NoObject && IsPropagatedVar(body, e.obj))
  }

  predicate IsClassificationCall(e: Node) {
    && e.Call? && !IsGarlicConstructor(e.callee) && e.callee != Func("fmt", "", "Errorf")
    && e.errorResults != [] && e.errorResults[|e.errorResults| - 1] && e.errorArg
  }

  function ReportOn(e: Node): Report {
    Report(e, if IsClassificationCall(e) then BareClassification else BareReturn)
  }

  function ReportsFor(body: Node, exprs: seq<Node>): seq<Report> {
    if exprs == [] then [] else
      var k := |exprs| - 1;
      ReportsFor(body, exprs[..k]) + if Justified(body, exprs[k]) then [] else [ReportOn(exprs[k])]
  }

  function ReportsAt(fn: Function, n: Node): seq<Report> {
    if n.Return? then ReportsFor(fn.body, ErrorReturnExpressions(n.values, fn)) else []
  }

  /** The reports on the returns at n or below it, function literals left out. */
  function ReportsUnder(fn: Function, n: Node): seq<Report>
    decreases n, |Children(n)| + 1
  {
    ReportsAt(fn, n) + if n.FuncLit? then [] else ReportsUnderChildren(fn, n, |Children(n)|)
  }

  function ReportsUnderChildren(fn: Function, n: Node, k: nat): seq<Report>
    requires k <= |Children(n)|
    decreases n, k
  {
    if k == 0 then [] else
      var c := Children(n)[k - 1];
      assert c in Children(n);
      ReportsUnderChildren(fn, n, k - 1) + ReportsUnder(fn, c)
  }

  function Reports(fn: Function): seq<Report> {
    if !ReturnsError(fn.results) || fn.exempt then [] else ReportsUnder(fn, fn.body)
  }

  // --- facts about the specification -----------------------------------------

  /** A node anywhere in the tree has its assignments collected at the root. */
  lemma {:induction false} CollectedAtRoot(root: Node, m: Node, obj: Object)
    requires m in Nodes(root)
    ensures forall v :: v in ValuesAt(m, obj) ==> v in ValuesUnder(root, obj)
    ensures UntrackedAt(m, obj) ==> UntrackedUnder(root, obj)
    decreases root
  {
    if m != root {
      var c := FindChild(root, m, |Children(root)|);
      CollectedAtRoot(c, m, obj);
      var i :| 0 <= i < |Children(root)| && Children(root)[i] == c;
      CollectedFromChild(root, i, |Children(root)|, obj);
    }
  }

  lemma {:induction false} CollectedFromChild(n: Node, i: nat, k: nat, obj: Object)
    requires i < k <= |Children(n)|
    ensures forall v :: v in ValuesUnder(Children(n)[i], obj) ==> v in ValuesUnderChildren(n, k, obj)
    ensures UntrackedUnder(Children(n)[i], obj) ==> UntrackedUnderChildren(n, k, obj)
  {
    hide ValuesUnder, UntrackedUnder, Children;
    if i < k - 1 {
      CollectedFromChild(n, i, k - 1, obj);
    }
  }

  lemma {:induction false} CollectedFrom(n: Node, v: Node, obj: Object) returns (m: Node)
    requires v in ValuesUnder(n, obj)
    ensures m in Nodes(n) && v in ValuesAt(m, obj)
    decreases n, |Children(n)| + 1
  {
    m := n;
    if v !in ValuesAt(n, obj) {
      m := CollectedFromSome(n, |Children(n)|, v, obj);
    }
  }

  lemma {:induction false} CollectedFromSome(n: Node, k: nat, v: Node, obj: Object) returns (m: Node)
    requires k <= |Children(n)| && v in ValuesUnderChildren(n, k, obj)
    ensures m in NodesOfChildren(n, k) && v in ValuesAt(m, obj)
    decreases n, k
  {
    hide Children, ValuesUnder, ValuesAt, Nodes;
    assert Children(n)[k - 1] in Children(n);
    if v in ValuesUnder(Children(n)[k - 1], obj) {
      m := CollectedFrom(Children(n)[k - 1], v, obj);
    } else {
      m := CollectedFromSome(n, k - 1, v, obj);
    }
  }

  lemma {:induction false} UntrackedFrom(n: Node, obj: Object) returns (m: Node)
    requires UntrackedUnder(n, obj)
    ensures m in Nodes(n) && UntrackedAt(m, obj)
    decreases n, |Children(n)| + 1
  {
    m := n;
    if !UntrackedAt(n, obj) {
      m := UntrackedFromSome(n, |Children(n)|, obj);
    }
  }

  lemma {:induction false} UntrackedFromSome(n: Node, k: nat, obj: Object) returns (m: Node)
    requires k <= |Children(n)| && UntrackedUnderChildren(n, k, obj)
    ensures m in NodesOfChildren(n, k) && UntrackedAt(m, obj)
    decreases n, k
  {
    hide Children, UntrackedUnder, UntrackedAt, Nodes;
    assert Children(n)[k - 1] in Children(n);
    if UntrackedUnder(Children(n)[k - 1], obj) {
      m := UntrackedFrom(Children(n)[k - 1], obj);
    } else {
      m := UntrackedFromSome(n, k - 1, obj);
    }
  }

  /** assignedValues finds exactly what the nodes of the tree do to obj, literals included. */
  lemma AssignedValuesExactly(root: Node, obj: Object)
    ensures forall v :: v in ValuesUnder(root, obj) <==> exists m | m in Nodes(root) :: v in ValuesAt(m, obj)
    ensures UntrackedUnder(root, obj) <==> exists m | m in Nodes(root) :: UntrackedAt(m, obj)
  {
    forall v | v in ValuesUnder(root, obj) ensures exists m | m in Nodes(root) :: v in ValuesAt(m, obj) {
      var m := CollectedFrom(root, v, obj);
    }
    forall m | m in Nodes(root)
      ensures forall v :: v in ValuesAt(m, obj) ==> v in ValuesUnder(root, obj)
      ensures UntrackedAt(m, obj) ==> UntrackedUnder(root, obj)
    {
      CollectedAtRoot(root, m, obj);
    }
    if UntrackedUnder(root, obj) {
      var m := UntrackedFrom(root, obj);
    }
  }

  lemma {:induction false} CleanReturns(fn: Function, n: Node)
    requires forall ret | ret in Outer(n) :: ReportsAt(fn, ret) == []
    ensures ReportsUnder(fn, n) == []
    decreases n, |Children(n)| + 1
  {
    if !n.FuncLit? {
      CleanReturnsInChildren(fn, n, |Children(n)|);
    }
  }

  lemma {:induction false} CleanReturnsInChildren(fn: Function, n: Node, k: nat)
    requires k <= |Children(n)| && !n.FuncLit?
    requires forall ret | ret in Outer(n) :: ReportsAt(fn, ret) == []
    ensures ReportsUnderChildren(fn, n, k) == []
    decreases n, k
  {
    hide Children, Outer, ReportsAt, ReportsUnder;
    if k != 0 {
      assert Children(n)[k - 1] in Children(n);
      ChildOf(n, Children(n)[k - 1]);
      CleanReturns(fn, Children(n)[k - 1]);
      CleanReturnsInChildren(fn, n, k - 1);
    }
  }

  /** A clean report list is clean at every return outside function literals. */
  lemma {:induction false} NoReportsAt(fn: Function, n: Node, ret: Node)
    requires ReportsUnder(fn, n) == [] && ret in Outer(n)
    ensures ReportsAt(fn, ret) == []
    decreases n
  {
    if ret != n {
      var c := FindOuterChild(n, ret, |Children(n)|);
      var i :| 0 <= i < |Children(n)| && Children(n)[i] == c;
      NoReportsInChild(fn, n, i, |Children(n)|);
      NoReportsAt(fn, c, ret);
    }
  }

  lemma {:induction false} NoReportsInChild(fn: Function, n: Node, i: nat, k: nat)
    requires i < k <= |Children(n)| && ReportsUnderChildren(fn, n, k) == []
    ensures ReportsUnder(fn, Children(n)[i]) == []
  {
    hide Children, ReportsUnder;
    if i < k - 1 {
      NoReportsInChild(fn, n, i, k - 1);
    }
  }

  lemma {:induction false} PairedValuesAt(targets: seq<Node>, values: seq<Node>, obj: Object, i: nat)
    requires |targets| == |values| && i < |targets| && IdentObject(targets[i]) == obj
    ensures values[i] in PairedValues(targets, values, obj)
  {
    if i < |targets| - 1 {
      PairedValuesAt(targets[..|targets| - 1], values[..|values| - 1], obj, i);
    }
  }

  lemma {:induction false} PairedFrom(targets: seq<Node>, values: seq<Node>, v: Node, obj: Object) returns (i: nat)
    requires |targets| == |values| && v in PairedValues(targets, values, obj)
    ensures i < |targets| && IdentObject(targets[i]) == obj && values[i] == v
  {
    i := |targets| - 1;
    if IdentObject(targets[i]) != obj || v != values[i] {
      i := PairedFrom(targets[..i], values[..i], v, obj);
    }
  }

  lemma {:induction false} NoReportsFor(body: Node, exprs: seq<Node>, e: Node)
    requires ReportsFor(body, exprs) == [] && e in exprs
    ensures Justified(body, e)
  {
    var k := |exprs| - 1;
    if e != exprs[k] {
      NoReportsFor(body, exprs[..k], e);
    }
  }

  lemma {:induction false} ExplicitErrorReturnsAt(values: seq<Node>, results: seq<Result>, i: nat)
    requires |values| == |results| && i < |values| && results[i].isError
    ensures values[i] in ExplicitErrorReturns(values, results)
  {
    if i < |values| - 1 {
      ExplicitErrorReturnsAt(values[..|values| - 1], results[..|values| - 1], i);
    }
  }

  lemma {:induction false} NamedErrorResultsAt(body: Node, results: seq<Result>, i: nat)
    requires i < |results| && results[i].isError && results[i].obj != NoObject
    requires !NeverAssigned(body, results[i].obj)
    ensures ResultIdent(results[i]) in NamedErrorResults(body, results)
  {
    if i < |results| - 1 {
      NamedErrorResultsAt(body, results[..|results| - 1], i);
    }
  }

  // --- the walkers -------------------------------------------------------------

  /** The closure state of assignedValues: the two variables its callback updates. */
  class AssignmentCollector {
    const obj: Object
    var values: seq<Node>
    var untracked: bool

    constructor (obj: Object)
      ensures this.obj == obj && values == [] && !untracked
    {
      this.obj := obj;
      values, untracked := [], false;
    }

    method Visit(n: Node)
      modifies this
      ensures values == old(values) + ValuesAt(n, obj)
      ensures untracked == (old(untracked) || UntrackedAt(n, obj))
    {
      match n
      case Assign(lhs, rhs) =>
        if |lhs| == |rhs| {
          CollectPairs(lhs, rhs);
        } else {
          MarkIfNamed(lhs);
        }
      case ValueSpec(names, vs) =>
        if |names| == |vs| {
          CollectPairs(names, vs);
        } else if 0 < |vs| {
          MarkIfNamed(names);
        }
      case AddressOf(x) =>
        if IdentObject(x) == obj { untracked := true; }
      case Range(binds, _, _) =>
        MarkIfNamed(binds);
      case _ =>
    }

    method CollectPairs(targets: seq<Node>, vs: seq<Node>)
      requires |targets| == |vs|
      modifies `values
      ensures values == old(values) + PairedValues(targets, vs, obj)
    {
      for i := 0 to |targets|
        invariant values == old(values) + PairedValues(targets[..i], vs[..i], obj)
      {
        assert targets[..i + 1][..i] == targets[..i] && vs[..i + 1][..i] == vs[..i];
        if IdentObject(targets[i]) == obj { values := values + [vs[i]]; }
      }
      assert targets[..|targets|] == targets && vs[..|vs|] == vs;
    }

    method MarkIfNamed(targets: seq<Node>)
      modifies `untracked
      ensures untracked == (old(untracked) || exists t | t in targets :: IdentObject(t) == obj)
    {
      for i := 0 to |targets|
        invariant untracked == (old(untracked) || exists t | t in targets[..i] :: IdentObject(t) == obj)
      {
        assert targets[..i + 1] == targets[..i] + [targets[i]];
        if IdentObject(targets[i]) == obj { untracked := true; }
      }
      assert targets[..|targets|] == targets;
    }

    /** ast.Inspect: the callback on the node, then on everything below it. */
    method Inspect(n: Node)
      modifies this
      ensures values == old(values) + ValuesUnder(n, obj)
      ensures untracked == (old(untracked) || UntrackedUnder(n, obj))
      decreases n
    {
      hide Children, ValuesAt, UntrackedAt;
      Visit(n);
      ghost var before := old(values) + ValuesAt(n, obj);
      Prelude.ConcatAssociative(old(values), ValuesAt(n, obj), ValuesUnderChildren(n, |Children(n)|, obj));
      var kids := Children(n);
      for i := 0 to |kids|
        invariant values == before + ValuesUnderChildren(n, i, obj)
        invariant untracked == (old(untracked) || UntrackedAt(n, obj) || UntrackedUnderChildren(n, i, obj))
      {
        assert kids[i] in kids;
        Prelude.ConcatAssociative(before, ValuesUnderChildren(n, i, obj), ValuesUnder(kids[i], obj));
        Inspect(kids[i]);
      }
    }
  }

  method AssignedValues(root: Node, obj: Object) returns (values: seq<Node>, untracked: bool)
    ensures values == ValuesUnder(root, obj)
    ensures untracked == UntrackedUnder(root, obj)
  {
    var c := new AssignmentCollector(obj);
    c.Inspect(root);
    values, untracked := c.values, c.untracked;
  }

  method CheckIsPropagatedVar(root: Node, obj: Object) returns (ok: bool)
    ensures ok == IsPropagatedVar(root, obj)
  {
    var values, untracked := AssignedValues(root, obj);
    if untracked || values == [] { return false; }
    for i := 0 to |values|
      invariant forall j :: 0 <= j < i ==> IsGarlicCall(values[j])
    {
      if !IsGarlicCall(values[i]) { return false; }
    }
    return true;
  }

  method CollectNamedErrorResults(fn: Function) returns (exprs: seq<Node>)
    ensures exprs == NamedErrorResults(fn.body, fn.results)
  {
    exprs := [];
    for i := 0 to |fn.results|
      invariant exprs == NamedErrorResults(fn.body, fn.results[..i])
    {
      var r := fn.results[i];
      assert fn.results[..i + 1][..i] == fn.results[..i];
      if r.isError && r.obj != NoObject {
        var values, untracked := AssignedValues(fn.body, r.obj);
        if values != [] || untracked {
          exprs := exprs + [ResultIdent(r)];
        }
      }
    }
    assert fn.results[..|fn.results|] == fn.results;
  }

  /** One call of checkPropagationFunction; reports is what it emitted. */
  class PropagationCheck {
    const fn: Function
    var reports: seq<Report>

    constructor (fn: Function)
      ensures this.fn == fn && reports == []
    {
      this.fn := fn;
      reports := [];
    }

    method VisitReturn(ret: Node)
      requires ret.Return?
      modifies this
      ensures reports == old(reports) + ReportsFor(fn.body, ErrorReturnExpressions(ret.values, fn))
    {
      var exprs := ErrorReturnExpressions(ret.values, fn);
      if fn.results != [] && ret.values == [] {
        exprs := CollectNamedErrorResults(fn);
      }
      for i := 0 to |exprs|
        invariant reports == old(reports) + ReportsFor(fn.body, exprs[..i])
      {
        assert exprs[..i + 1][..i] == exprs[..i];
        var e := exprs[i];
        if IsNil(e) || IsGarlicCall(e) { continue; }
        if e.Ident? && e.obj != NoObject {
          var ok := CheckIsPropagatedVar(fn.body, e.obj);
          if ok { continue; }
        }
        reports := reports + [ReportOn(e)];
      }
      assert exprs[..|exprs|] == exprs;
    }

    method Inspect(n: Node)
      modifies this
      ensures reports == old(reports) + ReportsUnder(fn, n)
      decreases n, 1
    {
      if n.Return? { VisitReturn(n); }
      if !n.FuncLit? { InspectChildren(n); }
      Prelude.ConcatAssociative(
        old(reports), ReportsAt(fn, n), if n.FuncLit? then [] else ReportsUnderChildren(fn, n, |Children(n)|));
    }

    method InspectChildren(n: Node)
      modifies this
      ensures reports == old(reports) + ReportsUnderChildren(fn, n, |Children(n)|)
      decreases n, 0
    {
      var kids := Children(n);
      for i := 0 to |kids|
        invariant reports == old(reports) + ReportsUnderChildren(fn, n, i)
      {
        assert kids[i] in kids;
        Prelude.ConcatAssociative(old(reports), ReportsUnderChildren(fn, n, i), ReportsUnder(fn, kids[i]));
        Inspect(kids[i]);
      }
    }
  }

  method CheckPropagationFunction(fn: Function) returns (reports: seq<Report>)
    ensures reports == Reports(fn)
  {
    if !ReturnsError(fn.results) || fn.exempt { return []; }
    var check := new PropagationCheck(fn);
    check.Inspect(fn.body);
    reports := check.reports;
  }
}
