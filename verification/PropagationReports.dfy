/**
 What the propagation check reports, and nothing more: an exact account of the
 reports of a function, said over its nodes without the walks that find them.
 */
module PropagationReports {
  import opened GoAst
  import opened PropagationLint

  // --- variables ------------------------------------------------------------------------

  /** The node stores to obj, binds it, or takes its address. */
  predicate Touches(m: Node, obj: Object) {
    match m
    case Assign(lhs, _) => exists t | t in lhs :: IdentObject(t) == obj
    case ValueSpec(names, values) => values != [] && exists t | t in names :: IdentObject(t) == obj
    case Range(binds, _, _) => exists t | t in binds :: IdentObject(t) == obj
    case AddressOf(x) => IdentObject(x) == obj
    case _ => false
  }

  predicate Constructs(targets: seq<Node>, values: seq<Node>, obj: Object) {
    |targets| == |values| &&
    forall i | 0 <= i < |targets| && IdentObject(targets[i]) == obj :: IsGarlicCall(values[i])
  }

  /** It does no more than assign obj what constructors return, one to one. */
  predicate OnlyConstructs(m: Node, obj: Object) {
    match m
    case Assign(lhs, rhs) => Constructs(lhs, rhs, obj)
    case ValueSpec(names, values) => Constructs(names, values, obj)
    case _ => false
  }

  predicate TouchedIn(body: Node, obj: Object) {
    exists m | m in Nodes(body) :: Touches(m, obj)
  }

  predicate ConstructedIn(body: Node, obj: Object) {
    TouchedIn(body, obj) && forall m | m in Nodes(body) && Touches(m, obj) :: OnlyConstructs(m, obj)
  }

  lemma PairsOf(targets: seq<Node>, values: seq<Node>, obj: Object)
    requires |targets| == |values|
    ensures PairedValues(targets, values, obj) != [] <==> exists t | t in targets :: IdentObject(t) == obj
    ensures (forall v | v in PairedValues(targets, values, obj) :: IsGarlicCall(v)) <==>
            Constructs(targets, values, obj)
  {
    hide PairedValues, IdentObject, IsGarlicCall;
    forall i | 0 <= i < |targets| && IdentObject(targets[i]) == obj
      ensures values[i] in PairedValues(targets, values, obj)
    {
      PairedValuesAt(targets, values, obj, i);
    }
    forall v | v in PairedValues(targets, values, obj)
      ensures exists i | 0 <= i < |targets| :: IdentObject(targets[i]) == obj && values[i] == v
    {
      var i := PairedFrom(targets, values, v, obj);
    }
    if PairedValues(targets, values, obj) != [] {
      assert PairedValues(targets, values, obj)[0] in PairedValues(targets, values, obj);
    }
  }

  /** What the collector makes of one node. */
  lemma NodeIsCollected(m: Node, obj: Object)
    ensures Touches(m, obj) <==> ValuesAt(m, obj) != [] || UntrackedAt(m, obj)
    ensures Touches(m, obj) ==>
              (OnlyConstructs(m, obj) <==> !UntrackedAt(m, obj) && forall v | v in ValuesAt(m, obj) :: IsGarlicCall(v))
  {
    match m
    case Assign(lhs, rhs) => if |lhs| == |rhs| { PairsOf(lhs, rhs, obj); }
    case ValueSpec(names, values) => if |names| == |values| { PairsOf(names, values, obj); }
    case _ =>
  }

  lemma TouchedExactly(body: Node, obj: Object)
    ensures NeverAssigned(body, obj) <==> !TouchedIn(body, obj)
  {
    hide Touches, OnlyConstructs, ValuesAt, UntrackedAt, ValuesUnder, UntrackedUnder, Nodes;
    if UntrackedUnder(body, obj) {
      var m := UntrackedFrom(body, obj);
      NodeIsCollected(m, obj);
    }
    if ValuesUnder(body, obj) != [] {
      var m := CollectedFrom(body, ValuesUnder(body, obj)[0], obj);
      NodeIsCollected(m, obj);
    }
    if TouchedIn(body, obj) {
      var m :| m in Nodes(body) && Touches(m, obj);
      NodeIsCollected(m, obj);
      CollectedAtRoot(body, m, obj);
      if ValuesAt(m, obj) != [] { assert ValuesAt(m, obj)[0] in ValuesUnder(body, obj); }
    }
  }

  /** A variable is accepted exactly when some node touches it and all that do only construct. */
  lemma PropagatedExactly(body: Node, obj: Object)
    ensures IsPropagatedVar(body, obj) <==> ConstructedIn(body, obj)
  {
    hide Touches, OnlyConstructs, ValuesAt, UntrackedAt, ValuesUnder, UntrackedUnder, Nodes, IsGarlicCall;
    TouchedExactly(body, obj);
    if IsPropagatedVar(body, obj) {
      forall m | m in Nodes(body) && Touches(m, obj) ensures OnlyConstructs(m, obj) {
        NodeIsCollected(m, obj);
        CollectedAtRoot(body, m, obj);
      }
    }
    if ConstructedIn(body, obj) {
      forall v | v in ValuesUnder(body, obj) ensures IsGarlicCall(v) {
        var m := CollectedFrom(body, v, obj);
        NodeIsCollected(m, obj);
      }
      if UntrackedUnder(body, obj) {
        var m := UntrackedFrom(body, obj);
        NodeIsCollected(m, obj);
      }
    }
  }

  // --- returns ---------------------------------------------------------------------------

  /** nil, a constructor call, or a variable that only ever holds what constructors return. */
  predicate Excused(body: Node, e: Node) {
    || (e.Ident? && e.name == "nil")
    || (e.Call? && IsGarlicConstructor(e.callee))
    || (e.Ident? && e.obj != NoObject && ConstructedIn(body, e.obj))
  }

  /** A call, perhaps in parentheses, that yields n values of which the i-th is an error. */
  predicate FillsErrorAt(e: Node, n: nat, i: nat) {
    match e
    case Paren(x) => FillsErrorAt(x, n, i)
    case Call(_, errorResults, _, _) => |errorResults| == n && i < n && errorResults[i]
    case _ => false
  }

  lemma {:induction false} TuplesAreCalls(e: Node, n: nat, i: nat)
    requires i < n
    ensures FillsErrorAt(e, n, i) <==> |TupleOf(e)| == n && TupleOf(e)[i]
    decreases e
  {
    if e.Paren? { TuplesAreCalls(e.inner, n, i); }
  }

  /** Position i of the function's results is one this return statement must answer for. */
  predicate AnswersAt(fn: Function, ret: Node, i: nat) {
    && ret.Return? && i < |fn.results| && fn.results[i].isError
    && if ret.values == [] then fn.results[i].obj != NoObject && TouchedIn(fn.body, fn.results[i].obj)
       else if |ret.values| == |fn.results| then true
       else |ret.values| == 1 && FillsErrorAt(ret.values[0], |fn.results|, i)
  }

  /** What stands there: the result itself, its value, or the call that yields it. */
  function At(fn: Function, ret: Node, i: nat): Node
    requires AnswersAt(fn, ret, i)
  {
    if ret.values == [] then Ident(fn.results[i].name, fn.results[i].obj, true)
    else if |ret.values| == |fn.results| then ret.values[i]
    else ret.values[0]
  }

  predicate Offends(fn: Function, ret: Node, i: nat) {
    AnswersAt(fn, ret, i) && !Excused(fn.body, At(fn, ret, i))
  }

  function RuleOf(e: Node): Rule {
    if e.Call? && e.callee != Func("fmt", "", "Errorf") && !IsGarlicConstructor(e.callee) &&
       e.errorResults != [] && e.errorResults[|e.errorResults| - 1] && e.errorArg
    then BareClassification else BareReturn
  }

  lemma JustifiedExactly(body: Node, e: Node)
    ensures Justified(body, e) <==> Excused(body, e)
  {
    if e.Ident? { PropagatedExactly(body, e.obj); }
  }

  lemma {:induction false} ReportsForMembers(body: Node, exprs: seq<Node>, rep: Report)
    ensures rep in ReportsFor(body, exprs) <==>
            rep.expr in exprs && !Excused(body, rep.expr) && rep.rule == RuleOf(rep.expr)
  {
    hide Excused, Justified;
    if exprs != [] {
      var k := |exprs| - 1;
      ReportsForMembers(body, exprs[..k], rep);
      JustifiedExactly(body, exprs[k]);
      assert exprs == exprs[..k] + [exprs[k]];
      assert ReportOn(exprs[k]) == Report(exprs[k], RuleOf(exprs[k]));
    }
  }

  lemma {:induction false} ExplicitMembers(values: seq<Node>, results: seq<Result>, e: Node)
    requires |values| == |results|
    ensures e in ExplicitErrorReturns(values, results) <==>
            exists i | 0 <= i < |values| :: results[i].isError && e == values[i]
  {
    if values != [] {
      var k := |values| - 1;
      ExplicitMembers(values[..k], results[..k], e);
      assert forall i | 0 <= i < k :: values[..k][i] == values[i] && results[..k][i] == results[i];
    }
  }

  lemma {:induction false} NakedMembers(body: Node, results: seq<Result>, e: Node)
    ensures e in NamedErrorResults(body, results) <==>
            exists i | 0 <= i < |results| :: NakedAt(body, results, e, i)
  {
    if results != [] {
      var k := |results| - 1;
      NakedMembers(body, results[..k], e);
      LastNaked(body, results, e);
      hide NakedAt, NamedErrorResults;
      forall i | 0 <= i < k ensures NakedAt(body, results[..k], e, i) <==> NakedAt(body, results, e, i) {
        NakedBefore(body, results, k, e, i);
      }
    }
  }

  lemma LastNaked(body: Node, results: seq<Result>, e: Node)
    requires results != []
    ensures var k := |results| - 1;
      e in NamedErrorResults(body, results) <==>
      e in NamedErrorResults(body, results[..k]) || NakedAt(body, results, e, k)
  {
    TouchedExactly(body, results[|results| - 1].obj);
    hide TouchedIn, NeverAssigned;
  }

  lemma NakedBefore(body: Node, results: seq<Result>, k: nat, e: Node, i: nat)
    requires i < k <= |results|
    ensures NakedAt(body, results[..k], e, i) <==> NakedAt(body, results, e, i)
  {
  }

  predicate NakedAt(body: Node, results: seq<Result>, e: Node, i: int) {
    && 0 <= i < |results| && results[i].isError && results[i].obj != NoObject && TouchedIn(body, results[i].obj)
    && e == Ident(results[i].name, results[i].obj, true)
  }

  /** The expressions examined for a return are what stands at the positions it answers for. */
  lemma ExaminedExactly(fn: Function, ret: Node, e: Node)
    requires ret.Return?
    ensures e in ErrorReturnExpressions(ret.values, fn) <==>
            exists i | 0 <= i < |fn.results| :: AnswersAt(fn, ret, i) && e == At(fn, ret, i)
  {
    hide TouchedIn;
    if ret.values == [] {
      NakedMembers(fn.body, fn.results, e);
      assert forall i | 0 <= i < |fn.results| ::
          NakedAt(fn.body, fn.results, e, i) <==> AnswersAt(fn, ret, i) && e == At(fn, ret, i);
    } else if |ret.values| == |fn.results| {
      ExplicitMembers(ret.values, fn.results, e);
      assert forall i | 0 <= i < |fn.results| ::
          fn.results[i].isError && e == ret.values[i] <==> AnswersAt(fn, ret, i) && e == At(fn, ret, i);
    } else if |ret.values| == 1 {
      forall i: nat | i < |fn.results|
        ensures FillsErrorAt(ret.values[0], |fn.results|, i) <==>
                |TupleOf(ret.values[0])| == |fn.results| && TupleOf(ret.values[0])[i]
      {
        TuplesAreCalls(ret.values[0], |fn.results|, i);
      }
      assert forall i | 0 <= i < |fn.results| ::
          AnswersAt(fn, ret, i) <==>
          |TupleOf(ret.values[0])| == |fn.results| && fn.results[i].isError && TupleOf(ret.values[0])[i];
    }
  }

  /** One return statement is reported for exactly what offends in it. */
  lemma ReturnIsReported(fn: Function, ret: Node, rep: Report)
    requires ret.Return?
    ensures rep in ReportsAt(fn, ret) <==>
            exists i | 0 <= i < |fn.results| ::
              Offends(fn, ret, i) && rep == Report(At(fn, ret, i), RuleOf(At(fn, ret, i)))
  {
    hide AnswersAt, At, Excused, ErrorReturnExpressions;
    ReportsForMembers(fn.body, ErrorReturnExpressions(ret.values, fn), rep);
    ExaminedExactly(fn, ret, rep.expr);
  }

  // --- in which order, and how often ---------------------------------------------------------

  /** One report for each of the first k positions that offends, in order. */
  function InOrder(fn: Function, ret: Node, k: nat): seq<Report> {
    if k == 0 then []
    else if !Offends(fn, ret, k - 1) then InOrder(fn, ret, k - 1)
    else InOrder(fn, ret, k - 1) + [Report(At(fn, ret, k - 1), RuleOf(At(fn, ret, k - 1)))]
  }

  lemma OneMoreReport(body: Node, exprs: seq<Node>, e: Node)
    ensures ReportsFor(body, exprs + [e]) ==
            if Excused(body, e) then ReportsFor(body, exprs) else ReportsFor(body, exprs) + [Report(e, RuleOf(e))]
  {
    JustifiedExactly(body, e);
    assert (exprs + [e])[..|exprs|] == exprs;
  }

  lemma {:induction false} ExplicitInOrder(fn: Function, ret: Node, k: nat)
    requires ret.Return? && ret.values != [] && |ret.values| == |fn.results| && k <= |fn.results|
    ensures ReportsFor(fn.body, ExplicitErrorReturns(ret.values[..k], fn.results[..k])) == InOrder(fn, ret, k)
  {
    hide Excused, RuleOf, ReportsFor;
    if k > 0 {
      ExplicitInOrder(fn, ret, k - 1);
      assert ret.values[..k][..k - 1] == ret.values[..k - 1] && fn.results[..k][..k - 1] == fn.results[..k - 1];
      var before, e := ExplicitErrorReturns(ret.values[..k - 1], fn.results[..k - 1]), ret.values[k - 1];
      OneMoreReport(fn.body, before, e);
      assert ExplicitErrorReturns(ret.values[..k], fn.results[..k]) ==
             if fn.results[k - 1].isError then before + [e] else before;
      assert Offends(fn, ret, k - 1) <==> fn.results[k - 1].isError && !Excused(fn.body, e);
    } else {
      assert ReportsFor(fn.body, []) == [] by { NothingReported(fn.body); }
    }
  }

  lemma NothingReported(body: Node)
    ensures ReportsFor(body, []) == []
  {
  }

  lemma {:induction false} NakedInOrder(fn: Function, ret: Node, k: nat)
    requires ret == Return([]) && k <= |fn.results|
    ensures ReportsFor(fn.body, NamedErrorResults(fn.body, fn.results[..k])) == InOrder(fn, ret, k)
  {
    hide Excused, RuleOf, ReportsFor, TouchedIn, NeverAssigned;
    if k > 0 {
      NakedInOrder(fn, ret, k - 1);
      assert fn.results[..k][..k - 1] == fn.results[..k - 1];
      TouchedExactly(fn.body, fn.results[k - 1].obj);
      var before, r := NamedErrorResults(fn.body, fn.results[..k - 1]), fn.results[k - 1];
      var answers := r.isError && r.obj != NoObject && TouchedIn(fn.body, r.obj);
      OneMoreReport(fn.body, before, ResultIdent(r));
      assert NamedErrorResults(fn.body, fn.results[..k]) ==
             if answers then before + [ResultIdent(r)] else before;
      assert Offends(fn, ret, k - 1) <==> answers && !Excused(fn.body, ResultIdent(r));
    } else {
      assert ReportsFor(fn.body, []) == [] by { NothingReported(fn.body); }
    }
  }

  /** Nothing is reported twice: one report for each offending position, or one for a call that fills several. */
  lemma OneReportEach(fn: Function, ret: Node)
    requires ret.Return?
    ensures ret.values == [] || |ret.values| == |fn.results| ==> ReportsAt(fn, ret) == InOrder(fn, ret, |fn.results|)
    ensures ret.values != [] && |ret.values| != |fn.results| ==> |ReportsAt(fn, ret)| <= 1
  {
    hide Excused, RuleOf;
    assert fn.results[..|fn.results|] == fn.results && ret.values[..|ret.values|] == ret.values;
    if ret.values == [] {
      NakedInOrder(fn, ret, |fn.results|);
      if fn.results == [] { NothingReported(fn.body); }
    } else if |ret.values| == |fn.results| {
      ExplicitInOrder(fn, ret, |fn.results|);
    } else {
      AtMostOne(fn, ret);
    }
  }

  lemma AtMostOne(fn: Function, ret: Node)
    requires ret.Return? && ret.values != [] && |ret.values| != |fn.results|
    ensures |ReportsAt(fn, ret)| <= 1
  {
    hide Justified, TupleOf;
    NothingReported(fn.body);
    var exprs := ErrorReturnExpressions(ret.values, fn);
    assert exprs == [] || exprs == [ret.values[0]];
    if exprs != [] { assert exprs[..0] == []; }
  }

  // --- the whole function -------------------------------------------------------------------

  /** The reports of a list of nodes, one after the other. */
  function InTurn(fn: Function, nodes: seq<Node>): seq<Report> {
    if nodes == [] then [] else InTurn(fn, nodes[..|nodes| - 1]) + ReportsAt(fn, nodes[|nodes| - 1])
  }

  lemma {:induction false} InTurnConcat(fn: Function, a: seq<Node>, b: seq<Node>)
    ensures InTurn(fn, a + b) == InTurn(fn, a) + InTurn(fn, b)
  {
    hide ReportsAt;
    if b == [] {
      assert a + b == a;
    } else {
      var k := |b| - 1;
      assert (a + b)[..|a + b| - 1] == a + b[..k];
      InTurnConcat(fn, a, b[..k]);
    }
  }

  /** The walk reports return by return, in the order of the source, those in literals left out. */
  lemma {:induction false} ReportsInTurn(fn: Function, n: Node)
    ensures ReportsUnder(fn, n) == InTurn(fn, Outer(n))
    decreases n, |Children(n)| + 1
  {
    hide ReportsAt, Children;
    assert InTurn(fn, [n]) == ReportsAt(fn, n) by { assert [n][..0] == []; }
    if !n.FuncLit? {
      ReportsInTurnBelow(fn, n, |Children(n)|);
      InTurnConcat(fn, [n], OuterOfChildren(n, |Children(n)|));
    } else {
      assert Outer(n) == [n];
    }
  }

  lemma {:induction false} ReportsInTurnBelow(fn: Function, n: Node, k: nat)
    requires k <= |Children(n)| && !n.FuncLit?
    ensures ReportsUnderChildren(fn, n, k) == InTurn(fn, OuterOfChildren(n, k))
    decreases n, k
  {
    hide ReportsAt, Children, Outer, ReportsUnder;
    if k != 0 {
      var c := Children(n)[k - 1];
      assert c in Children(n);
      ReportsInTurnBelow(fn, n, k - 1);
      ReportsInTurn(fn, c);
      InTurnConcat(fn, OuterOfChildren(n, k - 1), Outer(c));
    }
  }

  lemma {:induction false} InTurnMembers(fn: Function, nodes: seq<Node>, rep: Report)
    ensures rep in InTurn(fn, nodes) <==> exists n | n in nodes :: rep in ReportsAt(fn, n)
  {
    hide ReportsAt;
    if nodes != [] {
      var k := |nodes| - 1;
      InTurnMembers(fn, nodes[..k], rep);
      assert nodes == nodes[..k] + [nodes[k]];
    }
  }

  /** Some return of the function, outside of its literals, offends with this. */
  predicate Offending(fn: Function, rep: Report) {
    exists ret, i | ret in Outer(fn.body) && 0 <= i < |fn.results| ::
      Offends(fn, ret, i) && rep == Report(At(fn, ret, i), RuleOf(At(fn, ret, i)))
  }

  /** A function is reported for what offends in its returns, and for nothing else. */
  lemma ReportsExactly(fn: Function, rep: Report)
    ensures rep in Reports(fn) <==> !fn.exempt && Offending(fn, rep)
  {
    hide ReportsAt, Excused, AnswersAt, Outer, RuleOf, At;
    if ReturnsError(fn.results) && !fn.exempt {
      ReportsInTurn(fn, fn.body);
      InTurnMembers(fn, Outer(fn.body), rep);
      forall ret | ret in Outer(fn.body)
        ensures rep in ReportsAt(fn, ret) <==>
                exists i | 0 <= i < |fn.results| ::
                  Offends(fn, ret, i) && rep == Report(At(fn, ret, i), RuleOf(At(fn, ret, i)))
      {
        OneReturn(fn, ret, rep);
      }
    } else if Offending(fn, rep) {
      var ret, i :| ret in Outer(fn.body) && 0 <= i < |fn.results| && Offends(fn, ret, i);
      OffendsAtError(fn, ret, i);
    }
  }

  lemma OneReturn(fn: Function, ret: Node, rep: Report)
    ensures rep in ReportsAt(fn, ret) <==>
            exists i | 0 <= i < |fn.results| ::
              Offends(fn, ret, i) && rep == Report(At(fn, ret, i), RuleOf(At(fn, ret, i)))
  {
    hide RuleOf, At, Excused, ErrorReturnExpressions;
    if ret.Return? { ReturnIsReported(fn, ret, rep); }
  }

  lemma OffendsAtError(fn: Function, ret: Node, i: nat)
    requires Offends(fn, ret, i)
    ensures i < |fn.results| && fn.results[i].isError && ReturnsError(fn.results)
  {
    assert fn.results[i] in fn.results;
  }

  /** So a function is silent exactly when each of its returns is excused wherever it must answer for an error. */
  lemma SilentExactly(fn: Function)
    ensures Reports(fn) == [] <==>
            fn.exempt || forall ret, i | ret in Outer(fn.body) && 0 <= i < |fn.results| :: !Offends(fn, ret, i)
  {
    hide Offends, Outer, RuleOf, Reports;
    if Reports(fn) != [] {
      ReportsExactly(fn, Reports(fn)[0]);
      assert Reports(fn)[0] in Reports(fn);
    }
    if !fn.exempt && exists ret, i | ret in Outer(fn.body) && 0 <= i < |fn.results| :: Offends(fn, ret, i) {
      var ret, i :| ret in Outer(fn.body) && 0 <= i < |fn.results| && Offends(fn, ret, i);
      Spot(fn, ret, i);
    }
  }

  lemma Spot(fn: Function, ret: Node, i: nat)
    requires !fn.exempt && ret in Outer(fn.body) && i < |fn.results| && Offends(fn, ret, i)
    ensures Reports(fn) != []
  {
    hide Outer, RuleOf, Reports, Excused;
    ReportsExactly(fn, Report(At(fn, ret, i), RuleOf(At(fn, ret, i))));
  }

  // --- constructors ----------------------------------------------------------------------------

  /** The functions and the methods that build an error of ours, by receiver and name. */
  const CONSTRUCTORS: set<(string, string)> := {
    ("", "New"), ("", "Raw"), ("", "From"), ("", "Propagate"), ("", "PropagateAs"), ("", "Override"), ("", "Mirror"),
    ("", "MirrorOverride"), ("ErrorT", "With"), ("TemplateT", "New"), ("TemplateT", "Propagate")
  }

  /** Only the errors package has constructors: a function of that name elsewhere is foreign. */
  lemma ConstructorsExactly(callee: Callee)
    ensures IsGarlicConstructor(callee) <==>
            && callee.Func? && callee.pkg == "github.com/luanguimaraesla/garlic/errors"
            && (callee.receiver, callee.name) in CONSTRUCTORS
  {
  }
}
