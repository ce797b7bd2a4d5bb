/**
 The propagation pass over a file: every declaration is checked, and every
 function literal in one, however deep, as a function of its own.
 */
module PropagationFile {
  import opened Prelude
  import opened GoAst
  import opened PropagationLint
  import opened PropagationDiscipline
  import opened PropagationReports

  /** A literal as the pass checks it; only declarations can be exempt. */
  function Literal(n: Node): Function
    requires n.FuncLit?
  {
    Function(n.params, n.results, n.body, false)
  }

  /** The reports on the literals at and below a node. */
  function LiteralReports(n: Node): seq<Report>
    decreases n, |Children(n)| + 1
  {
    (if n.FuncLit? then Reports(Literal(n)) else []) + LiteralReportsBelow(n, |Children(n)|)
  }

  function LiteralReportsBelow(n: Node, k: nat): seq<Report>
    requires k <= |Children(n)|
    decreases n, k
  {
    if k == 0 then [] else
      var c := Children(n)[k - 1];
      assert c in Children(n);
      LiteralReportsBelow(n, k - 1) + LiteralReports(c)
  }

  function FileReports(decls: seq<Function>): seq<Report> {
    if decls == [] then [] else
      var d := decls[|decls| - 1];
      FileReports(decls[..|decls| - 1]) + (Reports(d) + LiteralReports(d.body))
  }

  /** The functions of a file: its declarations and the literals in them. */
  predicate InFile(decls: seq<Function>, fn: Function) {
    exists d | d in decls :: fn == d || exists n | n in Nodes(d.body) :: n.FuncLit? && fn == Literal(n)
  }

  class FilePass {
    var reports: seq<Report>

    constructor ()
      ensures reports == []
    {
      reports := [];
    }

    method Inspect(n: Node)
      modifies this
      ensures reports == old(reports) + LiteralReports(n)
      decreases n, 1
    {
      if n.FuncLit? {
        var found := CheckPropagationFunction(Literal(n));
        reports := reports + found;
      }
      ghost var own := if n.FuncLit? then Reports(Literal(n)) else [];
      assert reports == old(reports) + own;
      InspectBelow(n);
      ConcatAssociative(old(reports), own, LiteralReportsBelow(n, |Children(n)|));
    }

    method InspectBelow(n: Node)
      modifies this
      ensures reports == old(reports) + LiteralReportsBelow(n, |Children(n)|)
      decreases n, 0
    {
      for k := 0 to |Children(n)|
        invariant reports == old(reports) + LiteralReportsBelow(n, k)
      {
        var c := Children(n)[k];
        assert c in Children(n);
        ConcatAssociative(old(reports), LiteralReportsBelow(n, k), LiteralReports(c));
        Inspect(c);
      }
    }
  }

  method RunFile(decls: seq<Function>) returns (reports: seq<Report>)
    ensures reports == FileReports(decls)
  {
    var pass := new FilePass();
    for i := 0 to |decls|
      invariant pass.reports == FileReports(decls[..i])
    {
      assert decls[..i + 1][..i] == decls[..i];
      var found := CheckPropagationFunction(decls[i]);
      ConcatAssociative(pass.reports, found, LiteralReports(decls[i].body));
      pass.reports := pass.reports + found;
      pass.Inspect(decls[i].body);
    }
    assert decls[..|decls|] == decls;
    reports := pass.reports;
  }

  // --- the package ------------------------------------------------------------------------------

  datatype File = File(imports: seq<string>, decls: seq<Function>)

  /** The errors package itself is left alone, and so is a package of which no file imports it. */
  predicate Applies(path: string, files: seq<File>) {
    path != GARLIC_ERRORS_PATH && exists f | f in files :: GARLIC_ERRORS_PATH in f.imports
  }

  function PackageReports(files: seq<File>): seq<Report> {
    if files == [] then []
    else PackageReports(files[..|files| - 1]) + FileReports(files[|files| - 1].decls)
  }

  method ImportsGarlicErrors(files: seq<File>) returns (imported: bool)
    ensures imported <==> exists f | f in files :: GARLIC_ERRORS_PATH in f.imports
  {
    for i := 0 to |files|
      invariant forall j | 0 <= j < i :: GARLIC_ERRORS_PATH !in files[j].imports
    {
      if GARLIC_ERRORS_PATH in files[i].imports { return true; }
    }
    return false;
  }

  method RunPropagation(path: string, files: seq<File>) returns (reports: seq<Report>)
    ensures reports == if Applies(path, files) then PackageReports(files) else []
    ensures forall rep :: rep in reports <==>
              && path != "github.com/luanguimaraesla/garlic/errors"
              && (exists f | f in files :: "github.com/luanguimaraesla/garlic/errors" in f.imports)
              && exists f, fn | f in files :: InFile(f.decls, fn) && !fn.exempt && Offending(fn, rep)
  {
    hide FileReports, InFile, Offending;
    forall rep ensures rep in PackageReports(files) <==>
        exists f, fn | f in files :: InFile(f.decls, fn) && !fn.exempt && Offending(fn, rep)
    {
      PackageReportsExactly(files, rep);
    }
    var imported := ImportsGarlicErrors(files);
    if path == GARLIC_ERRORS_PATH || !imported { return []; }
    reports := [];
    for i := 0 to |files|
      invariant reports == PackageReports(files[..i])
    {
      assert files[..i + 1][..i] == files[..i];
      var found := RunFile(files[i].decls);
      reports := reports + found;
    }
    assert files[..|files|] == files;
  }

  // --- what silence means for the whole file -------------------------------------------------

  lemma {:induction false} SilentLiteral(n: Node, lit: Node)
    requires LiteralReports(n) == [] && lit in Nodes(n) && lit.FuncLit?
    ensures Reports(Literal(lit)) == []
    decreases n
  {
    if lit != n {
      var c := FindChild(n, lit, |Children(n)|);
      var i :| 0 <= i < |Children(n)| && Children(n)[i] == c;
      SilentChild(n, i, |Children(n)|);
      SilentLiteral(c, lit);
    }
  }

  lemma {:induction false} SilentChild(n: Node, i: nat, k: nat)
    requires i < k <= |Children(n)| && LiteralReportsBelow(n, k) == []
    ensures LiteralReports(Children(n)[i]) == []
  {
    hide LiteralReports;
    if i < k - 1 { SilentChild(n, i, k - 1); }
  }

  lemma {:induction false} SilentDeclaration(decls: seq<Function>, d: Function)
    requires FileReports(decls) == [] && d in decls
    ensures Reports(d) == [] && LiteralReports(d.body) == []
  {
    if d != decls[|decls| - 1] { SilentDeclaration(decls[..|decls| - 1], d); }
  }

  /** A silent file is silent about each of its functions, literals included. */
  lemma SilentFile(decls: seq<Function>, fn: Function)
    requires FileReports(decls) == [] && InFile(decls, fn)
    ensures Reports(fn) == []
  {
    var d :| d in decls && (fn == d || exists n | n in Nodes(d.body) :: n.FuncLit? && fn == Literal(n));
    SilentDeclaration(decls, d);
    if fn != d {
      var n :| n in Nodes(d.body) && n.FuncLit? && fn == Literal(n);
      SilentLiteral(d.body, n);
    }
  }

  // --- in which order, and how often -----------------------------------------------------------

  /** The reports of the literals in a list of nodes, one after the other. */
  function LiteralsInTurn(nodes: seq<Node>): seq<Report> {
    if nodes == [] then []
    else
      var n := nodes[|nodes| - 1];
      LiteralsInTurn(nodes[..|nodes| - 1]) + if n.FuncLit? then Reports(Literal(n)) else []
  }

  lemma {:induction false} LiteralsInTurnConcat(a: seq<Node>, b: seq<Node>)
    ensures LiteralsInTurn(a + b) == LiteralsInTurn(a) + LiteralsInTurn(b)
  {
    hide Reports;
    if b == [] {
      assert a + b == a;
    } else {
      assert (a + b)[..|a + b| - 1] == a + b[..|b| - 1];
      LiteralsInTurnConcat(a, b[..|b| - 1]);
    }
  }

  lemma LiteralsInTurnOfNone()
    ensures LiteralsInTurn([]) == []
  {
  }

  /** Each literal is checked once, in the order of the source. */
  lemma {:induction false} LiteralsAreCheckedInTurn(n: Node)
    ensures LiteralReports(n) == LiteralsInTurn(Nodes(n))
    decreases n, |Children(n)| + 1
  {
    hide Reports, Children;
    assert [n][..0] == [] && LiteralsInTurn([n]) == if n.FuncLit? then Reports(Literal(n)) else [];
    LiteralsBelowInTurn(n, |Children(n)|);
    LiteralsInTurnConcat([n], NodesOfChildren(n, |Children(n)|));
  }

  lemma {:induction false} LiteralsBelowInTurn(n: Node, k: nat)
    requires k <= |Children(n)|
    ensures LiteralReportsBelow(n, k) == LiteralsInTurn(NodesOfChildren(n, k))
    decreases n, k
  {
    hide Reports, Children, Nodes, LiteralReports, LiteralsInTurn;
    if k > 0 {
      var c := Children(n)[k - 1];
      assert c in Children(n);
      LiteralsBelowInTurn(n, k - 1);
      LiteralsAreCheckedInTurn(c);
      LiteralsInTurnConcat(NodesOfChildren(n, k - 1), Nodes(c));
    } else {
      LiteralsInTurnOfNone();
    }
  }

  // --- what is reported for the whole file ---------------------------------------------------

  lemma {:induction false} LiteralReportsMembers(n: Node, rep: Report)
    ensures rep in LiteralReports(n) <==>
            exists l | l in Nodes(n) :: l.FuncLit? && rep in Reports(Literal(l))
    decreases n, |Children(n)| + 1
  {
    hide Reports, Children;
    LiteralReportsBelowMembers(n, |Children(n)|, rep);
  }

  lemma {:induction false} LiteralReportsBelowMembers(n: Node, k: nat, rep: Report)
    requires k <= |Children(n)|
    ensures rep in LiteralReportsBelow(n, k) <==>
            exists l | l in NodesOfChildren(n, k) :: l.FuncLit? && rep in Reports(Literal(l))
    decreases n, k
  {
    hide Reports, Children, Nodes, LiteralReports;
    if k > 0 {
      assert Children(n)[k - 1] in Children(n);
      LiteralReportsBelowMembers(n, k - 1, rep);
      LiteralReportsMembers(Children(n)[k - 1], rep);
    }
  }

  /** The reports of a file are those of its functions, literals included, and no others. */
  lemma {:induction false} FileReportsExactly(decls: seq<Function>, rep: Report)
    ensures rep in FileReports(decls) <==> exists fn :: InFile(decls, fn) && rep in Reports(fn)
  {
    hide Reports, LiteralReports, Nodes;
    if decls != [] {
      var k := |decls| - 1;
      var d := decls[k];
      FileReportsExactly(decls[..k], rep);
      LiteralReportsMembers(d.body, rep);
      assert decls == decls[..k] + [d];
      forall fn ensures InFile(decls, fn) <==> InFile(decls[..k], fn) || IsOf(d, fn) {}
      if exists l | l in Nodes(d.body) :: l.FuncLit? && rep in Reports(Literal(l)) {
        var l :| l in Nodes(d.body) && l.FuncLit? && rep in Reports(Literal(l));
        assert IsOf(d, Literal(l));
      }
      if rep in Reports(d) { assert IsOf(d, d); }
    }
  }

  predicate IsOf(d: Function, fn: Function) {
    fn == d || exists n | n in Nodes(d.body) :: n.FuncLit? && fn == Literal(n)
  }

  lemma {:induction false} PackageReportsMembers(files: seq<File>, rep: Report)
    ensures rep in PackageReports(files) <==> exists f | f in files :: rep in FileReports(f.decls)
  {
    hide FileReports;
    if files != [] {
      PackageReportsMembers(files[..|files| - 1], rep);
      assert files == files[..|files| - 1] + [files[|files| - 1]];
    }
  }

  /** The reports of a package are what offends in a return of one of its functions, and nothing else. */
  lemma PackageReportsExactly(files: seq<File>, rep: Report)
    ensures rep in PackageReports(files) <==>
            exists f, fn | f in files :: InFile(f.decls, fn) && !fn.exempt && Offending(fn, rep)
  {
    hide FileReports, InFile, Reports, Offending;
    PackageReportsMembers(files, rep);
    if rep in PackageReports(files) {
      var f :| f in files && rep in FileReports(f.decls);
      FileReportsExactly(f.decls, rep);
      var fn :| InFile(f.decls, fn) && rep in Reports(fn);
      ReportsExactly(fn, rep);
    }
    if exists f, fn | f in files :: InFile(f.decls, fn) && !fn.exempt && Offending(fn, rep) {
      var f, fn :| f in files && InFile(f.decls, fn) && !fn.exempt && Offending(fn, rep);
      ReportsExactly(fn, rep);
      FileReportsExactly(f.decls, rep);
    }
  }

  /** So CheckIsSound speaks of every disciplined function of a silent file, declared or literal. */
  lemma SilentFileIsCovered(decls: seq<Function>, fn: Function)
    requires FileReports(decls) == [] && InFile(decls, fn)
    ensures WellTyped(fn) && !fn.exempt && ReturnsError(fn.results) ==>
      (Covered(fn) <==> forall c: Clause :: Keeps(fn, c))
  {
    hide WellTyped, Keeps, Reports;
    SilentFile(decls, fn);
  }
}
