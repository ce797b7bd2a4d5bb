/**
 A Go syntax tree small enough to reason about and rich enough to hold every
 construct the propagation check looks at.  Identifiers carry the object the Go
 type checker resolved them to, so two variables of one name never mix.
 */
module GoAst {

  /**
   What go/types resolves an identifier to.  Each Var is declared once; it is
   pointer-like when it can only hold interfaces or pointers, whose own value no
   method can change (of the type parameters, those with no other type).
   */
  datatype Object =
    | NoObject   // the blank identifier, or one that resolves to nothing
    | NilObject  // the predeclared nil
    | Var(id: nat, isError: bool, pointerLike: bool)

  /** The *types.Func a call site names, or a builtin; a call of neither has its function as its first argument. */
  datatype Callee = Unresolved | Builtin(name: string) | Func(pkg: string, receiver: string, name: string)

  datatype Result = Result(name: string, obj: Object, isError: bool)

  datatype Node =
    // expressions
    | Ident(name: string, obj: Object, defines: bool)
    | Paren(inner: Node)
    | Call(callee: Callee, errorResults: seq<bool>, errorArg: bool, args: seq<Node>)
    | FuncLit(params: seq<Object>, results: seq<Result>, body: Node)
    | AddressOf(operand: Node)
    | Other(parts: seq<Node>)
    // statements
    | Assign(lhs: seq<Node>, rhs: seq<Node>)
    | ValueSpec(names: seq<Node>, values: seq<Node>)
    | Range(binds: seq<Node>, over: Node, body: Node)
    | Return(values: seq<Node>)
    | If(cond: Node, thn: Node, els: Node)
    | For(cond: Node, body: Node)
    | Block(stmts: seq<Node>)
    | ExprStmt(expr: Node)
    | Defer(call: Node)

  datatype Function = Function(params: seq<Object>, results: seq<Result>, body: Node, exempt: bool)

  /** The children in the order the tree walker of go/ast visits them. */
  function Children(n: Node): (kids: seq<Node>)
    ensures forall c :: c in kids ==> c < n
  {
    match n
    case Ident(_, _, _) => []
    case Paren(x) => [x]
    case Call(_, _, _, args) => args
    case FuncLit(_, _, body) => [body]
    case AddressOf(x) => [x]
    case Other(parts) => parts
    case Assign(lhs, rhs) => lhs + rhs
    case ValueSpec(names, values) => names + values
    case Range(binds, over, body) => binds + [over, body]
    case Return(values) => values
    case If(cond, thn, els) => [cond, thn, els]
    case For(cond, body) => [cond, body]
    case Block(stmts) => stmts
    case ExprStmt(x) => [x]
    case Defer(x) => [x]
  }

  /** Every node of the tree, in walk order. */
  function Nodes(n: Node): seq<Node>
    decreases n, |Children(n)| + 1
  {
    [n] + NodesOfChildren(n, |Children(n)|)
  }

  /** The nodes below the first k children of n. */
  function NodesOfChildren(n: Node, k: nat): seq<Node>
    requires k <= |Children(n)|
    decreases n, k
  {
    if k == 0 then [] else
      var c := Children(n)[k - 1];
      assert c in Children(n);
      NodesOfChildren(n, k - 1) + Nodes(c)
  }

  /** The nodes a walk visits that does not enter function literals. */
  function Outer(n: Node): seq<Node>
    decreases n, |Children(n)| + 1
  {
    [n] + if n.FuncLit? then [] else OuterOfChildren(n, |Children(n)|)
  }

  function OuterOfChildren(n: Node, k: nat): seq<Node>
    requires k <= |Children(n)|
    decreases n, k
  {
    if k == 0 then [] else
      var c := Children(n)[k - 1];
      assert c in Children(n);
      OuterOfChildren(n, k - 1) + Outer(c)
  }

  lemma {:induction false} ChildNodes(n: Node, c: Node, k: nat)
    requires k <= |Children(n)| && c in Children(n)[..k]
    ensures forall m :: m in Nodes(c) ==> m in NodesOfChildren(n, k)
    ensures !n.FuncLit? ==> forall m :: m in Outer(c) ==> m in OuterOfChildren(n, k)
  {
    if c != Children(n)[k - 1] {
      ChildNodes(n, c, k - 1);
    }
  }

  /** A child of n contributes all of its nodes to n's. */
  lemma ChildOf(n: Node, c: Node)
    requires c in Children(n)
    ensures forall m :: m in Nodes(c) ==> m in Nodes(n)
    ensures !n.FuncLit? ==> forall m :: m in Outer(c) ==> m in Outer(n)
  {
    ChildNodes(n, c, |Children(n)|);
  }

  /** Being a node of a tree is transitive. */
  lemma {:induction false} NodesTransitive(r: Node, n: Node, m: Node)
    requires n in Nodes(r) && m in Nodes(n)
    ensures m in Nodes(r)
    decreases r
  {
    if n != r {
      var c := FindChild(r, n, |Children(r)|);
      NodesTransitive(c, n, m);
      ChildOf(r, c);
    }
  }

  lemma {:induction false} FindChild(r: Node, n: Node, k: nat) returns (c: Node)
    requires k <= |Children(r)| && n in NodesOfChildren(r, k)
    ensures c in Children(r) && n in Nodes(c)
  {
    c := Children(r)[k - 1];
    if n !in Nodes(c) {
      c := FindChild(r, n, k - 1);
    }
  }

  /** The same for the walk that stays out of function literals. */
  lemma {:induction false} OuterTransitive(r: Node, n: Node, m: Node)
    requires n in Outer(r) && m in Outer(n)
    ensures m in Outer(r)
    decreases r
  {
    if n != r {
      var c := FindOuterChild(r, n, |Children(r)|);
      OuterTransitive(c, n, m);
      ChildOf(r, c);
    }
  }

  lemma {:induction false} FindOuterChild(r: Node, n: Node, k: nat) returns (c: Node)
    requires k <= |Children(r)| && n in OuterOfChildren(r, k)
    ensures c in Children(r) && n in Outer(c)
  {
    c := Children(r)[k - 1];
    if n !in Outer(c) {
      c := FindOuterChild(r, n, k - 1);
    }
  }

  lemma {:induction false} OuterWithinNodes(n: Node, m: Node)
    requires m in Outer(n)
    ensures m in Nodes(n)
    decreases n
  {
    if m != n {
      var c := FindOuterChild(n, m, |Children(n)|);
      OuterWithinNodes(c, m);
      ChildOf(n, c);
    }
  }
}
