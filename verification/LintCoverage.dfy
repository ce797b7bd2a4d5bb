/**
 How two analyzers divide a file among its functions.  A file walk starts a check
 at certain function nodes; each check walks that function's body and stays out
 of certain nested literals.  The propagation check starts at functions that
 return an error and stays out of every literal; the handler check starts at
 handler-shaped functions and stays out of handler-shaped literals only.
 Nodes are named by their path from the root.
 */
module LintCoverage {
  import opened Prelude

  datatype Tag =
    | FuncDecl(checked: bool, handler: bool)
    | FuncLit(checked: bool, handler: bool)
    | Return
    | Call
    | Plain

  datatype Tree = Tree(tag: Tag, kids: seq<Tree>)
  datatype Analyzer = Propagation | ManualWriteError

  type Path = seq<nat>
  datatype Visit = Visit(checker: Path, node: Path)

  predicate IsFunction(tag: Tag) {
    tag.FuncDecl? || tag.FuncLit?
  }

  /** The functions an analyzer tells apart: all of them, or the handler-shaped ones. */
  predicate Divides(a: Analyzer, tag: Tag) {
    IsFunction(tag) && (a.ManualWriteError? ==> tag.handler)
  }

  predicate Starts(a: Analyzer, tag: Tag) {
    Divides(a, tag) && (a.Propagation? ==> tag.checked)
  }

  predicate StaysOut(a: Analyzer, tag: Tag) {
    tag.FuncLit? && Divides(a, tag)
  }

  predicate Wanted(a: Analyzer, tag: Tag) {
    if a.Propagation? then tag.Return? else tag.Call?
  }

  predicate NoDeclarations(t: Tree) {
    !t.tag.FuncDecl? && forall k | k in t.kids :: NoDeclarations(k)
  }

  /** Go has no function declarations inside functions. */
  predicate WellFormed(t: Tree) {
    (IsFunction(t.tag) ==> forall k | k in t.kids :: NoDeclarations(k)) &&
    forall k | k in t.kids :: WellFormed(k)
  }

  // --- what the walks visit, in order ---------------------------------------------

  function Walk(a: Analyzer, t: Tree, at: Path): seq<Path>
    decreases t, |t.kids| + 1
  {
    (if Wanted(a, t.tag) then [at] else []) +
    if StaysOut(a, t.tag) then [] else WalkKids(a, t, at, |t.kids|)
  }

  function WalkKids(a: Analyzer, t: Tree, at: Path, k: nat): seq<Path>
    requires k <= |t.kids|
    decreases t, k
  {
    if k == 0 then [] else WalkKids(a, t, at, k - 1) + Walk(a, t.kids[k - 1], at + [k - 1])
  }

  function Charge(checker: Path, nodes: seq<Path>): seq<Visit> {
    seq(|nodes|, i requires 0 <= i < |nodes| => Visit(checker, nodes[i]))
  }

  function Checks(a: Analyzer, t: Tree, at: Path): seq<Visit>
    decreases t, |t.kids| + 1
  {
    (if Starts(a, t.tag) then Charge(at, WalkKids(a, t, at, |t.kids|)) else []) + ChecksOfKids(a, t, at, |t.kids|)
  }

  function ChecksOfKids(a: Analyzer, t: Tree, at: Path, k: nat): seq<Visit>
    requires k <= |t.kids|
    decreases t, k
  {
    if k == 0 then [] else ChecksOfKids(a, t, at, k - 1) + Checks(a, t.kids[k - 1], at + [k - 1])
  }

  // --- the walkers --------------------------------------------------------------------

  class Pass {
    const analyzer: Analyzer
    var visits: seq<Visit>

    constructor (analyzer: Analyzer)
      ensures this.analyzer == analyzer && visits == []
    {
      this.analyzer := analyzer;
      visits := [];
    }

    /** The inner walk: checkPropagationFunction's or checkHandlerBody's. */
    method InspectBody(checker: Path, t: Tree, at: Path)
      modifies this
      ensures visits == old(visits) + Charge(checker, Walk(analyzer, t, at))
      decreases t, 1
    {
      if Wanted(analyzer, t.tag) { visits := visits + [Visit(checker, at)]; }
      if !StaysOut(analyzer, t.tag) { InspectBodies(checker, t, at); }
    }

    method InspectBodies(checker: Path, t: Tree, at: Path)
      modifies this
      ensures visits == old(visits) + Charge(checker, WalkKids(analyzer, t, at, |t.kids|))
      decreases t, 0
    {
      for i := 0 to |t.kids|
        invariant visits == old(visits) + Charge(checker, WalkKids(analyzer, t, at, i))
      {
        InspectBody(checker, t.kids[i], at + [i]);
      }
    }

    /** The file walk: runPropagation's or runManualWriteError's. */
    method InspectFile(t: Tree, at: Path)
      modifies this
      ensures visits == old(visits) + Checks(analyzer, t, at)
      decreases t
    {
      if Starts(analyzer, t.tag) { InspectBodies(at, t, at); }
      ghost var before := visits;
      for i := 0 to |t.kids|
        invariant visits == before + ChecksOfKids(analyzer, t, at, i)
      {
        InspectFile(t.kids[i], at + [i]);
      }
    }
  }

  method Run(a: Analyzer, file: Tree) returns (visits: seq<Visit>)
    ensures visits == Checks(a, file, [])
  {
    var pass := new Pass(a);
    pass.InspectFile(file, []);
    visits := pass.visits;
  }

  // --- an independent account of who answers for a node -----------------------------------

  predicate IsPath(t: Tree, p: Path) {
    p == [] || (p[0] < |t.kids| && IsPath(t.kids[p[0]], p[1..]))
  }

  function TagAt(t: Tree, p: Path): Tag
    requires IsPath(t, p)
  {
    if p == [] then t.tag else TagAt(t.kids[p[0]], p[1..])
  }

  /** The innermost function above p that the analyzer tells apart. */
  function Owner(a: Analyzer, t: Tree, p: Path): Option<Path>
    requires IsPath(t, p)
  {
    if p == [] then None else
      match Owner(a, t.kids[p[0]], p[1..])
      case Some(q) => Some([p[0]] + q)
      case None => if Divides(a, t.tag) then Some([]) else None
  }

  lemma {:induction false} OwnerIsAbove(a: Analyzer, t: Tree, p: Path)
    requires IsPath(t, p) && Owner(a, t, p).Some?
    ensures var q := Owner(a, t, p).value; |q| < |p| && q == p[..|q|] && IsPath(t, q) && Divides(a, TagAt(t, q))
    decreases t
  {
    var inner := Owner(a, t.kids[p[0]], p[1..]);
    if inner.Some? {
      OwnerIsAbove(a, t.kids[p[0]], p[1..]);
      var q := [p[0]] + inner.value;
      assert q[1..] == inner.value;
      assert p[..|q|] == [p[0]] + p[1..][..|inner.value|];
    }
  }

  /** Nothing between the owner and p divides the file further. */
  lemma {:induction false} OwnerIsInnermost(a: Analyzer, t: Tree, p: Path, k: nat)
    requires IsPath(t, p) && k < |p|
    ensures IsPath(t, p[..k])
    ensures Divides(a, TagAt(t, p[..k])) ==> Owner(a, t, p).Some? && k <= |Owner(a, t, p).value|
    decreases t
  {
    if k > 0 {
      assert p[..k][1..] == p[1..][..k - 1];
      OwnerIsInnermost(a, t.kids[p[0]], p[1..], k - 1);
    }
  }

  /** The node is of the wanted kind, and its owner is a function the analyzer checks. */
  ghost predicate Due(a: Analyzer, t: Tree, v: Visit) {
    && IsPath(t, v.node) && Wanted(a, TagAt(t, v.node))
    && Owner(a, t, v.node) == Some(v.checker)
    && IsPath(t, v.checker) && Starts(a, TagAt(t, v.checker))
  }

  // --- the same by tags alone -----------------------------------------------------------------

  /** The functions that count for an analyzer: any, or those shaped like a handler. */
  predicate Counts(a: Analyzer, tag: Tag) {
    match tag
    case FuncDecl(_, handler) => a.Propagation? || handler
    case FuncLit(_, handler) => a.Propagation? || handler
    case _ => false
  }

  /** q is the innermost function above p that counts. */
  ghost predicate Innermost(a: Analyzer, t: Tree, q: Path, p: Path)
    requires IsPath(t, p)
  {
    && q < p && IsPath(t, q) && Counts(a, TagAt(t, q))
    && forall k | |q| < k < |p| :: IsPath(t, p[..k]) && !Counts(a, TagAt(t, p[..k]))
  }

  lemma OwnerExactly(a: Analyzer, t: Tree, q: Path, p: Path)
    requires IsPath(t, p)
    ensures Owner(a, t, p) == Some(q) <==> Innermost(a, t, q, p)
  {
    forall k | 0 <= k < |p| ensures IsPath(t, p[..k]) { OwnerIsInnermost(a, t, p, k); }
    if Owner(a, t, p).Some? { OwnerIsAbove(a, t, p); }
    if Owner(a, t, p) == Some(q) {
      forall k | |q| < k < |p| ensures !Counts(a, TagAt(t, p[..k])) { OwnerIsInnermost(a, t, p, k); }
    }
    if Innermost(a, t, q, p) {
      assert p[..|q|] == q;
      OwnerIsInnermost(a, t, p, |q|);
      var r := Owner(a, t, p).value;
      assert p[..|r|] == r;
    }
  }

  /**
   A return is examined by the innermost function around it, if that returns an
   error; a call by the innermost handler around it.  Nothing else is visited.
   */
  lemma VisitsExactly(a: Analyzer, file: Tree, v: Visit)
    requires WellFormed(file)
    ensures v in Checks(a, file, []) <==>
            && IsPath(file, v.node) && Innermost(a, file, v.checker, v.node)
            && (a.Propagation? ==> TagAt(file, v.node).Return? && TagAt(file, v.checker).checked)
            && (a.ManualWriteError? ==> TagAt(file, v.node).Call?)
  {
    VisitedExactlyOnce(a, file);
    if IsPath(file, v.node) { OwnerExactly(a, file, v.checker, v.node); }
  }

  // --- membership of the walks, by descent along paths --------------------------------------

  /** p lies below t and no literal on the way keeps the inner walk out. */
  predicate Visible(a: Analyzer, t: Tree, p: Path) {
    if p == [] then Wanted(a, t.tag)
    else !StaysOut(a, t.tag) && p[0] < |t.kids| && Visible(a, t.kids[p[0]], p[1..])
  }

  /** The check started at q below t visits p. */
  predicate Charged(a: Analyzer, t: Tree, q: Path, p: Path) {
    p != [] && p[0] < |t.kids| &&
    if q == [] then Starts(a, t.tag) && Visible(a, t.kids[p[0]], p[1..])
    else p[0] == q[0] && Charged(a, t.kids[q[0]], q[1..], p[1..])
  }

  lemma BelowChild(at: Path, k: nat, p: Path)
    ensures at + [k] <= p <==> at < p && p[|at|] == k
    ensures at + [k] <= p ==> p[|at + [k]|..] == p[|at| + 1..]
  {
  }

  lemma {:induction false} WalkMembers(a: Analyzer, t: Tree, at: Path, p: Path)
    ensures p in Walk(a, t, at) <==> at <= p && Visible(a, t, p[|at|..])
    decreases t, |t.kids| + 1
  {
    WalkKidsMembers(a, t, at, |t.kids|, p);
    if at < p {
      assert p[|at|..][1..] == p[|at| + 1..];
    } else if at == p {
      assert p[|at|..] == [];
    }
  }

  lemma {:induction false} WalkKidsMembers(a: Analyzer, t: Tree, at: Path, k: nat, p: Path)
    requires k <= |t.kids|
    ensures p in WalkKids(a, t, at, k) <==>
            at < p && p[|at|] < k && Visible(a, t.kids[p[|at|]], p[|at| + 1..])
    decreases t, k
  {
    if k > 0 {
      var earlier, last := WalkKids(a, t, at, k - 1), Walk(a, t.kids[k - 1], at + [k - 1]);
      assert p in earlier + last <==> p in earlier || p in last;
      WalkKidsMembers(a, t, at, k - 1, p);
      WalkMembers(a, t.kids[k - 1], at + [k - 1], p);
      BelowChild(at, k - 1, p);
    }
  }

  lemma {:induction false} ChecksMembers(a: Analyzer, t: Tree, at: Path, v: Visit)
    ensures v in Checks(a, t, at) <==>
            at <= v.checker && at <= v.node && Charged(a, t, v.checker[|at|..], v.node[|at|..])
    decreases t, |t.kids| + 1
  {
    WalkKidsMembers(a, t, at, |t.kids|, v.node);
    ChecksOfKidsMembers(a, t, at, |t.kids|, v);
    ChargeMembers(at, WalkKids(a, t, at, |t.kids|), v);
    if at <= v.node && |v.node| > |at| {
      assert v.node[|at|..][1..] == v.node[|at| + 1..];
    }
    if at <= v.checker && |v.checker| > |at| {
      assert v.checker[|at|..][1..] == v.checker[|at| + 1..];
    }
  }

  lemma ChargeMembers(checker: Path, nodes: seq<Path>, v: Visit)
    ensures v in Charge(checker, nodes) <==> v.checker == checker && v.node in nodes
  {
    if v.checker == checker && v.node in nodes {
      var i :| 0 <= i < |nodes| && nodes[i] == v.node;
      assert Charge(checker, nodes)[i] == v;
    }
  }

  lemma {:induction false} ChecksOfKidsMembers(a: Analyzer, t: Tree, at: Path, k: nat, v: Visit)
    requires k <= |t.kids|
    ensures v in ChecksOfKids(a, t, at, k) <==>
            at < v.checker && at < v.node && v.checker[|at|] == v.node[|at|] < k &&
            Charged(a, t.kids[v.node[|at|]], v.checker[|at| + 1..], v.node[|at| + 1..])
    decreases t, k
  {
    if k > 0 {
      ChecksOfKidsMembers(a, t, at, k - 1, v);
      ChecksMembers(a, t.kids[k - 1], at + [k - 1], v);
      BelowChild(at, k - 1, v.node);
      BelowChild(at, k - 1, v.checker);
    }
  }

  // --- both accounts agree ----------------------------------------------------------------------

  lemma {:induction false} VisibleIsUnowned(a: Analyzer, t: Tree, p: Path)
    requires NoDeclarations(t)
    ensures Visible(a, t, p) <==> IsPath(t, p) && Wanted(a, TagAt(t, p)) && Owner(a, t, p) == None
    decreases t
  {
    if p != [] && p[0] < |t.kids| {
      assert t.kids[p[0]] in t.kids;
      VisibleIsUnowned(a, t.kids[p[0]], p[1..]);
    }
  }

  lemma {:induction false} ChargedIsDue(a: Analyzer, t: Tree, v: Visit)
    requires WellFormed(t)
    ensures Charged(a, t, v.checker, v.node) <==> Due(a, t, v)
    decreases t
  {
    if v.node != [] && v.node[0] < |t.kids| {
      var k := t.kids[v.node[0]];
      assert k in t.kids;
      if v.checker == [] {
        if IsFunction(t.tag) { VisibleIsUnowned(a, k, v.node[1..]); }
      } else {
        ChargedIsDue(a, k, Visit(v.checker[1..], v.node[1..]));
        assert v.checker == [v.checker[0]] + v.checker[1..];
      }
    }
  }

  // --- no node is visited twice -------------------------------------------------------------------

  predicate Distinct<T(==)>(s: seq<T>) {
    forall i, j | 0 <= i < j < |s| :: s[i] != s[j]
  }

  lemma DistinctConcat<T>(s: seq<T>, u: seq<T>)
    requires Distinct(s) && Distinct(u) && forall x | x in s :: x !in u
    ensures Distinct(s + u)
  {
    forall i, j | 0 <= i < j < |s + u| ensures (s + u)[i] != (s + u)[j] {
      if i < |s| <= j {
        assert s[i] in s && u[j - |s|] in u;
      }
    }
  }

  lemma {:induction false} WalkDistinct(a: Analyzer, t: Tree, at: Path)
    ensures Distinct(Walk(a, t, at))
    decreases t, |t.kids| + 1
  {
    WalkKidsDistinct(a, t, at, |t.kids|);
    WalkKidsMembers(a, t, at, |t.kids|, at);
  }

  lemma SiblingsApart(a: Analyzer, t: Tree, at: Path, k: nat)
    requires k < |t.kids|
    ensures var last := Walk(a, t.kids[k], at + [k]); forall p | p in WalkKids(a, t, at, k) :: p !in last
  {
    var earlier, last := WalkKids(a, t, at, k), Walk(a, t.kids[k], at + [k]);
    forall p | p in earlier ensures p !in last {
      WalkKidsMembers(a, t, at, k, p);
      WalkMembers(a, t.kids[k], at + [k], p);
    }
  }

  lemma {:induction false} WalkKidsDistinct(a: Analyzer, t: Tree, at: Path, k: nat)
    requires k <= |t.kids|
    ensures Distinct(WalkKids(a, t, at, k))
    decreases t, k
  {
    if k > 0 {
      WalkKidsDistinct(a, t, at, k - 1);
      WalkDistinct(a, t.kids[k - 1], at + [k - 1]);
      SiblingsApart(a, t, at, k - 1);
      DistinctConcat(WalkKids(a, t, at, k - 1), Walk(a, t.kids[k - 1], at + [k - 1]));
    }
  }

  lemma {:induction false} ChecksDistinct(a: Analyzer, t: Tree, at: Path)
    ensures Distinct(Checks(a, t, at))
    decreases t, |t.kids| + 1
  {
    WalkKidsDistinct(a, t, at, |t.kids|);
    ChecksOfKidsDistinct(a, t, at, |t.kids|);
    forall v | v in Charge(at, WalkKids(a, t, at, |t.kids|)) ensures v !in ChecksOfKids(a, t, at, |t.kids|) {
      ChargeMembers(at, WalkKids(a, t, at, |t.kids|), v);
      ChecksOfKidsMembers(a, t, at, |t.kids|, v);
    }
    if Starts(a, t.tag) {
      DistinctConcat(Charge(at, WalkKids(a, t, at, |t.kids|)), ChecksOfKids(a, t, at, |t.kids|));
    } else {
      assert Checks(a, t, at) == ChecksOfKids(a, t, at, |t.kids|);
    }
  }

  lemma {:induction false} ChecksOfKidsDistinct(a: Analyzer, t: Tree, at: Path, k: nat)
    requires k <= |t.kids|
    ensures Distinct(ChecksOfKids(a, t, at, k))
    decreases t, k
  {
    if k > 0 {
      ChecksOfKidsDistinct(a, t, at, k - 1);
      ChecksDistinct(a, t.kids[k - 1], at + [k - 1]);
      var earlier, last := ChecksOfKids(a, t, at, k - 1), Checks(a, t.kids[k - 1], at + [k - 1]);
      forall v | v in earlier ensures v !in last {
        ChecksOfKidsMembers(a, t, at, k - 1, v);
        ChecksMembers(a, t.kids[k - 1], at + [k - 1], v);
      }
      DistinctConcat(earlier, last);
    }
  }

  /**
   Every return statement (or call) is visited exactly once, by the check of the
   innermost function that answers for it, and not at all when that function is
   not checked.
   */
  lemma VisitedExactlyOnce(a: Analyzer, file: Tree)
    requires WellFormed(file)
    ensures Distinct(Checks(a, file, []))
    ensures forall v :: v in Checks(a, file, []) <==> Due(a, file, v)
  {
    ChecksDistinct(a, file, []);
    forall v ensures v in Checks(a, file, []) <==> Due(a, file, v) {
      ChecksMembers(a, file, [], v);
      ChargedIsDue(a, file, v);
      assert v.checker[0..] == v.checker && v.node[0..] == v.node;
    }
  }
}
