/**
 importedPackage: a depth-first search for a package path through an import graph
 that may be cyclic.  Packages are numbers; a nil import is None.
 */
module ImportSearch {
  import opened Prelude

  /** The packages a type-checked program loaded: their paths and what each imports. */
  datatype Graph = Graph(path: map<nat, string>, imports: map<nat, seq<Option<nat>>>)

  ghost predicate Loaded(g: Graph) {
    && g.path.Keys == g.imports.Keys
    && forall p, q | p in g.imports && Some(q) in g.imports[p] :: q in g.imports
  }

  /** A chain of imports that leads from its first package to its last. */
  ghost predicate Chain(g: Graph, ps: seq<nat>) {
    && ps != []
    && (forall i | 0 <= i < |ps| :: ps[i] in g.imports)
    && forall i | 0 <= i < |ps| - 1 :: Some(ps[i + 1]) in g.imports[ps[i]]
  }

  ghost predicate Reaches(g: Graph, p: nat, q: nat) {
    exists ps :: Chain(g, ps) && ps[0] == p && ps[|ps| - 1] == q
  }

  lemma ReachesThrough(g: Graph, p: nat, next: nat, q: nat)
    requires p in g.imports && Some(next) in g.imports[p] && Reaches(g, next, q)
    ensures Reaches(g, p, q)
  {
    var ps :| Chain(g, ps) && ps[0] == next && ps[|ps| - 1] == q;
    var longer := [p] + ps;
    assert forall i | 0 <= i < |longer| - 1 :: Some(longer[i + 1]) in g.imports[longer[i]];
    assert Chain(g, longer);
  }

  lemma ReachesSelf(g: Graph, p: nat)
    requires p in g.imports
    ensures Reaches(g, p, p)
  {
    assert Chain(g, [p]);
  }

  /** A set that holds everything its members import. */
  ghost predicate Closed(g: Graph, s: set<nat>) {
    forall p, q | p in s && p in g.imports && Some(q) in g.imports[p] :: q in s
  }

  lemma {:induction false} ClosedHoldsReachable(g: Graph, s: set<nat>, ps: seq<nat>)
    requires Closed(g, s) && Chain(g, ps) && ps[0] in s
    ensures ps[|ps| - 1] in s
    decreases |ps|
  {
    if |ps| > 1 {
      var tail := ps[1..];
      assert forall i | 0 <= i < |tail| - 1 :: Some(tail[i + 1]) in g.imports[tail[i]];
      assert ps[0 + 1] == tail[0];
      ClosedHoldsReachable(g, s, tail);
    }
  }

  /** The closure state of importedPackage: the seen map, and the order of expansion beside it. */
  class Search {
    const g: Graph
    const wanted: string
    var seen: set<nat>
    ghost var expanded: seq<nat>

    constructor (g: Graph, wanted: string)
      ensures this.g == g && this.wanted == wanted && seen == {} && expanded == []
    {
      this.g, this.wanted := g, wanted;
      seen := {};
      expanded := [];
    }

    /** Everything seen was expanded exactly once, is loaded, and has another path. */
    ghost predicate Valid()
      reads this
    {
      && Loaded(g)
      && seen <= g.imports.Keys
      && (forall p | p in seen :: g.path[p] != wanted)
      && (forall p :: p in seen <==> p in expanded)
      && (forall i, j | 0 <= i < j < |expanded| :: expanded[i] != expanded[j])
    }

    /** The packages expanded since `before` import nothing that is still unseen. */
    ghost predicate SettledSince(before: set<nat>)
      reads this
    {
      before <= seen &&
      forall p, q | p in seen - before && p in g.imports && Some(q) in g.imports[p] :: q in seen
    }

    method Find(pkg: Option<nat>) returns (found: Option<nat>)
      requires Valid() && (pkg.Some? ==> pkg.value in g.imports)
      modifies this
      ensures Valid() && old(seen) <= seen
      ensures found.Some? ==>
                pkg.Some? && found.value in g.path && g.path[found.value] == wanted &&
                Reaches(g, pkg.value, found.value)
      ensures found.None? ==> SettledSince(old(seen)) && (pkg.Some? ==> pkg.value in seen)
      decreases g.imports.Keys - seen, 0
    {
      if pkg.None? || pkg.value in seen { return None; }
      var p := pkg.value;
      if g.path[p] == wanted {
        ReachesSelf(g, p);
        return Some(p);
      }
      seen := seen + {p};
      expanded := expanded + [p];
      var imports := g.imports[p];
      for i := 0 to |imports|
        invariant Valid() && old(seen) + {p} <= seen
        invariant forall q | Some(q) in imports[..i] :: q in seen
        invariant SettledSince(old(seen) + {p})
      {
        assert imports[i] in imports;
        found := Find(imports[i]);
        if found.Some? {
          ReachesThrough(g, p, imports[i].value, found.value);
          return found;
        }
        assert imports[..i + 1] == imports[..i] + [imports[i]];
      }
      assert imports[..|imports|] == imports;
      return None;
    }
  }

  /** The search returns a package of the wanted path exactly when the root reaches one. */
  method ImportedPackage(g: Graph, root: Option<nat>, path: string) returns (found: Option<nat>)
    requires Loaded(g) && (root.Some? ==> root.value in g.imports)
    ensures found.Some? ==>
              root.Some? && found.value in g.path && g.path[found.value] == path &&
              Reaches(g, root.value, found.value)
    ensures found.Some? <==>
              root.Some? && exists q | q in g.path :: g.path[q] == path && Reaches(g, root.value, q)
  {
    var search := new Search(g, path);
    found := search.Find(root);
    if found.None? && root.Some? {
      assert Closed(g, search.seen);
      forall q | q in g.path && Reaches(g, root.value, q) ensures g.path[q] != path {
        var ps :| Chain(g, ps) && ps[0] == root.value && ps[|ps| - 1] == q;
        ClosedHoldsReachable(g, search.seen, ps);
      }
    }
  }
}
