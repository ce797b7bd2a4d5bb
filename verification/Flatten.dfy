/**
 Flattening a nested struct into one map keyed by the dot-joined tags on the way
 to each field.  Reflection is reduced to what the code asks of it.
 */
module Flatten {
  import opened Prelude

  /** A Go value; a Leaf is anything that is neither struct nor pointer. */
  datatype Value = Leaf(v: string) | Struct(fields: seq<Field>) | Pointer(target: Value) | NilPointer

  /** A field and its mapstructure tag, empty when it has none. */
  datatype Field = Field(tag: string, value: Value)

  type Flat = map<string, Value>

  const SEPARATOR := '.'

  predicate Squashes(tag: string) {
    tag != "" && tag[0] == ','
  }

  /** One level of indirection, as far as there is one. */
  function Elem(v: Value): (e: Value)
    ensures e == v || e < v
  {
    if v.Pointer? then v.target else v
  }

  function Join(path: seq<string>): string {
    if path == [] then ""
    else if |path| == 1 then path[0]
    else path[0] + [SEPARATOR] + Join(path[1..])
  }

  function NextParents(parents: seq<string>, tag: string): seq<string> {
    if Squashes(tag) then parents else parents + [tag]
  }

  /** The map of the first n fields; None when reading a nil pointer panics. */
  function FlatFields(s: Value, n: nat, parents: seq<string>): Option<Flat>
    requires s.Struct? && n <= |s.fields|
    decreases s, n
  {
    if n == 0 then Some(map[])
    else
      var before, added := FlatFields(s, n - 1, parents), FlatField(s, n - 1, parents);
      if before.None? || added.None? then None else Some(before.value + added.value)
  }

  function FlatField(s: Value, i: nat, parents: seq<string>): Option<Flat>
    requires s.Struct? && i < |s.fields|
    decreases s, i
  {
    var f := s.fields[i];
    var v := Elem(f.value);
    if f.tag == "" then Some(map[])
    else if f.value.NilPointer? then None
    else if v.Struct? then FlatFields(v, |v.fields|, NextParents(parents, f.tag))
    else Some(map[Join(parents + [f.tag]) := v])
  }

  method FlattenStruct(s: Value, parents: seq<string>) returns (result: Option<Flat>)
    requires s.Struct?
    ensures result == FlatFields(s, |s.fields|, parents)
    decreases s
  {
    var flat: Flat := map[];
    var i := 0;
    while i < |s.fields|
      invariant 0 <= i <= |s.fields|
      invariant FlatFields(s, i, parents) == Some(flat)
      invariant FlatFields(s, |s.fields|, parents).None? || FlatFields(s, i, parents).Some?
    {
      var f := s.fields[i];
      if f.tag == "" {
        assert flat + map[] == flat;
      } else if f.value.NilPointer? {
        StaysNone(s, i + 1, |s.fields|, parents);
        return None;
      } else {
        var v := Elem(f.value);
        if v.Struct? {
          var inner := FlattenStruct(v, NextParents(parents, f.tag));
          if inner.None? {
            StaysNone(s, i + 1, |s.fields|, parents);
            return None;
          }
          flat := flat + inner.value;
        } else {
          assert flat[Join(parents + [f.tag]) := v] == flat + map[Join(parents + [f.tag]) := v];
          flat := flat[Join(parents + [f.tag]) := v];
        }
      }
      i := i + 1;
    }
    result := Some(flat);
  }

  lemma {:induction false} StaysNone(s: Value, i: nat, n: nat, parents: seq<string>)
    requires s.Struct? && i <= n <= |s.fields| && FlatFields(s, i, parents).None?
    ensures FlatFields(s, n, parents).None?
  {
    if i < n { StaysNone(s, i, n - 1, parents); }
  }

  // --- the leaves of a struct -------------------------------------------------------------------

  datatype Entry = Entry(path: seq<string>, value: Value)

  /** The tagged leaves below the first n fields, each with its path. */
  function Leaves(s: Value, n: nat): seq<Entry>
    requires s.Struct? && n <= |s.fields|
    decreases s, n
  {
    if n == 0 then [] else Leaves(s, n - 1) + FieldLeaves(s, n - 1)
  }

  function FieldLeaves(s: Value, i: nat): seq<Entry>
    requires s.Struct? && i < |s.fields|
    decreases s, i
  {
    var f := s.fields[i];
    var v := Elem(f.value);
    if f.tag == "" then []
    else if !v.Struct? then [Entry([f.tag], v)]
    else if Squashes(f.tag) then Leaves(v, |v.fields|)
    else Under(f.tag, Leaves(v, |v.fields|))
  }

  function Under(tag: string, es: seq<Entry>): (r: seq<Entry>)
    ensures |r| == |es| && forall i :: 0 <= i < |es| ==> r[i] == Entry([tag] + es[i].path, es[i].value)
  {
    seq(|es|, i requires 0 <= i < |es| => Entry([tag] + es[i].path, es[i].value))
  }

  /** No tagged field on the way is a nil pointer. */
  predicate NoNil(s: Value, n: nat)
    requires s.Struct? && n <= |s.fields|
    decreases s, n
  {
    n == 0 || (NoNil(s, n - 1) && NoNilField(s, n - 1))
  }

  predicate NoNilField(s: Value, i: nat)
    requires s.Struct? && i < |s.fields|
    decreases s, i
  {
    var f := s.fields[i];
    var v := Elem(f.value);
    f.tag != "" ==> !f.value.NilPointer? && (v.Struct? ==> NoNil(v, |v.fields|))
  }

  /** Flattening panics exactly when it meets a nil pointer. */
  lemma {:induction false} PanicsOnNil(s: Value, n: nat, parents: seq<string>)
    requires s.Struct? && n <= |s.fields|
    ensures FlatFields(s, n, parents).Some? <==> NoNil(s, n)
    decreases s, n
  {
    if n > 0 {
      PanicsOnNil(s, n - 1, parents);
      var f := s.fields[n - 1];
      var v := Elem(f.value);
      if f.tag != "" && v.Struct? { PanicsOnNil(v, |v.fields|, NextParents(parents, f.tag)); }
    }
  }

  // --- every leaf has its key -------------------------------------------------------------------

  /** The keys are those of the leaves, and each holds the value of a leaf of that key. */
  ghost predicate Covers(m: Flat, parents: seq<string>, es: seq<Entry>) {
    && (forall i :: 0 <= i < |es| ==> Join(parents + es[i].path) in m)
    && (forall k :: k in m ==> exists i :: 0 <= i < |es| && Join(parents + es[i].path) == k && es[i].value == m[k])
  }

  lemma CoversBoth(m: Flat, n: Flat, parents: seq<string>, es: seq<Entry>, fs: seq<Entry>)
    requires Covers(m, parents, es) && Covers(n, parents, fs)
    ensures Covers(m + n, parents, es + fs)
  {
    var all := es + fs;
    assert forall i :: 0 <= i < |es| ==> all[i] == es[i];
    assert forall i :: 0 <= i < |fs| ==> all[|es| + i] == fs[i];
    forall k | k in m + n
      ensures exists i :: 0 <= i < |all| && Join(parents + all[i].path) == k && all[i].value == (m + n)[k]
    {
      if k in n {
        var i :| 0 <= i < |fs| && Join(parents + fs[i].path) == k && fs[i].value == n[k];
        assert all[|es| + i] == fs[i];
      } else {
        var i :| 0 <= i < |es| && Join(parents + es[i].path) == k && es[i].value == m[k];
        assert all[i] == es[i];
      }
    }
  }

  lemma CoversUnder(m: Flat, parents: seq<string>, tag: string, es: seq<Entry>)
    requires Covers(m, parents + [tag], es)
    ensures Covers(m, parents, Under(tag, es))
  {
    forall i | 0 <= i < |es| ensures parents + Under(tag, es)[i].path == parents + [tag] + es[i].path {
      assert Under(tag, es)[i].path == [tag] + es[i].path;
    }
  }

  lemma {:induction false} FlatCovers(s: Value, n: nat, parents: seq<string>)
    requires s.Struct? && n <= |s.fields| && FlatFields(s, n, parents).Some?
    ensures Covers(FlatFields(s, n, parents).value, parents, Leaves(s, n))
    decreases s, n
  {
    if n > 0 {
      FlatCovers(s, n - 1, parents);
      FieldCovers(s, n - 1, parents);
      CoversBoth(FlatFields(s, n - 1, parents).value, FlatField(s, n - 1, parents).value, parents,
                 Leaves(s, n - 1), FieldLeaves(s, n - 1));
    }
  }

  lemma {:induction false} FieldCovers(s: Value, i: nat, parents: seq<string>)
    requires s.Struct? && i < |s.fields| && FlatField(s, i, parents).Some?
    ensures Covers(FlatField(s, i, parents).value, parents, FieldLeaves(s, i))
    decreases s, i
  {
    var f := s.fields[i];
    var v := Elem(f.value);
    if f.tag != "" && v.Struct? {
      FlatCovers(v, |v.fields|, NextParents(parents, f.tag));
      if !Squashes(f.tag) {
        CoversUnder(FlatField(s, i, parents).value, parents, f.tag, Leaves(v, |v.fields|));
      }
    } else if f.tag != "" {
      assert FieldLeaves(s, i)[0] == Entry([f.tag], v);
    }
  }

  /** A struct under a tag that starts with a comma is flattened in place; through a pointer it makes no difference. */
  lemma SquashedInPlace(s: Value, i: nat, parents: seq<string>)
    requires s.Struct? && i < |s.fields|
    ensures var f := s.fields[i];
      && (f.tag == "" ==> FlatField(s, i, parents) == Some(map[]))
      && (f.tag != "" && f.value.Struct? ==>
            FlatField(s, i, parents) ==
            FlatFields(f.value, |f.value.fields|, if f.tag[0] == ',' then parents else parents + [f.tag]))
      && (f.tag != "" && f.value.Pointer? && f.value.target.Struct? ==>
            FlatField(s, i, parents) ==
            FlatFields(f.value.target, |f.value.target.fields|, if f.tag[0] == ',' then parents else parents + [f.tag]))
      && (f.tag != "" && f.value.Leaf? ==> FlatField(s, i, parents) == Some(map[Join(parents + [f.tag]) := f.value]))
  {
  }

  /** Of two fields with the same key the later one wins. */
  lemma LaterFieldsWin(s: Value, n: nat, parents: seq<string>, k: string)
    requires s.Struct? && 0 < n <= |s.fields| && FlatFields(s, n, parents).Some?
    ensures FlatFields(s, n - 1, parents).Some? && FlatField(s, n - 1, parents).Some?
    ensures var whole, before, added := FlatFields(s, n, parents).value, FlatFields(s, n - 1, parents).value,
                                        FlatField(s, n - 1, parents).value;
      && (k in whole <==> k in before || k in added)
      && (k in added ==> whole[k] == added[k]) && (k in before && k !in added ==> whole[k] == before[k])
  {
  }

  // --- no two leaves share one ------------------------------------------------------------------

  /** The first path segments below the first n fields: squashed structs count as their own fields. */
  function Heads(s: Value, n: nat): set<string>
    requires s.Struct? && n <= |s.fields|
    decreases s, n
  {
    if n == 0 then {} else Heads(s, n - 1) + FieldHeads(s, n - 1)
  }

  function FieldHeads(s: Value, i: nat): set<string>
    requires s.Struct? && i < |s.fields|
    decreases s, i
  {
    var f := s.fields[i];
    var v := Elem(f.value);
    if f.tag == "" then {} else if v.Struct? && Squashes(f.tag) then Heads(v, |v.fields|) else {f.tag}
  }

  /** Tags without dots, distinct among siblings after squashing, comma-led only on squashed structs. */
  predicate WellTagged(s: Value, n: nat)
    requires s.Struct? && n <= |s.fields|
    decreases s, n
  {
    n == 0 || (WellTagged(s, n - 1) && FieldWellTagged(s, n - 1) && Heads(s, n - 1) !! FieldHeads(s, n - 1))
  }

  predicate FieldWellTagged(s: Value, i: nat)
    requires s.Struct? && i < |s.fields|
    decreases s, i
  {
    var f := s.fields[i];
    var v := Elem(f.value);
    f.tag != "" ==>
      && SEPARATOR !in f.tag
      && (Squashes(f.tag) ==> v.Struct?)
      && (v.Struct? ==> WellTagged(v, |v.fields|))
  }

  /** Leaves under tags of their own are well tagged. */
  lemma {:induction false} DistinctLeavesAreWellTagged(s: Value, n: nat)
    requires s.Struct? && n <= |s.fields|
    requires forall i | 0 <= i < n :: s.fields[i].value.Leaf? && s.fields[i].tag != "" &&
                                      '.' !in s.fields[i].tag && s.fields[i].tag[0] != ','
    requires forall i, j | 0 <= i < j < n :: s.fields[i].tag != s.fields[j].tag
    ensures WellTagged(s, n) && Heads(s, n) == set i | 0 <= i < n :: s.fields[i].tag
  {
    if n > 0 {
      DistinctLeavesAreWellTagged(s, n - 1);
      assert Elem(s.fields[n - 1].value) == s.fields[n - 1].value;
      assert FieldHeads(s, n - 1) == {s.fields[n - 1].tag} && FieldWellTagged(s, n - 1);
    }
  }

  predicate Segmented(path: seq<string>) {
    path != [] && forall i :: 0 <= i < |path| ==> SEPARATOR !in path[i]
  }

  predicate Apart(es: seq<Entry>, heads: set<string>) {
    && (forall i :: 0 <= i < |es| ==> Segmented(es[i].path) && es[i].path[0] in heads)
    && (forall i, j :: 0 <= i < j < |es| ==> es[i].path != es[j].path)
  }

  lemma ApartBoth(es: seq<Entry>, fs: seq<Entry>, heads: set<string>, others: set<string>)
    requires Apart(es, heads) && Apart(fs, others) && heads !! others
    ensures Apart(es + fs, heads + others)
  {
    var all := es + fs;
    forall i, j | 0 <= i < j < |all| ensures all[i].path != all[j].path {
      if i < |es| <= j { assert es[i].path[0] != fs[j - |es|].path[0]; }
    }
  }

  lemma ApartUnder(tag: string, es: seq<Entry>, heads: set<string>)
    requires Apart(es, heads) && SEPARATOR !in tag
    ensures Apart(Under(tag, es), {tag})
  {
    var under := Under(tag, es);
    forall i | 0 <= i < |es| ensures under[i].path[1..] == es[i].path && Segmented(under[i].path) {
      assert forall k :: 0 < k < |under[i].path| ==> under[i].path[k] == es[i].path[k - 1];
    }
    forall i, j | 0 <= i < j < |es| ensures under[i].path != under[j].path {
      assert under[i].path[1..] != under[j].path[1..];
    }
  }

  lemma {:induction false} LeavesAreApart(s: Value, n: nat)
    requires s.Struct? && n <= |s.fields| && WellTagged(s, n)
    ensures Apart(Leaves(s, n), Heads(s, n))
    decreases s, n
  {
    if n > 0 {
      LeavesAreApart(s, n - 1);
      FieldLeavesAreApart(s, n - 1);
      ApartBoth(Leaves(s, n - 1), FieldLeaves(s, n - 1), Heads(s, n - 1), FieldHeads(s, n - 1));
    }
  }

  lemma {:induction false} FieldLeavesAreApart(s: Value, i: nat)
    requires s.Struct? && i < |s.fields| && FieldWellTagged(s, i)
    ensures Apart(FieldLeaves(s, i), FieldHeads(s, i))
    decreases s, i
  {
    var f := s.fields[i];
    var v := Elem(f.value);
    if f.tag != "" && v.Struct? {
      LeavesAreApart(v, |v.fields|);
      if !Squashes(f.tag) { ApartUnder(f.tag, Leaves(v, |v.fields|), Heads(v, |v.fields|)); }
    }
  }

  /** Dot-free segments can be read back from what joins them. */
  lemma {:induction false} JoinIsInjective(p: seq<string>, q: seq<string>)
    requires Segmented(p) && Segmented(q) && Join(p) == Join(q)
    ensures p == q
  {
    JoinStarts(p);
    JoinStarts(q);
    if |p| > 1 && |q| > 1 {
      SplitAtFirst(p[0], Join(p[1..]), q[0], Join(q[1..]));
      JoinIsInjective(p[1..], q[1..]);
      assert p == [p[0]] + p[1..] && q == [q[0]] + q[1..];
    }
  }

  lemma JoinStarts(p: seq<string>)
    requires Segmented(p)
    ensures |p| == 1 <==> SEPARATOR !in Join(p)
  {
    if |p| > 1 { assert Join(p)[|p[0]|] == SEPARATOR; }
  }

  function FirstDot(s: string): nat {
    if s == "" || s[0] == SEPARATOR then 0 else 1 + FirstDot(s[1..])
  }

  lemma {:induction false} FirstDotAfter(a: string, rest: string)
    requires SEPARATOR !in a
    ensures FirstDot(a + [SEPARATOR] + rest) == |a|
  {
    if a != "" {
      assert (a + [SEPARATOR] + rest)[1..] == a[1..] + [SEPARATOR] + rest;
      FirstDotAfter(a[1..], rest);
    }
  }

  lemma SplitAtFirst(a: string, rest: string, b: string, other: string)
    requires SEPARATOR !in a && SEPARATOR !in b && a + [SEPARATOR] + rest == b + [SEPARATOR] + other
    ensures a == b && rest == other
  {
    hide FirstDot;
    var x, y := a + [SEPARATOR] + rest, b + [SEPARATOR] + other;
    FirstDotAfter(a, rest);
    FirstDotAfter(b, other);
    assert a == x[..|a|] && b == y[..|b|];
    assert rest == x[|a| + 1..] && other == y[|b| + 1..];
  }

  ghost predicate OneEntryEach(m: Flat, es: seq<Entry>) {
    && (forall i :: 0 <= i < |es| ==> Join(es[i].path) in m && m[Join(es[i].path)] == es[i].value)
    && (forall i, j :: 0 <= i < j < |es| ==> Join(es[i].path) != Join(es[j].path))
    && (forall k :: k in m ==> exists i :: 0 <= i < |es| && Join(es[i].path) == k)
  }

  /** Each tagged leaf has its own entry, under its dotted path, and there are no others. */
  lemma FlatteningLosesNothing(s: Value)
    requires s.Struct? && WellTagged(s, |s.fields|) && NoNil(s, |s.fields|)
    ensures FlatFields(s, |s.fields|, []).Some?
    ensures OneEntryEach(FlatFields(s, |s.fields|, []).value, Leaves(s, |s.fields|))
  {
    PanicsOnNil(s, |s.fields|, []);
    FlatCovers(s, |s.fields|, []);
    LeavesAreApart(s, |s.fields|);
    OwnKeys(FlatFields(s, |s.fields|, []).value, Leaves(s, |s.fields|), Heads(s, |s.fields|));
  }

  lemma OwnKeys(m: Flat, es: seq<Entry>, heads: set<string>)
    requires Covers(m, [], es) && Apart(es, heads)
    ensures OneEntryEach(m, es)
  {
    hide Join, Segmented;
    assert forall i :: 0 <= i < |es| ==> [] + es[i].path == es[i].path;
    forall i, j | 0 <= i < j < |es| ensures Join(es[i].path) != Join(es[j].path) {
      if Join(es[i].path) == Join(es[j].path) { JoinIsInjective(es[i].path, es[j].path); }
    }
  }

  // --- flattening under parents --------------------------------------------------------------------

  predicate Prefixed(p: string, m: Flat, n: Flat) {
    && (forall k :: k in m ==> p + k in n && n[p + k] == m[k])
    && (forall k :: k in n ==> p <= k && k[|p|..] in m)
  }

  ghost predicate BothPrefixed(p: string, m: Option<Flat>, n: Option<Flat>) {
    if m.None? then n.None? else n.Some? && Prefixed(p, m.value, n.value)
  }

  lemma PrefixedMerge(p: string, m: Flat, n: Flat, m': Flat, n': Flat)
    requires Prefixed(p, m, n) && Prefixed(p, m', n')
    ensures Prefixed(p, m + m', n + n')
  {
    forall k | k in m + m' ensures p + k in n + n' && (n + n')[p + k] == (m + m')[k] {
      if p + k in n' { assert (p + k)[|p|..] == k; }
    }
  }

  lemma {:induction false} JoinBoth(a: seq<string>, b: seq<string>)
    requires a != [] && b != []
    ensures Join(a + b) == Join(a) + "." + Join(b)
  {
    assert (a + b)[1..] == a[1..] + b;
    if |a| > 1 {
      JoinBoth(a[1..], b);
      Associative(a[0] + [SEPARATOR], Join(a[1..]), [SEPARATOR], Join(b));
    } else {
      assert a[1..] + b == b;
    }
  }

  lemma Associative(a: string, b: string, c: string, d: string)
    ensures a + (b + c + d) == a + b + c + d
  {
  }

  /** Flattening under parents gives the same entries, with every key prefixed. */
  lemma {:induction false} ParentsPrefix(s: Value, n: nat, a: seq<string>, b: seq<string>)
    requires s.Struct? && n <= |s.fields| && a != []
    ensures BothPrefixed(Join(a) + [SEPARATOR], FlatFields(s, n, b), FlatFields(s, n, a + b))
    decreases s, n
  {
    if n > 0 {
      ParentsPrefix(s, n - 1, a, b);
      ParentsPrefixField(s, n - 1, a, b);
      var m, m' := FlatFields(s, n - 1, b), FlatField(s, n - 1, b);
      if m.Some? && m'.Some? {
        PrefixedMerge(Join(a) + [SEPARATOR], m.value, FlatFields(s, n - 1, a + b).value,
                      m'.value, FlatField(s, n - 1, a + b).value);
      }
    }
  }

  lemma {:induction false} ParentsPrefixField(s: Value, i: nat, a: seq<string>, b: seq<string>)
    requires s.Struct? && i < |s.fields| && a != []
    ensures BothPrefixed(Join(a) + [SEPARATOR], FlatField(s, i, b), FlatField(s, i, a + b))
    decreases s, i
  {
    var f := s.fields[i];
    var v := Elem(f.value);
    assert a + b + [f.tag] == a + (b + [f.tag]);
    if f.tag != "" && v.Struct? {
      ParentsPrefix(v, |v.fields|, a, NextParents(b, f.tag));
    } else if f.tag != "" {
      JoinBoth(a, b + [f.tag]);
      var p, k := Join(a) + [SEPARATOR], Join(b + [f.tag]);
      assert (p + k)[|p|..] == k;
    }
  }
}
