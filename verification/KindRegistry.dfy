/**
 The registry of kinds: two indexes filled by Register, which panics half way
 through when an identifier is taken.
 */
module KindRegistry {
  import opened Prelude
  import opened Kinds

  datatype Identity = Identity(code: string, name: string)

  function IdentityOf(k: Kind): Identity
    reads k
  {
    Identity(k.code, k.name)
  }

  function Identities(ks: seq<Kind>): (ids: seq<Identity>)
    reads ks
    ensures |ids| == |ks| && forall i :: 0 <= i < |ks| ==> ids[i] == IdentityOf(ks[i])
  {
    if ks == [] then [] else Identities(ks[..|ks| - 1]) + [IdentityOf(ks[|ks| - 1])]
  }

  /** Neither taken already nor twice in the list. */
  predicate AllNew(codes: set<string>, names: set<string>, ids: seq<Identity>) {
    && (forall i :: 0 <= i < |ids| ==> ids[i].code !in codes && ids[i].name !in names)
    && (forall i, j :: 0 <= i < j < |ids| ==> ids[i].code != ids[j].code && ids[i].name != ids[j].name)
  }

  function WithCodes(m: map<string, Kind>, ks: seq<Kind>): map<string, Kind>
    reads ks
  {
    if ks == [] then m else WithCodes(m, ks[..|ks| - 1])[ks[|ks| - 1].code := ks[|ks| - 1]]
  }

  function WithNames(m: map<string, Kind>, ks: seq<Kind>): map<string, Kind>
    reads ks
  {
    if ks == [] then m else WithNames(m, ks[..|ks| - 1])[ks[|ks| - 1].name := ks[|ks| - 1]]
  }

  class Registry {
    var codes: map<string, Kind>
    var names: map<string, Kind>

    constructor ()
      ensures codes == names == map[]
    {
      codes, names := map[], map[];
    }

    predicate Coherent()
      reads this, codes.Values, names.Values
    {
      Matching(codes, names)
    }

    /** Register: the kinds before the first clash are in, that one and the rest are not. */
    method Register(kinds: seq<Kind>) returns (registered: nat, panicked: bool)
      requires Coherent()
      modifies this
      ensures Coherent()
      ensures registered <= |kinds| && panicked == (registered < |kinds|)
      ensures codes == WithCodes(old(codes), kinds[..registered])
      ensures names == WithNames(old(names), kinds[..registered])
      ensures AllNew(old(codes).Keys, old(names).Keys, Identities(kinds[..registered]))
      ensures panicked ==> !AllNew(old(codes).Keys, old(names).Keys, Identities(kinds[..registered + 1]))
    {
      hide Matching, AllNew, WithCodes, WithNames;
      registered := 0;
      NothingAdded(codes, names);
      while registered < |kinds|
        invariant registered <= |kinds| && Matching(codes, names)
        invariant codes == WithCodes(old(codes), kinds[..registered])
        invariant names == WithNames(old(names), kinds[..registered])
        invariant AllNew(old(codes).Keys, old(names).Keys, Identities(kinds[..registered]))
      {
        var kind := kinds[registered];
        OneMore(old(codes), old(names), kinds, registered);
        if kind.code in codes || kind.name in names { return registered, true; }
        AddingKeepsMatching(codes, names, kind);
        codes := codes[kind.code := kind];
        names := names[kind.name := kind];
        registered := registered + 1;
      }
      return registered, false;
    }

    method LookupByCode(code: string) returns (kind: Kind?)
      requires Coherent()
      ensures kind == null <==> code !in codes
      ensures kind != null ==> kind.code == code && kind.name in names && names[kind.name] == kind
    {
      if code in codes { kind := codes[code]; } else { kind := null; }
    }
  }

  /** Both indexes hold the same kinds, each kind under its own code and its own name. */
  predicate Matching(codes: map<string, Kind>, names: map<string, Kind>)
    reads codes.Values, names.Values
  {
    && (forall c :: c in codes ==>
          codes[c].code == c && codes[c].name in names && names[codes[c].name] == codes[c])
    && (forall n :: n in names ==>
          names[n].name == n && names[n].code in codes && codes[names[n].code] == names[n])
  }

  /** So neither index holds a kind the other does not, or one kind twice. */
  lemma MatchingIsBijective(codes: map<string, Kind>, names: map<string, Kind>)
    requires Matching(codes, names)
    ensures codes.Values == names.Values
    ensures forall c, d :: c in codes && d in codes && codes[c] == codes[d] ==> c == d
    ensures forall n, m :: n in names && m in names && names[n] == names[m] ==> n == m
  {
    forall k | k in codes.Values ensures k in names.Values {
      var c :| c in codes && codes[c] == k;
      assert names[codes[c].name] == k;
    }
    forall k | k in names.Values ensures k in codes.Values {
      var n :| n in names && names[n] == k;
      assert codes[names[n].code] == k;
    }
  }

  lemma AddingKeepsMatching(codes: map<string, Kind>, names: map<string, Kind>, k: Kind)
    requires Matching(codes, names) && k.code !in codes && k.name !in names
    ensures Matching(codes[k.code := k], names[k.name := k])
  {
  }

  lemma NothingAdded(codes: map<string, Kind>, names: map<string, Kind>)
    ensures WithCodes(codes, []) == codes && WithNames(names, []) == names
    ensures AllNew(codes.Keys, names.Keys, Identities([]))
  {
  }

  lemma {:induction false} InWith(codes: map<string, Kind>, names: map<string, Kind>, ks: seq<Kind>, s: string)
    ensures s in WithCodes(codes, ks) <==> s in codes || exists i :: 0 <= i < |ks| && ks[i].code == s
    ensures s in WithNames(names, ks) <==> s in names || exists i :: 0 <= i < |ks| && ks[i].name == s
  {
    if ks != [] { InWith(codes, names, ks[..|ks| - 1], s); }
  }

  /** The next kind extends the indexes, and clashes exactly when it is found in one. */
  lemma OneMore(codes: map<string, Kind>, names: map<string, Kind>, ks: seq<Kind>, n: nat)
    requires n < |ks| && AllNew(codes.Keys, names.Keys, Identities(ks[..n]))
    ensures WithCodes(codes, ks[..n + 1]) == WithCodes(codes, ks[..n])[ks[n].code := ks[n]]
    ensures WithNames(names, ks[..n + 1]) == WithNames(names, ks[..n])[ks[n].name := ks[n]]
    ensures ks[n].code !in WithCodes(codes, ks[..n]) && ks[n].name !in WithNames(names, ks[..n]) <==>
            AllNew(codes.Keys, names.Keys, Identities(ks[..n + 1]))
  {
    hide AllNew;
    var before, x := Identities(ks[..n]), IdentityOf(ks[n]);
    assert ks[..n + 1][..n] == ks[..n];
    NewOne(codes.Keys, names.Keys, before, x);
    InWith(codes, names, ks[..n], x.code);
    InWith(codes, names, ks[..n], x.name);
    assert forall i :: 0 <= i < n ==> before[i] == IdentityOf(ks[i]);
  }

  lemma NewOne(codes: set<string>, names: set<string>, ids: seq<Identity>, x: Identity)
    requires AllNew(codes, names, ids)
    ensures AllNew(codes, names, ids + [x]) <==>
            && x.code !in codes && x.name !in names
            && (forall i :: 0 <= i < |ids| ==> ids[i].code != x.code && ids[i].name != x.name)
  {
    var all := ids + [x];
    assert all[|ids|] == x;
    assert forall i :: 0 <= i < |ids| ==> all[i] == ids[i];
  }
}
