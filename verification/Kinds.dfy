/**
 Error kinds: a hierarchy of heap objects linked by parent, read by walking up.
 The value of a kind is what every walk from it can see; what is promised about
 kinds is said about values, and the methods on the objects are proved to agree.
 */
module Kinds {
  import opened Prelude

  datatype KindValue = KindValue(
    name: string, code: string, description: string, status: int, custom: bool, parent: Option<KindValue>)

  const INTERNAL_SERVER_ERROR := 500

  /** The nearest status defined on the way up. */
  function StatusOf(k: KindValue): int {
    if k.status != 0 then k.status
    else if k.parent.Some? then StatusOf(k.parent.value)
    else INTERNAL_SERVER_ERROR
  }

  predicate IsA(k: KindValue, code: string) {
    k.code == code || (k.parent.Some? && IsA(k.parent.value, code))
  }

  function Fqn(k: KindValue): string {
    if k.parent.None? then k.name else k.name + "::" + Fqn(k.parent.value)
  }

  function Customized(k: KindValue, status: int): KindValue {
    if status <= 0 then k else k.(status := status, custom := true)
  }

  /** A pinned status is a real one: only CustomizeStatusCode pins, and only positive codes. */
  predicate PinsAreReal(k: KindValue) {
    k.custom ==> k.status > 0
  }

  /** A customized kind answers as before, except for its status. */
  lemma CustomizingKeepsIdentity(k: KindValue, status: int, code: string)
    ensures Customized(k, status).code == k.code && Fqn(Customized(k, status)) == Fqn(k)
    ensures Customized(k, status).description == k.description
    ensures IsA(Customized(k, status), code) == IsA(k, code)
    ensures status > 0 ==> StatusOf(Customized(k, status)) == status && Customized(k, status).custom
    ensures PinsAreReal(k) ==> PinsAreReal(Customized(k, status))
    ensures status <= 0 ==> Customized(k, status) == k
  {
    assert k.parent == Customized(k, status).parent;
  }

  // --- the same by ancestors ------------------------------------------------------------------

  /** The n-th kind on the way up, the kind itself being the first. */
  function Ancestor(k: KindValue, n: nat): Option<KindValue> {
    if n == 0 then Some(k) else if k.parent.None? then None else Ancestor(k.parent.value, n - 1)
  }

  /** The n-th kind on the way up is the nearest to define a status, and it is this one. */
  predicate Defines(k: KindValue, n: nat, status: int) {
    && Ancestor(k, n).Some? && Ancestor(k, n).value.status == status != 0
    && forall m: nat | m < n :: Ancestor(k, m).Some? && Ancestor(k, m).value.status == 0
  }

  predicate DefinesNone(k: KindValue, n: nat) {
    Ancestor(k, n).Some? ==> Ancestor(k, n).value.status == 0
  }

  lemma OwnIsNearest(k: KindValue, n: nat, status: int)
    requires Defines(k, n, status)
    ensures k.status != 0 ==> n == 0
  {
    assert n > 0 ==> Ancestor(k, 0).value.status == 0;
  }

  /** The status is that of the nearest ancestor that has one, and 500 when none has. */
  lemma {:induction false} StatusIsInherited(k: KindValue, status: int)
    ensures StatusOf(k) == status <==>
            (exists n: nat :: Defines(k, n, status)) || (status == 500 && forall n: nat :: DefinesNone(k, n))
  {
    assert Ancestor(k, 0) == Some(k);
    if k.status != 0 {
      assert Defines(k, 0, k.status);
      assert !DefinesNone(k, 0);
      forall n: nat | Defines(k, n, status) ensures n == 0 { OwnIsNearest(k, n, status); }
    } else if k.parent.Some? {
      var up := k.parent.value;
      StatusIsInherited(up, status);
      forall n: nat ensures Defines(up, n, status) ==> Defines(k, n + 1, status) {
        if Defines(up, n, status) {
          forall m: nat | m < n + 1 ensures Ancestor(k, m).Some? && Ancestor(k, m).value.status == 0 {
            if m > 0 { assert Ancestor(k, m) == Ancestor(up, m - 1); }
          }
        }
      }
      forall n: nat | Defines(k, n, status) ensures n > 0 && Defines(up, n - 1, status) {
        forall m: nat | m < n - 1 ensures Ancestor(up, m).Some? && Ancestor(up, m).value.status == 0 {
          assert Ancestor(k, m + 1) == Ancestor(up, m);
        }
      }
      forall n: nat ensures DefinesNone(k, n + 1) <==> DefinesNone(up, n) {}
      if forall n: nat :: DefinesNone(up, n) {
        forall n: nat ensures DefinesNone(k, n) { if n > 0 { assert DefinesNone(up, n - 1); } }
      }
      if forall n: nat :: DefinesNone(k, n) {
        forall n: nat ensures DefinesNone(up, n) { assert DefinesNone(k, n + 1); }
      }
    }
  }

  predicate CarriesAt(k: KindValue, n: nat, code: string) {
    Ancestor(k, n).Some? && Ancestor(k, n).value.code == code
  }

  /** A kind matches another exactly when one of its ancestors carries that code. */
  lemma {:induction false} MatchingIsByAncestor(k: KindValue, code: string)
    ensures IsA(k, code) <==> exists n: nat :: CarriesAt(k, n, code)
  {
    assert CarriesAt(k, 0, code) <==> k.code == code;
    if k.parent.Some? {
      var up := k.parent.value;
      MatchingIsByAncestor(up, code);
      forall n: nat ensures CarriesAt(k, n + 1, code) <==> CarriesAt(up, n, code) {}
      if exists n: nat :: CarriesAt(up, n, code) {
        var n: nat :| CarriesAt(up, n, code);
        assert CarriesAt(k, n + 1, code);
      }
      if exists n: nat :: CarriesAt(k, n, code) {
        var n: nat :| CarriesAt(k, n, code);
        assert n == 0 || CarriesAt(up, n - 1, code);
      }
    } else {
      forall n: nat ensures CarriesAt(k, n, code) ==> n == 0 {}
    }
  }

  function Spelled(names: seq<string>): string {
    if names == [] then "" else if |names| == 1 then names[0] else names[0] + "::" + Spelled(names[1..])
  }

  /** The FQN spells the names of all ancestors, from the kind's own up to the root's. */
  lemma {:induction false} FqnSpellsAncestry(k: KindValue) returns (names: seq<string>)
    ensures forall n: nat :: n < |names| <==> Ancestor(k, n).Some?
    ensures forall n: nat :: n < |names| ==> names[n] == Ancestor(k, n).value.name
    ensures Fqn(k) == Spelled(names) && names != []
  {
    if k.parent.None? {
      names := [k.name];
    } else {
      var up := FqnSpellsAncestry(k.parent.value);
      names := [k.name] + up;
      assert names[1..] == up;
    }
  }

  class Kind {
    var name: string
    var code: string
    var description: string
    var httpStatus: int
    var custom: bool
    var parent: Kind?
    ghost var lineage: set<Kind>   // this kind and all above it

    ghost predicate Valid()
      reads this, lineage
      decreases lineage
    {
      && this in lineage
      && (parent != null ==>
            parent in lineage && parent.lineage <= lineage - {this} && parent.Valid())
    }

    ghost function Value(): KindValue
      requires Valid()
      reads this, lineage
      decreases lineage
    {
      KindValue(name, code, description, httpStatus, custom,
                if parent == null then None else Some(parent.Value()))
    }

    constructor (name: string, code: string, description: string, httpStatus: int, parent: Kind?)
      requires parent != null ==> parent.Valid()
      ensures Valid() && fresh(this) && lineage == {this} + if parent == null then {} else parent.lineage
      ensures Value() == KindValue(name, code, description, httpStatus, false,
                                   if parent == null then None else Some(parent.Value()))
    {
      this.name, this.code, this.description, this.httpStatus := name, code, description, httpStatus;
      this.custom, this.parent := false, parent;
      new;
      lineage := {this} + if parent == null then {} else parent.lineage;
    }

    method StatusCode() returns (status: int)
      requires Valid()
      ensures status == StatusOf(Value())
    {
      var current: Kind? := this;
      while current != null
        invariant current != null ==> current.Valid()
        invariant StatusOf(Value()) == if current == null then INTERNAL_SERVER_ERROR else StatusOf(current.Value())
        decreases if current == null then {} else current.lineage
      {
        if current.httpStatus != 0 { return current.httpStatus; }
        current := current.parent;
      }
      status := INTERNAL_SERVER_ERROR;
    }

    method Is(other: Kind) returns (yes: bool)
      requires Valid()
      ensures yes <==> IsA(Value(), other.code)
    {
      var current: Kind? := this;
      while current != null
        invariant current != null ==> current.Valid()
        invariant IsA(Value(), other.code) <==> current != null && IsA(current.Value(), other.code)
        decreases if current == null then {} else current.lineage
      {
        if current.code == other.code { return true; }
        current := current.parent;
      }
      yes := false;
    }

    method FQN() returns (fqn: string)
      requires Valid()
      ensures fqn == Fqn(Value())
      decreases lineage
    {
      if parent == null { return name; }
      var rest := parent.FQN();
      fqn := name + "::" + rest;
    }

    /** Without a modifies clause: the receiver and every other kind stay as they are. */
    method CustomizeStatusCode(code: int) returns (k: Kind)
      requires Valid()
      ensures k.Valid() && k.Value() == Customized(Value(), code)
      ensures if code <= 0 then k == this else fresh(k)
    {
      if code <= 0 { return this; }
      k := new Kind(name, this.code, description, code, parent);
      k.custom := true;
    }
  }
}
