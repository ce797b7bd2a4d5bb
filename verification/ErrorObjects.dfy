/**
 The errors package on the heap.  Building and propagating errors allocates; no
 method here has a kind in its frame, so no registered kind ever changes.
 */
module ErrorObjects {
  import opened Prelude
  import opened Kinds
  import opened StatusKinds
  import opened ErrorChains

  /** A Go error interface value: a bare code, or foreign errors (their texts) around at most one of ours. */
  datatype Err = Bare(code: string) | Err(texts: seq<string>, e: ErrorT?)

  const NIL := Err([], null)

  /** err.(*ErrorT) succeeds: only on a direct ErrorT. */
  predicate IsOwn(err: Err) {
    err.Err? && err.texts == [] && err.e != null
  }

  function Heads(err: Err): set<object> {
    if err.Err? && err.e != null then {err.e} else {}
  }

  ghost function Below(err: Err): set<object>
    reads Heads(err)
  {
    if err.Err? && err.e != null then err.e.repr else {}
  }

  ghost predicate Sound(err: Err)
    reads Heads(err), Below(err)
    decreases Below(err), 1
  {
    err.Err? && err.e != null ==> err.e.Valid()
  }

  ghost function ValueOf(err: Err): Option<Fault>
    requires Sound(err)
    reads Heads(err), Below(err)
    decreases Below(err), 1
  {
    if err.Bare? then Some(Headless(err.code))
    else Around(err.texts, if err.e == null then None else Some(err.e.Value()))
  }

  function Around(texts: seq<string>, inner: Option<Fault>): Option<Fault> {
    if texts == [] then inner else Some(Foreign(texts[0], Around(texts[1..], inner)))
  }

  class ErrorT {
    var kind: Kind
    var message: string
    var cause: Err
    var origin: Err
    var details: Details
    var trace: seq<string>
    ghost var repr: set<object>

    ghost predicate Valid()
      reads this, repr
      decreases repr, 0
    {
      && this in repr && kind in repr && kind.lineage <= repr && kind.Valid()
      && Heads(cause) <= repr && Below(cause) <= repr - {this} && Sound(cause)
      && Heads(origin) <= repr && Below(origin) <= repr - {this} && Sound(origin)
    }

    ghost function Value(): (v: Fault)
      requires Valid()
      reads this, repr
      ensures v.Garlic?
      decreases repr, 0
    {
      Garlic(kind.Value(), message, ValueOf(cause), ValueOf(origin), details, trace)
    }

    /** newErrorT */
    constructor (kind: Kind, message: string, origin: Err)
      requires kind.Valid() && Sound(origin)
      ensures Sound(origin) && Valid() && fresh(this) && Value() == Fresh(kind.Value(), message, ValueOf(origin))
      ensures cause == NIL && repr == {this, kind} + kind.lineage + Heads(origin) + Below(origin)
    {
      this.kind, this.message, this.cause, this.origin := kind, message, NIL, origin;
      this.details, this.trace := Some(map[]), [];
      this.repr := {this, kind} + kind.lineage + Heads(origin) + Below(origin);
    }

    /** wrap, which touches this error only; the kind it may end up with is a copy. */
    method Wrap(other: Err)
      requires Valid() && cause == NIL && origin == NIL && Sound(other) && other != NIL && this !in Below(other)
      modifies this
      ensures Sound(other) && Valid() && ValueOf(other).Some?
      ensures Value() == Wrapped(old(Value()), ValueOf(other).value)
    {
      hide Kind.Value, Kind.Valid;
      if IsOwn(other) { CarryOver(other.e); }
      cause := other;
      repr := {this, kind} + kind.lineage + Heads(other) + Below(other);
    }

    /** What an ErrorT cause hands outward: details, trace and a pinned status. */
    method CarryOver(o: ErrorT)
      requires Valid() && cause == NIL && origin == NIL && o.Valid() && o != this
      modifies this`details, this`trace, this`kind, this`repr
      ensures Valid() && repr == {this, kind} + kind.lineage
      ensures details == o.details && trace == o.trace
      ensures kind.Value() == Inherited(old(kind.Value()), o.kind.Value())
    {
      details := o.details;
      trace := o.trace;
      InheritStatusCustomization(o.kind);
    }

    method InheritStatusCustomization(from: Kind)
      requires Valid() && cause == NIL && origin == NIL && from.Valid()
      modifies this`kind, this`repr
      ensures Valid() && kind.Value() == Inherited(old(kind.Value()), from.Value())
      ensures repr == {this, kind} + kind.lineage
    {
      if from.custom && !kind.custom {
        kind := kind.CustomizeStatusCode(from.httpStatus);
      }
      repr := {this, kind} + kind.lineage;
    }

    method Apply(opt: Opt)
      requires Valid() && (opt.Hint? ==> details.Some?)
      modifies this`details, this`trace
      ensures Valid() && Value() == Applied(old(Value()), opt)
    {
      match opt
      case Detail(entries) => details := Some(if details.None? then entries else details.value + entries);
      case Hint(text) => details := Some(details.value[HINT := text]);
      case Trace(entry) => trace := trace + [entry];
    }

    method With(opts: seq<Opt>)
      requires Valid() && Applicable(details, opts)
      modifies this`details, this`trace
      ensures Valid() && Value() == ErrorChains.With(old(Value()), opts)
    {
      var i := 0;
      assert opts[..0] == [];
      while i < |opts|
        invariant 0 <= i <= |opts| && Valid()
        invariant Value() == ErrorChains.With(old(Value()), opts[..i])
        invariant old(details).Some? || (exists k :: 0 <= k < i && opts[k].Detail?) ==> details.Some?
      {
        ApplicableAt(old(details), opts, i);
        assert opts[..i + 1][..i] == opts[..i];
        Apply(opts[i]);
        i := i + 1;
      }
      assert opts[..i] == opts;
    }
  }

  lemma {:induction false} ApplicableAt(details: Details, opts: seq<Opt>, i: nat)
    requires i < |opts| && Applicable(details, opts)
    ensures opts[i].Hint? ==> details.Some? || exists k :: 0 <= k < i && opts[k].Detail?
  {
    if i < |opts| - 1 {
      ApplicableAt(details, opts[..|opts| - 1], i);
    }
  }

  lemma TracingIsApplicable(details: Details, opts: seq<Opt>, at: string)
    requires Applicable(details, opts)
    ensures Applicable(details, opts + [Trace(at)])
  {
    assert (opts + [Trace(at)])[..|opts|] == opts;
  }

  /** From; a nil error stays nil, and nothing at all is changed. */
  method From(kind: Kind, err: Err, message: string, opts: seq<Opt>) returns (r: Err)
    requires kind.Valid() && Sound(err) && Applicable(if IsOwn(err) then err.e.details else Some(map[]), opts)
    ensures err == NIL ==> r == NIL
    ensures err != NIL ==>
              && IsOwn(r) && fresh(r.e) && Sound(r) && Sound(err) && ValueOf(err).Some?
              && ValueOf(r) == Some(ErrorChains.From(old(kind.Value()), ValueOf(err).value, message, opts))
  {
    hide ErrorChains.With, Applicable, Inherited, Kind.Value, Kind.Valid;
    if err == NIL { return NIL; }
    var e := new ErrorT(kind, message, NIL);
    e.Wrap(err);
    e.With(opts);
    r := Err([], e);
  }

  method PropagateAs(kind: Kind, err: Err, message: string, opts: seq<Opt>, at: string) returns (r: Err)
    requires kind.Valid() && Sound(err)
    requires Applicable(if IsOwn(err) then err.e.details else Some(map[]), opts)
    ensures err == NIL ==> r == NIL
    ensures err != NIL ==>
              && IsOwn(r) && fresh(r.e) && Sound(r) && Sound(err) && ValueOf(err).Some?
              && ValueOf(r) == Some(Linked(ByPropagateAs(old(kind.Value()), message, opts, at), ValueOf(err).value))
  {
    hide ErrorChains.With, Applicable, Wrapped;
    if err == NIL { return NIL; }
    TracingIsApplicable(if IsOwn(err) then err.e.details else Some(map[]), opts, at);
    r := From(kind, err, message, opts + [Trace(at)]);
  }

  /** Propagate; kindError is the package's KindError. */
  method Propagate(kindError: Kind, err: Err, message: string, opts: seq<Opt>, at: string) returns (r: Err)
    requires kindError.Valid() && kindError.Value() == ERROR && Sound(err)
    requires Applicable(if IsOwn(err) then err.e.details else Some(map[]), opts)
    ensures err == NIL ==> r == NIL
    ensures err != NIL ==>
              && IsOwn(r) && fresh(r.e) && Sound(r) && Sound(err) && ValueOf(err).Some?
              && ValueOf(r) == Some(Linked(ByPropagate(message, opts, at), ValueOf(err).value))
  {
    if err == NIL { return NIL; }
    var kind := if IsOwn(err) then err.e.kind else kindError;
    r := PropagateAs(kind, err, message, opts, at);
  }

  class TemplateT {
    var kind: Kind
    var message: string
    var opts: seq<Opt>

    constructor (kind: Kind, message: string, opts: seq<Opt>)
      ensures this.kind == kind && this.message == message && this.opts == opts
    {
      this.kind, this.message, this.opts := kind, message, opts;
    }

    /** The template's options first, so that the caller's win. */
    method Propagate(err: Err, callers: seq<Opt>, at: string) returns (r: Err)
      requires kind.Valid() && Sound(err)
      requires Applicable(if IsOwn(err) then err.e.details else Some(map[]), opts + callers)
      ensures err == NIL ==> r == NIL
      ensures err != NIL ==>
                && IsOwn(r) && fresh(r.e) && Sound(r) && Sound(err) && ValueOf(err).Some?
                && ValueOf(r) ==
                   Some(Linked(ByTemplate(old(kind.Value()), message, opts, callers, at), ValueOf(err).value))
    {
      hide ErrorChains.With, Applicable, Wrapped;
      if err == NIL { return NIL; }
      r := PropagateAs(kind, err, message, opts + callers, at);
    }
  }

  lemma NilHasNoValue(err: Err)
    requires Sound(err)
    ensures ValueOf(err).None? <==> err == NIL
  {
  }

  /** One step of errors.Unwrap. */
  function Unwrap(err: Err): Err
    reads Heads(err)
  {
    if err.Bare? then NIL
    else if err.texts != [] then Err(err.texts[1..], err.e)
    else if err.e != null then err.e.cause
    else NIL
  }

  /** Below the links, Unwrap is the cause. */
  lemma UnwrapIsCause(err: Err)
    requires Sound(err) && err != NIL
    ensures ValueOf(err).Some? && Sound(Unwrap(err))
    ensures ValueOf(Unwrap(err)) == if err.Bare? then None else ValueOf(err).value.cause
    ensures ValueOf(err).value.Garlic? <==> IsOwn(err)
    ensures IsOwn(err) ==> ValueOf(err) == Some(err.e.Value()) && Below(Unwrap(err)) < Below(err)
    ensures !IsOwn(err) ==> Below(Unwrap(err)) <= Below(err)
  {
    if IsOwn(err) {
      assert err.e.Valid() && err.e in Below(err) && err.e !in Below(err.e.cause);
    }
  }

  ghost function FirstOfKind(err: Err, code: string): Option<Fault>
    requires Sound(err)
    reads Heads(err), Below(err)
  {
    if ValueOf(err).None? then None else ErrorChains.AsKind(ValueOf(err).value, code)
  }

  ghost function FirstOrigin(err: Err): Option<Fault>
    requires Sound(err)
    reads Heads(err), Below(err)
  {
    if ValueOf(err).None? then None else ErrorChains.Origin(ValueOf(err).value)
  }

  method AsKind(err: Err, kind: Kind) returns (found: ErrorT?)
    requires Sound(err) && kind.Valid()
    ensures found != null ==> found.Valid()
    ensures FirstOfKind(err, kind.code) == if found == null then None else Some(found.Value())
  {
    hide ErrorT.Valid, ErrorT.Value;
    var current := err;
    while current != NIL
      invariant Sound(current) && FirstOfKind(err, kind.code) == FirstOfKind(current, kind.code)
      decreases Below(current), if current.Err? then |current.texts| else 0, current != NIL
    {
      UnwrapIsCause(current);
      if IsOwn(current) {
        SoundIsValid(current);
        var yes := current.e.kind.Is(kind);
        if yes { return current.e; }
      }
      current := Unwrap(current);
    }
    NilHasNoValue(NIL);
    found := null;
  }

  method Origin(err: Err) returns (origin: Err)
    requires Sound(err)
    ensures Sound(origin) && ValueOf(origin) == FirstOrigin(err)
  {
    hide ErrorT.Valid, ErrorT.Value;
    var current := err;
    while current != NIL
      invariant Sound(current) && FirstOrigin(err) == FirstOrigin(current)
      decreases Below(current), if current.Err? then |current.texts| else 0, current != NIL
    {
      UnwrapIsCause(current);
      if IsOwn(current) {
        SoundIsValid(current);
        NilHasNoValue(current.e.origin);
        if current.e.origin != NIL { return current.e.origin; }
      }
      current := Unwrap(current);
    }
    NilHasNoValue(NIL);
    origin := NIL;
  }

  lemma SoundIsValid(err: Err)
    requires IsOwn(err) && Sound(err)
    ensures err.e.Valid() && err.e.kind.Valid() && Sound(err.e.origin)
    ensures err.e.Value().Garlic? && err.e.Value().kind == err.e.kind.Value()
    ensures err.e.Value().origin == ValueOf(err.e.origin)
  {
  }
}
