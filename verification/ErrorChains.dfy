/**
 Errors as values, and what a chain of propagations does to kind, status, trace
 and identity.
 */
module ErrorChains {
  import opened Prelude
  import opened Kinds
  import opened StatusKinds

  /** A details map; None is Go's nil map. */
  type Details = Option<map<string, string>>

  /** An error value: one of ours, a foreign one that may wrap another, or a bare code off the wire. */
  datatype Fault =
    | Garlic(kind: KindValue, message: string, cause: Option<Fault>, origin: Option<Fault>,
             details: Details, trace: seq<string>)
    | Foreign(text: string, cause: Option<Fault>)
    | Headless(code: string)

  datatype Opt = Detail(entries: map<string, string>) | Hint(text: string) | Trace(entry: string)

  const HINT := "hint"

  // --- building --------------------------------------------------------------------------------

  function Fresh(kind: KindValue, message: string, origin: Option<Fault>): Fault {
    Garlic(kind, message, None, origin, Some(map[]), [])
  }

  /** A hint is written into the map as it is: a nil map panics. */
  predicate Applicable(details: Details, opts: seq<Opt>) {
    opts == [] ||
    (Applicable(details, opts[..|opts| - 1]) &&
     (opts[|opts| - 1].Hint? ==> details.Some? || exists i :: 0 <= i < |opts| && opts[i].Detail?))
  }

  function Applied(e: Fault, opt: Opt): Fault
    requires e.Garlic?
  {
    match opt
    case Detail(entries) => e.(details := Some(if e.details.None? then entries else e.details.value + entries))
    case Hint(text) => if e.details.None? then e else e.(details := Some(e.details.value[HINT := text]))
    case Trace(entry) => e.(trace := e.trace + [entry])
  }

  function With(e: Fault, opts: seq<Opt>): (r: Fault)
    requires e.Garlic?
    ensures r.Garlic?
  {
    if opts == [] then e else Applied(With(e, opts[..|opts| - 1]), opts[|opts| - 1])
  }

  function Inherited(kind: KindValue, cause: KindValue): KindValue {
    if !cause.custom || kind.custom then kind else Customized(kind, cause.status)
  }

  function Wrapped(e: Fault, other: Fault): Fault
    requires e.Garlic?
  {
    if other.Garlic? then
      e.(details := other.details, trace := other.trace, kind := Inherited(e.kind, other.kind), cause := Some(other))
    else
      Garlic(e.kind, e.message, Some(other), e.origin, e.details, e.trace)
  }

  function From(kind: KindValue, err: Fault, message: string, opts: seq<Opt>): Fault {
    With(Wrapped(Fresh(kind, message, None), err), opts)
  }

  // --- chains -----------------------------------------------------------------------------------

  /** One propagation; `at` is the reverse-trace entry of its call site. */
  datatype Link =
    | ByPropagate(message: string, opts: seq<Opt>, at: string)
    | ByPropagateAs(kind: KindValue, message: string, opts: seq<Opt>, at: string)
    | ByFrom(kind: KindValue, message: string, opts: seq<Opt>)
    | ByTemplate(kind: KindValue, message: string, templateOpts: seq<Opt>, opts: seq<Opt>, at: string)

  /** The kind a link asks for itself. */
  function Given(l: Link): Option<KindValue> {
    if l.ByPropagate? then None else Some(l.kind)
  }

  function KindOf(err: Fault): KindValue {
    if err.Garlic? then err.kind else ERROR
  }

  function Named(l: Link, err: Fault): KindValue {
    if Given(l).Some? then l.kind else KindOf(err)
  }

  function OptsOf(l: Link): seq<Opt> {
    match l
    case ByPropagate(_, opts, at) => opts + [Trace(at)]
    case ByPropagateAs(_, _, opts, at) => opts + [Trace(at)]
    case ByFrom(_, _, opts) => opts
    case ByTemplate(_, _, own, opts, at) => own + opts + [Trace(at)]
  }

  function Linked(l: Link, err: Fault): (r: Fault)
    ensures r.Garlic?
  {
    From(Named(l, err), err, l.message, OptsOf(l))
  }

  /** links[0] is applied first, so the last one is outermost. */
  function Chain(root: Fault, links: seq<Link>): Fault {
    if links == [] then root else Linked(links[|links| - 1], Chain(root, links[..|links| - 1]))
  }

  /** What the outermost frame that names a kind names. */
  function OuterKind(root: Fault, links: seq<Link>): KindValue {
    if links == [] then KindOf(root)
    else if Given(links[|links| - 1]).Some? then links[|links| - 1].kind
    else OuterKind(root, links[..|links| - 1])
  }

  /** The status pinned by the outermost frame that pins one. */
  function OuterPin(root: Fault, links: seq<Link>): Option<int> {
    if links == [] then (if KindOf(root).custom then Some(KindOf(root).status) else None)
    else if Given(links[|links| - 1]).Some? && links[|links| - 1].kind.custom then Some(links[|links| - 1].kind.status)
    else OuterPin(root, links[..|links| - 1])
  }

  predicate AllPinsAreReal(root: Fault, links: seq<Link>) {
    && PinsAreReal(KindOf(root))
    && forall i :: 0 <= i < |links| && Given(links[i]).Some? ==> PinsAreReal(links[i].kind)
  }

  lemma {:induction false} OptsKeep(e: Fault, opts: seq<Opt>)
    requires e.Garlic?
    ensures var r := With(e, opts);
      r.kind == e.kind && r.message == e.message && r.cause == e.cause && r.origin == e.origin
  {
    if opts != [] { OptsKeep(e, opts[..|opts| - 1]); }
  }

  /** Along any chain the kind is the outermost named one, with the outermost pinned status. */
  lemma {:induction false} PinPrecedence(root: Fault, links: seq<Link>)
    requires AllPinsAreReal(root, links)
    ensures KindOf(Chain(root, links)) ==
            (if OuterPin(root, links).None? then OuterKind(root, links)
             else OuterKind(root, links).(status := OuterPin(root, links).value, custom := true))
    ensures OuterPin(root, links).Some? ==> OuterPin(root, links).value > 0
    ensures OuterPin(root, links).None? ==> !OuterKind(root, links).custom
  {
    if links != [] {
      var l, inner := links[|links| - 1], Chain(root, links[..|links| - 1]);
      PinPrecedence(root, links[..|links| - 1]);
      LinkedIs(l, inner);
    }
  }

  /** What a caller sees of that: the status, and an identity that no pin changes. */
  lemma ChainAnswers(root: Fault, links: seq<Link>, code: string)
    requires AllPinsAreReal(root, links) && (root.Garlic? || links != [])
    ensures var k, outer, pin := KindOf(Chain(root, links)), OuterKind(root, links), OuterPin(root, links);
      && StatusOf(k) == (if pin.Some? then pin.value else StatusOf(outer))
      && k.code == outer.code && Fqn(k) == Fqn(outer) && (IsA(k, code) <==> IsA(outer, code))
  {
    PinPrecedence(root, links);
    if OuterPin(root, links).Some? {
      CustomizingKeepsIdentity(OuterKind(root, links), OuterPin(root, links).value, code);
    }
  }

  // --- traces -------------------------------------------------------------------------------------

  function TraceOf(err: Fault): seq<string> {
    if err.Garlic? then err.trace else []
  }

  function Entries(opts: seq<Opt>): seq<string> {
    if opts == [] then []
    else Entries(opts[..|opts| - 1]) + if opts[|opts| - 1].Trace? then [opts[|opts| - 1].entry] else []
  }

  /** What the links add of their own: one entry each, except for a plain From. */
  function OwnEntries(links: seq<Link>): seq<string> {
    if links == [] then []
    else OwnEntries(links[..|links| - 1]) + if links[|links| - 1].ByFrom? then [] else [links[|links| - 1].at]
  }

  /** The callers' options do not trace. */
  predicate Untraced(opts: seq<Opt>) {
    forall i :: 0 <= i < |opts| ==> !opts[i].Trace?
  }

  predicate CallersDoNotTrace(links: seq<Link>) {
    forall l | l in links :: Untraced(l.opts) && (l.ByTemplate? ==> Untraced(l.templateOpts))
  }

  lemma {:induction false} OptsTrace(e: Fault, opts: seq<Opt>)
    requires e.Garlic?
    ensures With(e, opts).trace == e.trace + Entries(opts)
  {
    if opts != [] { OptsTrace(e, opts[..|opts| - 1]); }
  }

  /** One link: the kind it names or inherits, around the error it was given, whose trace it continues. */
  lemma LinkedIs(l: Link, err: Fault)
    ensures var r := Linked(l, err);
      && r.kind == (if err.Garlic? then Inherited(Named(l, err), err.kind) else Named(l, err))
      && r.cause == Some(err) && r.origin.None?
      && r.trace == TraceOf(err) + Entries(OptsOf(l))
  {
    var start := Wrapped(Fresh(Named(l, err), l.message, None), err);
    OptsKeep(start, OptsOf(l));
    OptsTrace(start, OptsOf(l));
  }

  lemma {:induction false} UntracedEntries(opts: seq<Opt>)
    requires Untraced(opts)
    ensures Entries(opts) == []
  {
    if opts != [] { UntracedEntries(opts[..|opts| - 1]); }
  }

  lemma EntriesOfLink(l: Link)
    requires Untraced(l.opts) && (l.ByTemplate? ==> Untraced(l.templateOpts))
    ensures Entries(OptsOf(l)) == if l.ByFrom? then [] else [l.at]
  {
    var given := if l.ByTemplate? then l.templateOpts + l.opts else l.opts;
    UntracedEntries(given);
    if !l.ByFrom? { assert (given + [Trace(l.at)])[..|given|] == given; }
  }

  /** The trace records every boundary crossed, innermost first, and nothing is lost on the way. */
  lemma {:induction false} TraceGrows(root: Fault, links: seq<Link>)
    requires CallersDoNotTrace(links)
    ensures TraceOf(Chain(root, links)) == TraceOf(root) + OwnEntries(links)
  {
    hide Linked, Entries, OptsOf;
    if links != [] {
      var l, before := links[|links| - 1], links[..|links| - 1];
      TraceGrows(root, before);
      EntriesOfLink(l);
      LinkedIs(l, Chain(root, before));
    }
  }

  // --- messages and details ---------------------------------------------------------------------------

  /** What a details map holds under a key; a nil map holds nothing. */
  function DetailAt(details: Details, key: string): Option<string> {
    if details.Some? && key in details.value then Some(details.value[key]) else None
  }

  function DetailsOf(err: Fault): Details {
    if err.Garlic? then err.details else None
  }

  /** What an option writes under a key, if it does. */
  function Writes(opt: Opt, key: string): Option<string> {
    match opt
    case Detail(entries) => if key in entries then Some(entries[key]) else None
    case Hint(text) => if key == "hint" then Some(text) else None
    case Trace(_) => None
  }

  /** The last option to write under the key decides; when none does, it is as before. */
  function LastWritten(before: Option<string>, opts: seq<Opt>, key: string): Option<string> {
    if opts == [] then before
    else if Writes(opts[|opts| - 1], key).Some? then Writes(opts[|opts| - 1], key)
    else LastWritten(before, opts[..|opts| - 1], key)
  }

  lemma {:induction false} OptsWriteDetails(e: Fault, opts: seq<Opt>, key: string)
    requires e.Garlic? && e.details.Some?
    ensures With(e, opts).details.Some?
    ensures DetailAt(With(e, opts).details, key) == LastWritten(DetailAt(e.details, key), opts, key)
  {
    if opts != [] { OptsWriteDetails(e, opts[..|opts| - 1], key); }
  }

  lemma {:induction false} LastWrittenBoth(before: Option<string>, a: seq<Opt>, b: seq<Opt>, key: string)
    ensures LastWritten(before, a + b, key) == LastWritten(LastWritten(before, a, key), b, key)
  {
    if b == [] {
      assert a + b == a;
    } else {
      assert (a + b)[..|a + b| - 1] == a + b[..|b| - 1];
      LastWrittenBoth(before, a, b[..|b| - 1], key);
    }
  }

  /** All options of the links, innermost first. */
  function AllOpts(links: seq<Link>): seq<Opt> {
    if links == [] then [] else AllOpts(links[..|links| - 1]) + OptsOf(links[|links| - 1])
  }

  /** One link says its own message, and adds its options to the details it carries over. */
  lemma LinkSays(l: Link, err: Fault, key: string)
    requires err.Garlic? ==> err.details.Some?
    ensures var r := Linked(l, err);
      && r.message == l.message && r.details.Some?
      && DetailAt(r.details, key) == LastWritten(DetailAt(DetailsOf(err), key), OptsOf(l), key)
  {
    var start := Wrapped(Fresh(Named(l, err), l.message, None), err);
    OptsKeep(start, OptsOf(l));
    OptsWriteDetails(start, OptsOf(l), key);
  }

  /** Details gathered deeper down survive every boundary, until an outer option writes over them. */
  lemma {:induction false} DetailsAccumulate(root: Fault, links: seq<Link>, key: string)
    requires root.Garlic? ==> root.details.Some?
    ensures links != [] ==> Chain(root, links).Garlic? && Chain(root, links).message == links[|links| - 1].message
    ensures Chain(root, links).Garlic? ==> Chain(root, links).details.Some?
    ensures DetailAt(DetailsOf(Chain(root, links)), key) ==
            LastWritten(DetailAt(DetailsOf(root), key), AllOpts(links), key)
  {
    hide Linked, OptsOf, LastWritten, DetailAt;
    if links != [] {
      var l, before := links[|links| - 1], links[..|links| - 1];
      DetailsAccumulate(root, before, key);
      LinkSays(l, Chain(root, before), key);
      LastWrittenBoth(DetailAt(DetailsOf(root), key), AllOpts(before), OptsOf(l), key);
    } else {
      NothingWritten(DetailAt(DetailsOf(root), key), key);
    }
  }

  lemma NothingWritten(before: Option<string>, key: string)
    ensures LastWritten(before, [], key) == before
  {
  }

  /** Under a template the caller's options come last, so that what they write wins. */
  lemma CallersWin(l: Link, before: Option<string>, key: string)
    requires l.ByTemplate?
    ensures LastWritten(before, OptsOf(l), key) == LastWritten(LastWritten(before, l.templateOpts, key), l.opts, key)
  {
    LastWrittenBoth(before, l.templateOpts, l.opts, key);
    LastWrittenBoth(before, l.templateOpts + l.opts, [Trace(l.at)], key);
    assert [Trace(l.at)][..0] == [];
  }

  /** A foreign error that is propagated without a kind becomes the root kind, a 500 of neither class. */
  lemma ForeignBecomesRoot(message: string, opts: seq<Opt>, at: string, err: Fault)
    requires !err.Garlic?
    ensures var k := Linked(ByPropagate(message, opts, at), err).kind;
      && k.code == "P00000" && StatusOf(k) == 500
      && !IsA(k, "P00001") && !IsA(k, "P00002")
  {
    LinkedIs(ByPropagate(message, opts, at), err);
    assert "P00000"[5] == '0' && "P00001"[5] == '1' && "P00002"[5] == '2';
  }

  // --- walks along the chain ------------------------------------------------------------------------

  /** AsKind: the first error of ours of that kind, from outside in. */
  function AsKind(err: Fault, code: string): Option<Fault> {
    if err.Garlic? && IsA(err.kind, code) then Some(err)
    else if err.Headless? || err.cause.None? then None
    else AsKind(err.cause.value, code)
  }

  predicate IsKind(err: Fault, code: string) {
    AsKind(err, code).Some?
  }

  function Origin(err: Fault): Option<Fault> {
    if err.Garlic? && err.origin.Some? then err.origin
    else if err.Headless? || err.cause.None? then None
    else Origin(err.cause.value)
  }

  /** The n-th error on the way down its causes, the error itself being the first. */
  function CauseAt(err: Fault, n: nat): Option<Fault> {
    if n == 0 then Some(err)
    else if err.Headless? || err.cause.None? then None
    else CauseAt(err.cause.value, n - 1)
  }

  /** The n-th error on the chain is ours, and of that kind. */
  predicate OfKindAt(err: Fault, n: nat, code: string) {
    CauseAt(err, n).Some? && CauseAt(err, n).value.Garlic? && IsA(CauseAt(err, n).value.kind, code)
  }

  predicate OriginAt(err: Fault, n: nat) {
    CauseAt(err, n).Some? && CauseAt(err, n).value.Garlic? && CauseAt(err, n).value.origin.Some?
  }

  /** AsKind finds the outermost error of ours of that kind on the chain, and nothing when there is none. */
  lemma {:induction false} AsKindIsOutermost(err: Fault, code: string)
    ensures AsKind(err, code).None? <==> forall n: nat :: !OfKindAt(err, n, code)
    ensures forall n: nat :: OfKindAt(err, n, code) && (forall m: nat | m < n :: !OfKindAt(err, m, code)) ==>
                             AsKind(err, code) == CauseAt(err, n)
  {
    if err.Garlic? && IsA(err.kind, code) {
      assert OfKindAt(err, 0, code);
    } else if err.Headless? || err.cause.None? {
      forall n: nat ensures !OfKindAt(err, n, code) { assert n > 0 ==> CauseAt(err, n).None?; }
    } else {
      var c := err.cause.value;
      AsKindIsOutermost(c, code);
      forall n: nat ensures OfKindAt(err, n + 1, code) <==> OfKindAt(c, n, code) { OneBelow(err, n, code); }
      forall n: nat | OfKindAt(err, n, code) && (forall m: nat | m < n :: !OfKindAt(err, m, code))
        ensures AsKind(err, code) == CauseAt(err, n)
      {
        assert OfKindAt(c, n - 1, code);
        forall m: nat | m < n - 1 ensures !OfKindAt(c, m, code) { assert !OfKindAt(err, m + 1, code); }
      }
      if AsKind(err, code).None? {
        forall n: nat ensures !OfKindAt(err, n, code) { assert n > 0 ==> !OfKindAt(c, n - 1, code); }
      } else {
        var n: nat :| OfKindAt(c, n, code);
        assert OfKindAt(err, n + 1, code);
      }
    }
  }

  lemma OneBelow(err: Fault, n: nat, code: string)
    requires !err.Headless? && err.cause.Some?
    ensures CauseAt(err, n + 1) == CauseAt(err.cause.value, n)
    ensures OfKindAt(err, n + 1, code) <==> OfKindAt(err.cause.value, n, code)
    ensures OriginAt(err, n + 1) <==> OriginAt(err.cause.value, n)
  {
  }

  /** Origin finds the outermost origin on the chain. */
  lemma {:induction false} OriginIsOutermost(err: Fault)
    ensures Origin(err).None? <==> forall n: nat :: !OriginAt(err, n)
    ensures forall n: nat :: OriginAt(err, n) && (forall m: nat | m < n :: !OriginAt(err, m)) ==>
                             Origin(err) == CauseAt(err, n).value.origin
  {
    if err.Garlic? && err.origin.Some? {
      assert OriginAt(err, 0);
    } else if err.Headless? || err.cause.None? {
      forall n: nat ensures !OriginAt(err, n) { assert n > 0 ==> CauseAt(err, n).None?; }
    } else {
      var c := err.cause.value;
      OriginIsOutermost(c);
      forall n: nat ensures OriginAt(err, n + 1) <==> OriginAt(c, n) { OneBelow(err, n, ""); }
      forall n: nat | OriginAt(err, n) && (forall m: nat | m < n :: !OriginAt(err, m))
        ensures Origin(err) == CauseAt(err, n).value.origin
      {
        assert OriginAt(c, n - 1);
        forall m: nat | m < n - 1 ensures !OriginAt(c, m) { assert !OriginAt(err, m + 1); }
      }
      if Origin(err).None? {
        forall n: nat ensures !OriginAt(err, n) { assert n > 0 ==> !OriginAt(c, n - 1); }
      } else {
        var n: nat :| OriginAt(c, n);
        assert OriginAt(err, n + 1);
      }
    }
  }

  lemma InheritingKeepsIdentity(l: Link, err: Fault, code: string)
    ensures IsA(Linked(l, err).kind, code) <==> IsA(Named(l, err), code)
  {
    LinkedIs(l, err);
    if err.Garlic? { CustomizingKeepsIdentity(Named(l, err), err.kind.status, code); }
  }

  /** Propagating adds the kinds it names to what IsKind finds, and hides none found before. */
  lemma {:induction false} KindsAreFound(root: Fault, links: seq<Link>, code: string)
    ensures IsKind(Chain(root, links), code) <==>
            || IsKind(root, code)
            || (exists i :: 0 <= i < |links| && Given(links[i]).Some? && IsA(links[i].kind, code))
            || (links != [] && links[0].ByPropagate? && IsA(KindOf(root), code))
    ensures Origin(Chain(root, links)) == Origin(root)
  {
    hide Linked, Entries, OptsOf, IsA, Inherited, PinsAreReal;
    if links != [] {
      var l, before := links[|links| - 1], links[..|links| - 1];
      var inner := Chain(root, before);
      KindsAreFound(root, before, code);
      LinkedIs(l, inner);
      InheritingKeepsIdentity(l, inner, code);
      assert forall i :: 0 <= i < |before| ==> before[i] == links[i];
    }
  }
}
