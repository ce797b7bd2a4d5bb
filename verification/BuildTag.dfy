/**
 hasUnitBuildTag decides whether a test file is built only under the unit tag.
 A constraint's platform tags vary with the toolchain; the check samples two of
 the platform assignments, all true and all false.
 */
module BuildTag {

  datatype Expr = Tag(name: string) | Not(x: Expr) | And(l: Expr, r: Expr) | Or(l: Expr, r: Expr)

  function Eval(e: Expr, ok: string -> bool): bool {
    match e
    case Tag(name) => ok(name)
    case Not(x) => !Eval(x, ok)
    case And(l, r) => Eval(l, ok) && Eval(r, ok)
    case Or(l, r) => Eval(l, ok) || Eval(r, ok)
  }

  const KNOWN_GOOS: set<string> := {
    "aix", "android", "darwin", "dragonfly", "freebsd", "illumos", "ios", "js", "linux", "netbsd", "openbsd",
    "plan9", "solaris", "wasip1", "windows"
  }

  const KNOWN_GOARCH: set<string> := {
    "386", "amd64", "arm", "arm64", "loong64", "mips", "mips64", "mips64le", "mipsle", "ppc64", "ppc64le",
    "riscv64", "s390x", "wasm"
  }

  const KNOWN_IMPLICIT: set<string> := {"unix", "cgo"}

  /** go1.N for a decimal number N. */
  predicate IsReleaseTag(tag: string) {
    |tag| > 4 && tag[..4] == "go1." && forall i | 4 <= i < |tag| :: '0' <= tag[i] <= '9'
  }

  predicate KnownPlatformTag(tag: string) {
    tag in KNOWN_GOOS || tag in KNOWN_GOARCH || tag in KNOWN_IMPLICIT || IsReleaseTag(tag)
  }

  // --- the two samples ---------------------------------------------------------------

  function AllPlatforms(unit: bool): string -> bool {
    tag => (unit && tag == "unit") || KnownPlatformTag(tag)
  }

  function NoPlatform(unit: bool): string -> bool {
    tag => unit && tag == "unit"
  }

  predicate Sampled(e: Expr, unit: bool) {
    Eval(e, AllPlatforms(unit)) || Eval(e, NoPlatform(unit))
  }

  predicate UnitOnly(e: Expr) {
    Sampled(e, true) && !Sampled(e, false)
  }

  // --- what the samples stand for -------------------------------------------------------

  /** A toolchain satisfies some platform tags; beyond them only unit can be on. */
  function Toolchain(unit: bool, platforms: string -> bool): string -> bool {
    tag => (unit && tag == "unit") || (KnownPlatformTag(tag) && platforms(tag))
  }

  ghost predicate Satisfiable(e: Expr, unit: bool) {
    exists platforms: string -> bool :: Eval(e, Toolchain(unit, platforms))
  }

  /** Some toolchain builds the file with the unit tag, and none does without it. */
  ghost predicate NeedsUnit(e: Expr) {
    Satisfiable(e, true) && !Satisfiable(e, false)
  }

  /** Every platform tag of e occurs under an even (odd) number of negations. */
  predicate Polarity(e: Expr, positive: bool) {
    match e
    case Tag(name) => positive || !KnownPlatformTag(name)
    case Not(x) => Polarity(x, !positive)
    case And(l, r) => Polarity(l, positive) && Polarity(r, positive)
    case Or(l, r) => Polarity(l, positive) && Polarity(r, positive)
  }

  predicate PlatformFree(e: Expr) {
    Polarity(e, true) && Polarity(e, false)
  }

  /**
   Uniform polarity, closed under alternatives and under conjunction with a
   constraint that names no platform.
   */
  predicate Uniform(e: Expr) {
    || Polarity(e, true) || Polarity(e, false)
    || (e.Or? && Uniform(e.l) && Uniform(e.r))
    || (e.And? && ((PlatformFree(e.l) && Uniform(e.r)) || (Uniform(e.l) && PlatformFree(e.r))))
  }

  /** Evaluation is boolean algebra: every law of it holds of constraints, these three tell the connectives. */
  lemma EvalIsBoolean(a: Expr, b: Expr, ok: string -> bool)
    ensures Eval(Or(a, Not(a)), ok) && !Eval(And(a, Not(a)), ok)
    ensures Eval(Not(And(a, b)), ok) == Eval(Or(Not(a), Not(b)), ok)
    ensures Eval(Or(a, And(a, b)), ok) == Eval(And(a, Or(a, b)), ok) == Eval(a, ok)
  {
  }

  /** A platform tag is a known system, architecture or implied tag, or go1 with a decimal number. */
  lemma PlatformTagsExactly(tag: string)
    ensures KnownPlatformTag(tag) <==>
            || tag in {"aix", "android", "darwin", "dragonfly", "freebsd", "illumos", "ios", "js", "linux", "netbsd",
                       "openbsd", "plan9", "solaris", "wasip1", "windows"}
            || tag in {"386", "amd64", "arm", "arm64", "loong64", "mips", "mips64", "mips64le", "mipsle", "ppc64",
                       "ppc64le", "riscv64", "s390x", "wasm"}
            || tag in {"unix", "cgo"}
            || (exists digits :: digits != "" && tag == "go1." + digits && forall c | c in digits :: '0' <= c <= '9')
  {
    if IsReleaseTag(tag) {
      assert tag == "go1." + tag[4..];
      assert forall c | c in tag[4..] :: '0' <= c <= '9';
    }
    if digits :| digits != "" && tag == "go1." + digits && forall c | c in digits :: '0' <= c <= '9' {
      assert tag[..4] == "go1." && forall i | 4 <= i < |tag| :: tag[i] == digits[i - 4] && digits[i - 4] in digits;
    }
  }

  predicate NegationFree(e: Expr) {
    match e
    case Tag(_) => true
    case Not(_) => false
    case And(l, r) => NegationFree(l) && NegationFree(r)
    case Or(l, r) => NegationFree(l) && NegationFree(r)
  }

  /** Constraints without negation are uniform, and so are their negations; so two samples decide them. */
  lemma {:induction false} NegationFreeIsUniform(e: Expr)
    requires NegationFree(e)
    ensures Polarity(e, true) && Uniform(e) && Uniform(Not(e))
  {
    match e
    case Tag(_) =>
    case And(l, r) => NegationFreeIsUniform(l); NegationFreeIsUniform(r);
    case Or(l, r) => NegationFreeIsUniform(l); NegationFreeIsUniform(r);
  }

  /** Evaluation depends only on what the assignment says of each tag. */
  lemma {:induction false} EvalExtensional(e: Expr, f: string -> bool, g: string -> bool)
    requires forall tag :: f(tag) == g(tag)
    ensures Eval(e, f) == Eval(e, g)
  {
    match e
    case Tag(_) =>
    case Not(x) => EvalExtensional(x, f, g);
    case And(l, r) => EvalExtensional(l, f, g); EvalExtensional(r, f, g);
    case Or(l, r) => EvalExtensional(l, f, g); EvalExtensional(r, f, g);
  }

  /** More platforms never falsify a positive constraint, nor verify a negative one. */
  lemma {:induction false} Monotone(e: Expr, positive: bool, low: string -> bool, high: string -> bool)
    requires Polarity(e, positive)
    requires forall tag :: low(tag) ==> high(tag)
    requires forall tag :: !KnownPlatformTag(tag) ==> low(tag) == high(tag)
    ensures positive ==> Eval(e, low) ==> Eval(e, high)
    ensures !positive ==> Eval(e, high) ==> Eval(e, low)
  {
    match e
    case Tag(_) =>
    case Not(x) => Monotone(x, !positive, low, high);
    case And(l, r) => Monotone(l, positive, low, high); Monotone(r, positive, low, high);
    case Or(l, r) => Monotone(l, positive, low, high); Monotone(r, positive, low, high);
  }

  /** "unit" is no platform tag, so without it nothing but platforms is on. */
  lemma UnitIsNoPlatform()
    ensures !KnownPlatformTag("unit")
  {
    assert "unit"[0] == 'u';
  }

  /** A positive sample is a toolchain: what it claims satisfiable is. */
  lemma SampleIsWitness(e: Expr, unit: bool)
    requires Sampled(e, unit)
    ensures Satisfiable(e, unit)
  {
    var all: string -> bool := tag => true;
    var none: string -> bool := tag => false;
    EvalExtensional(e, AllPlatforms(unit), Toolchain(unit, all));
    EvalExtensional(e, NoPlatform(unit), Toolchain(unit, none));
  }

  lemma {:induction false} WitnessIsSampled(e: Expr, unit: bool, platforms: string -> bool)
    requires Uniform(e) && Eval(e, Toolchain(unit, platforms))
    ensures Sampled(e, unit)
  {
    UnitIsNoPlatform();
    var t := Toolchain(unit, platforms);
    if Polarity(e, true) {
      Monotone(e, true, t, AllPlatforms(unit));
    } else if Polarity(e, false) {
      Monotone(e, false, NoPlatform(unit), t);
    } else if e.Or? {
      WitnessIsSampled(if Eval(e.l, t) then e.l else e.r, unit, platforms);
    } else {
      var free, rest := if PlatformFree(e.l) && Uniform(e.r) then e.l else e.r,
                        if PlatformFree(e.l) && Uniform(e.r) then e.r else e.l;
      WitnessIsSampled(rest, unit, platforms);
      Monotone(free, true, t, AllPlatforms(unit));
      Monotone(free, false, NoPlatform(unit), t);
    }
  }

  /** On uniform constraints the two samples decide satisfiability over all toolchains. */
  lemma SamplingIsExact(e: Expr, unit: bool)
    requires Uniform(e)
    ensures Sampled(e, unit) <==> Satisfiable(e, unit)
  {
    if Satisfiable(e, unit) {
      var platforms: string -> bool :| Eval(e, Toolchain(unit, platforms));
      WitnessIsSampled(e, unit, platforms);
    }
    if Sampled(e, unit) {
      SampleIsWitness(e, unit);
    }
  }

  /** unit && a && !b for two platform tags, as unit && linux && !windows: tagged, and missed by both samples. */
  lemma MixedPolarityIsMissed(a: string, b: string)
    requires KnownPlatformTag(a) && KnownPlatformTag(b) && a != b
    ensures var e := And(Tag("unit"), And(Tag(a), Not(Tag(b))));
      NeedsUnit(e) && !UnitOnly(e) && !Uniform(e)
  {
    var e := And(Tag("unit"), And(Tag(a), Not(Tag(b))));
    UnitIsNoPlatform();
    var onlyA: string -> bool := tag => tag == a;
    EvalUnitAndNot("unit", a, b, Toolchain(true, onlyA));
    EvalUnitAndNot("unit", a, b, AllPlatforms(true));
    EvalUnitAndNot("unit", a, b, NoPlatform(true));
    forall platforms: string -> bool ensures !Eval(e, Toolchain(false, platforms)) {
      EvalUnitAndNot("unit", a, b, Toolchain(false, platforms));
    }
    MixedIsNotUniform("unit", a, b);
  }

  lemma EvalUnitAndNot(unit: string, a: string, b: string, ok: string -> bool)
    ensures Eval(And(Tag(unit), And(Tag(a), Not(Tag(b)))), ok) == (ok(unit) && ok(a) && !ok(b))
  {
    assert Eval(Not(Tag(b)), ok) == !ok(b);
    assert Eval(And(Tag(a), Not(Tag(b))), ok) == (ok(a) && !ok(b));
  }

  lemma MixedIsNotUniform(unit: string, a: string, b: string)
    requires KnownPlatformTag(a) && KnownPlatformTag(b)
    ensures !Uniform(And(Tag(unit), And(Tag(a), Not(Tag(b)))))
  {
    assert !Polarity(Tag(a), false) && !Polarity(Not(Tag(b)), true);
    assert !Uniform(And(Tag(a), Not(Tag(b))));
  }

  // --- the file scan ------------------------------------------------------------------------

  datatype Comment = Ordinary | Malformed | Constraint(expr: Expr)
  datatype Group = Group(end: nat, comments: seq<Comment>)

  predicate TagsFile(c: Comment) {
    c.Constraint? && UnitOnly(c.expr)
  }

  /** Comment groups count up to the first that ends past the package clause. */
  predicate Leading(groups: seq<Group>, package: nat, i: nat)
    requires i < |groups|
  {
    forall j | 0 <= j <= i :: groups[j].end <= package
  }

  method HasUnitBuildTag(groups: seq<Group>, package: nat) returns (tagged: bool)
    ensures tagged <==>
              exists i, k | 0 <= i < |groups| && 0 <= k < |groups[i].comments| ::
                Leading(groups, package, i) && TagsFile(groups[i].comments[k])
  {
    for i := 0 to |groups|
      invariant forall j | 0 <= j < i :: groups[j].end <= package
      invariant forall j, k | 0 <= j < i && 0 <= k < |groups[j].comments| :: !TagsFile(groups[j].comments[k])
    {
      if groups[i].end > package { break; }
      for k := 0 to |groups[i].comments|
        invariant forall n | 0 <= n < k :: !TagsFile(groups[i].comments[n])
      {
        var c := groups[i].comments[k];
        if !c.Constraint? { continue; }
        var withUnit := Eval(c.expr, AllPlatforms(true)) || Eval(c.expr, NoPlatform(true));
        var withoutUnit := Eval(c.expr, AllPlatforms(false)) || Eval(c.expr, NoPlatform(false));
        if withUnit && !withoutUnit {
          assert Leading(groups, package, i);
          return true;
        }
      }
    }
    return false;
  }

  /** A file whose constraints are uniform is tagged exactly when one of them needs unit. */
  lemma TaggedIffNeedsUnit(groups: seq<Group>, package: nat)
    requires forall i, k | 0 <= i < |groups| && 0 <= k < |groups[i].comments| ::
        groups[i].comments[k].Constraint? ==> Uniform(groups[i].comments[k].expr)
    ensures (exists i, k | 0 <= i < |groups| && 0 <= k < |groups[i].comments| ::
               Leading(groups, package, i) && TagsFile(groups[i].comments[k])) <==>
            (exists i, k | 0 <= i < |groups| && 0 <= k < |groups[i].comments| ::
               Leading(groups, package, i) && groups[i].comments[k].Constraint? &&
               NeedsUnit(groups[i].comments[k].expr))
  {
    forall i, k | 0 <= i < |groups| && 0 <= k < |groups[i].comments| && groups[i].comments[k].Constraint?
      ensures TagsFile(groups[i].comments[k]) <==> NeedsUnit(groups[i].comments[k].expr)
    {
      SamplingIsExact(groups[i].comments[k].expr, true);
      SamplingIsExact(groups[i].comments[k].expr, false);
    }
  }
}
