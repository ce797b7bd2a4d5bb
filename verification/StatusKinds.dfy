/**
 The kinds of HTTP statuses: one per standard status below a class base, and the
 class base itself for any other status.
 */
module StatusKinds {
  import opened Prelude
  import opened Kinds
  import opened KindRegistry
  import opened Startup

  /** The reason phrases of net/http; a status is standard when it has one. */
  type Phrases = map<int, string>

  const ERROR := KindValue(
    "Error", "P00000", "Any error that has not been mapped in the application.", 0, false, None)

  const USER_ERROR := KindValue(
    "UserError", "P00001", "Any error that was caused by some incorrect user action.", 400, false, Some(ERROR))

  const SYSTEM_ERROR := KindValue(
    "SystemError", "P00002", "Any error that was caused by some unexpected system failure.", 500, false, Some(ERROR))

  predicate IsStandard(phrases: Phrases, status: int) {
    100 <= status <= 599 && status in phrases && phrases[status] != ""
  }

  function ClassForStatus(status: int): KindValue {
    if 400 <= status < 500 then USER_ERROR else SYSTEM_ERROR
  }

  function HttpKind(status: nat, phrase: string): KindValue {
    KindValue(HttpName(status), HttpCode(status), phrase, status, false, Some(ClassForStatus(status)))
  }

  function KindForStatus(phrases: Phrases, status: int): KindValue {
    if IsStandard(phrases, status) then HttpKind(status, phrases[status]) else ClassForStatus(status)
  }

  predicate IsUserClass(k: KindValue) {
    IsA(k, USER_ERROR.code)
  }

  /** The kind of a status is of the user class exactly for 4xx, whatever is standard. */
  lemma UserClassIsFourHundreds(phrases: Phrases, status: int)
    ensures IsUserClass(KindForStatus(phrases, status)) <==> 400 <= status < 500
  {
    hide Decimal, Padded, Framed;
    CodesOfClasses();
    var k := KindForStatus(phrases, status);
    assert IsUserClass(ClassForStatus(status)) <==> 400 <= status < 500;
    if IsStandard(phrases, status) {
      assert k.code[0] == 'S' != USER_ERROR.code[0];
    }
  }

  lemma CodesOfClasses()
    ensures USER_ERROR.code[0] == SYSTEM_ERROR.code[0] == 'P' && USER_ERROR.code[5] != ERROR.code[5]
    ensures USER_ERROR.code[5] != SYSTEM_ERROR.code[5]
  {
  }

  /** It reports that very status when there is a kind for it, and its class's otherwise. */
  lemma StatusOfKindForStatus(phrases: Phrases, status: int)
    ensures StatusOf(KindForStatus(phrases, status)) == status <==>
            IsStandard(phrases, status) || status == 400 || status == 500
    ensures !KindForStatus(phrases, status).custom
  {
  }

  /** Each status with a phrase has a kind of its own, below its class; any other has its class. */
  lemma EveryPhraseHasItsKind(phrases: Phrases, status: int)
    ensures var k := KindForStatus(phrases, status);
      if 100 <= status <= 599 && status in phrases && phrases[status] != ""
      then k.status == StatusOf(k) == status && k.description == phrases[status] && k.parent.Some? &&
           k.parent.value.code == (if 400 <= status < 500 then "P00001" else "P00002") &&
           k.code == HttpCode(status) && k.name == HttpName(status)
      else k.code == (if 400 <= status < 500 then "P00001" else "P00002")
  {
    hide HttpCode, HttpName;
  }

  /** The code of a status's kind tells which kind it is. */
  lemma CodesNameKinds(phrases: Phrases, a: int, b: int)
    ensures KindForStatus(phrases, a).code == KindForStatus(phrases, b).code <==>
            KindForStatus(phrases, a) == KindForStatus(phrases, b)
  {
    hide Decimal, Padded, Framed;
    CodesOfClasses();
    if IsStandard(phrases, a) && IsStandard(phrases, b) {
      HttpIdentifiersAreInjective(a, b);
    } else if IsStandard(phrases, a) || IsStandard(phrases, b) {
      assert KindForStatus(phrases, a).code[0] != KindForStatus(phrases, b).code[0];
    }
  }

  // --- statuses received from elsewhere ---------------------------------------------------------

  /** A kind pinned to the exact status a response arrived with, unless it reports that already. */
  function KindWithStatus(kind: KindValue, status: int): KindValue {
    if StatusOf(kind) == status then kind else Customized(kind, status)
  }

  function StatusKind(phrases: Phrases, status: int): KindValue {
    KindWithStatus(KindForStatus(phrases, status), status)
  }

  /** The exact status is always kept, and pinned only where no kind reports it. */
  lemma StatusKindIsExact(phrases: Phrases, status: int, code: string)
    requires status > 0
    ensures StatusOf(StatusKind(phrases, status)) == status
    ensures StatusKind(phrases, status).custom <==> !(IsStandard(phrases, status) || status == 400 || status == 500)
    ensures StatusKind(phrases, status).custom ==> StatusKind(phrases, status).status == status
    ensures IsA(StatusKind(phrases, status), code) <==> IsA(KindForStatus(phrases, status), code)
    ensures StatusKind(phrases, status).code == KindForStatus(phrases, status).code
  {
    hide KindForStatus;
    StatusOfKindForStatus(phrases, status);
    CustomizingKeepsIdentity(KindForStatus(phrases, status), status, code);
  }

  // --- building and registering them --------------------------------------------------------

  ghost predicate BuiltUpTo(kinds: map<int, Kind>, phrases: Phrases, end: int)
    reads kinds.Values, set k, l | k in kinds.Values && l in k.lineage :: l
  {
    && (forall s :: s in kinds <==> IsStandard(phrases, s) && s < end)
    && (forall s :: s in kinds ==> kinds[s].Valid() && kinds[s].Value() == KindForStatus(phrases, s))
  }

  method BuildHttpKinds(phrases: Phrases, userError: Kind, systemError: Kind) returns (kinds: map<int, Kind>)
    requires userError.Valid() && userError.Value() == USER_ERROR
    requires systemError.Valid() && systemError.Value() == SYSTEM_ERROR
    ensures BuiltUpTo(kinds, phrases, 600) && forall s :: s in kinds ==> fresh(kinds[s])
  {
    kinds := map[];
    var status := 100;
    while status <= 599
      invariant 100 <= status <= 600
      invariant BuiltUpTo(kinds, phrases, status) && forall s :: s in kinds ==> fresh(kinds[s])
    {
      if status in phrases && phrases[status] != "" {
        var parent := if 400 <= status < 500 then userError else systemError;
        var kind := new Kind(HttpName(status), HttpCode(status), phrases[status], status, parent);
        kinds := kinds[status := kind];
      }
      status := status + 1;
    }
  }

  // --- init -----------------------------------------------------------------------------------

  /** The registry holds exactly these kinds, which do not clash. */
  ghost predicate Holds(r: Registry, ks: seq<Kind>)
    reads r, r.codes.Values, r.names.Values, ks
  {
    && r.Coherent() && AllNew({}, {}, Identities(ks))
    && r.codes == WithCodes(map[], ks) && r.names == WithNames(map[], ks)
  }

  /** One Register call on top of what is there, when nothing clashes. */
  method RegisterNext(r: Registry, kinds: seq<Kind>, ghost done: seq<Kind>) returns (panicked: bool)
    requires Holds(r, done) && AllNew({}, {}, Identities(done + kinds))
    modifies r
    ensures !panicked && Holds(r, done + kinds)
  {
    hide AllNew, Matching, WithCodes, WithNames, Identities;
    ghost var codes, names := r.codes, r.names;
    var registered;
    registered, panicked := r.Register(kinds);
    Remaining(done, kinds);
    if panicked {
      IdentitiesPrefix(kinds, registered + 1);
      PartIsNew(codes.Keys, names.Keys, Identities(kinds), registered + 1);
    }
    assert kinds[..registered] == kinds;
    WithBoth(done, kinds);
  }

  lemma Remaining(done: seq<Kind>, kinds: seq<Kind>)
    requires AllNew({}, {}, Identities(done + kinds))
    ensures AllNew(WithCodes(map[], done).Keys, WithNames(map[], done).Keys, Identities(kinds))
  {
    hide WithCodes, WithNames, Identities;
    var all := Identities(done + kinds);
    assert forall i :: 0 <= i < |kinds| ==> all[|done| + i] == IdentityOf(kinds[i]) == Identities(kinds)[i];
    assert forall i :: 0 <= i < |done| ==> all[i] == IdentityOf(done[i]);
    forall i | 0 <= i < |kinds|
      ensures kinds[i].code !in WithCodes(map[], done) && kinds[i].name !in WithNames(map[], done)
    {
      assert all[|done| + i] == IdentityOf(kinds[i]);
      InWith(map[], map[], done, kinds[i].code);
      InWith(map[], map[], done, kinds[i].name);
    }
  }

  lemma IdentitiesPrefix(kinds: seq<Kind>, n: nat)
    requires n <= |kinds|
    ensures Identities(kinds[..n]) == Identities(kinds)[..n]
  {
    hide Identities;
  }

  lemma PartIsNew(codes: set<string>, names: set<string>, ids: seq<Identity>, n: nat)
    requires n <= |ids| && AllNew(codes, names, ids)
    ensures AllNew(codes, names, ids[..n])
  {
    var part := ids[..n];
    assert forall i :: 0 <= i < n ==> part[i] == ids[i];
  }

  lemma {:induction false} WithBoth(a: seq<Kind>, b: seq<Kind>)
    ensures WithCodes(WithCodes(map[], a), b) == WithCodes(map[], a + b)
    ensures WithNames(WithNames(map[], a), b) == WithNames(map[], a + b)
  {
    if b == [] {
      assert a + b == a;
    } else {
      assert (a + b)[..|a + b| - 1] == a + b[..|b| - 1];
      WithBoth(a, b[..|b| - 1]);
    }
  }

  function Picked(http: map<int, Kind>, order: seq<nat>): (ks: seq<Kind>)
    requires forall i :: 0 <= i < |order| ==> order[i] in http
    ensures |ks| == |order| && forall i :: 0 <= i < |order| ==> ks[i] == http[order[i]]
  {
    seq(|order|, i requires 0 <= i < |order| => http[order[i]])
  }

  lemma PickedIdentities(http: map<int, Kind>, phrases: Phrases, order: seq<nat>)
    requires BuiltUpTo(http, phrases, 600) && forall i :: 0 <= i < |order| ==> order[i] in http
    ensures Identities(Picked(http, order)) == Secondaries(order)
  {
    hide Decimal, Padded, Framed, Identities;
    forall i | 0 <= i < |order| ensures IdentityOf(http[order[i]]) == Secondaries(order)[i] {
      assert http[order[i]].Value() == HttpKind(order[i], phrases[order[i]]);
    }
  }

  /** One Register call per HTTP kind, in the order the map is walked. */
  method RegisterHttpKinds(r: Registry, kinds: map<int, Kind>, order: seq<nat>, ghost done: seq<Kind>)
    returns (panicked: bool)
    requires forall i :: 0 <= i < |order| ==> order[i] in kinds
    requires Holds(r, done) && AllNew({}, {}, Identities(done + Picked(kinds, order)))
    modifies r
    ensures !panicked && Holds(r, done + Picked(kinds, order))
  {
    hide AllNew, Holds, Identities;
    panicked := false;
    var i := 0;
    assert done + Picked(kinds, order[..0]) == done;
    while i < |order|
      invariant 0 <= i <= |order| && !panicked
      invariant Holds(r, done + Picked(kinds, order[..i]))
    {
      ghost var before := done + Picked(kinds, order[..i]);
      assert before + [kinds[order[i]]] == (done + Picked(kinds, order))[..|done| + i + 1];
      IdentitiesPrefix(done + Picked(kinds, order), |done| + i + 1);
      PartIsNew({}, {}, Identities(done + Picked(kinds, order)), |done| + i + 1);
      panicked := RegisterNext(r, [kinds[order[i]]], before);
      i := i + 1;
      assert done + Picked(kinds, order[..i]) == before + [kinds[order[i - 1]]];
    }
    assert order[..i] == order;
  }

  method BuildPrimitives() returns (kinds: seq<Kind>)
    ensures |kinds| == 3 && Identities(kinds) == PRIMITIVES
    ensures forall k :: k in kinds ==> k.Valid() && !k.custom && fresh(k)
    ensures kinds[0].Value() == ERROR && kinds[1].Value() == USER_ERROR && kinds[2].Value() == SYSTEM_ERROR
  {
    var error := new Kind(ERROR.name, ERROR.code, ERROR.description, 0, null);
    var userError := new Kind(USER_ERROR.name, USER_ERROR.code, USER_ERROR.description, 400, error);
    var systemError := new Kind(SYSTEM_ERROR.name, SYSTEM_ERROR.code, SYSTEM_ERROR.description, 500, error);
    kinds := [error, userError, systemError];
    assert Identities(kinds) == PRIMITIVES;
  }

  const DESCRIPTIONS := [
    "The request is incorrectly formatted or has errors in the request body.",
    "An error occurred during authentication, such as invalid credentials.",
    "The user does not have permission to access the requested resource.",
    "The requested resource was not found in our system or external services.",
    "An error occurred due to a problem with the context.",
    "A required value was not found in the context."]

  /** The statuses whose kinds the first four framework kinds hang below. */
  const PARENT_STATUSES := [400, 401, 403, 404]

  /** The i-th framework kind: below an HTTP kind, if its status has one, or below a system error. */
  function FrameworkKind(phrases: Phrases, i: nat): KindValue
    requires i < 6
  {
    KindValue(TERTIARIES[i].name, TERTIARIES[i].code, DESCRIPTIONS[i], 0, false,
              if i == 4 then Some(SYSTEM_ERROR)
              else if i == 5 then Some(FrameworkKind(phrases, 4))
              else if !IsStandard(phrases, PARENT_STATUSES[i]) then None
              else Some(HttpKind(PARENT_STATUSES[i], phrases[PARENT_STATUSES[i]])))
  }

  /** They report the statuses they are named after, without having one of their own. */
  lemma FrameworkStatuses(phrases: Phrases, i: nat)
    requires i < 6
    ensures StatusOf(FrameworkKind(phrases, i)) ==
            if i < 4 && IsStandard(phrases, [400, 401, 403, 404][i]) then [400, 401, 403, 404][i] else 500
    ensures FrameworkKind(phrases, i).code == ["C00001", "C00003", "C00004", "C00005", "C00006", "C00007"][i]
    ensures FrameworkKind(phrases, i).name ==
            ["InvalidRequestError", "AuthError", "ForbiddenError", "NotFoundError", "ContextError",
             "ContextValueNotFoundError"][i]
  {
  }

  /** The framework's own kinds hang below HTTP kinds, which are nil when a status has none. */
  method BuildTertiary(http: map<int, Kind>, phrases: Phrases, i: nat, above: Kind) returns (kind: Kind)
    requires i < 6 && BuiltUpTo(http, phrases, 600) && above.Valid()
    requires i == 4 ==> above.Value() == SYSTEM_ERROR
    requires i == 5 ==> above.Value() == FrameworkKind(phrases, 4)
    ensures kind.Valid() && !kind.custom && fresh(kind)
    ensures kind.Value() == FrameworkKind(phrases, i) && IdentityOf(kind) == TERTIARIES[i]
  {
    hide HttpKind, IsStandard;
    var parent: Kind? := if i < 4 then Entry(http, PARENT_STATUSES[i]) else above;
    kind := new Kind(TERTIARIES[i].name, TERTIARIES[i].code, DESCRIPTIONS[i], 0, parent);
  }

  method BuildTertiaries(http: map<int, Kind>, phrases: Phrases, systemError: Kind) returns (kinds: seq<Kind>)
    requires systemError.Valid() && systemError.Value() == SYSTEM_ERROR && BuiltUpTo(http, phrases, 600)
    ensures Identities(kinds) == TERTIARIES
    ensures forall k :: k in kinds ==> k.Valid() && !k.custom && fresh(k)
    ensures forall i :: 0 <= i < |kinds| ==> kinds[i].Value() == FrameworkKind(phrases, i)
  {
    hide FrameworkKind, BuiltUpTo, Kind.Valid, Kind.Value, Identities;
    kinds := [];
    var i := 0;
    while i < |TERTIARIES|
      invariant 0 <= i <= |TERTIARIES| && |kinds| == i
      invariant forall k :: 0 <= k < i ==> kinds[k].Valid() && !kinds[k].custom && fresh(kinds[k])
      invariant forall k :: 0 <= k < i ==> kinds[k].Value() == FrameworkKind(phrases, k)
      invariant forall k :: 0 <= k < i ==> IdentityOf(kinds[k]) == TERTIARIES[k]
      invariant BuiltUpTo(http, phrases, 600)
      invariant systemError.Valid() && systemError.Value() == SYSTEM_ERROR
    {
      var kind := BuildTertiary(http, phrases, i, if i == 5 then kinds[4] else systemError);
      kinds := kinds + [kind];
      i := i + 1;
    }
    assert Identities(kinds) == TERTIARIES;
  }

  function Entry(http: map<int, Kind>, status: int): Kind? {
    if status in http then http[status] else null
  }

  /** Everything init registers, in order. */
  ghost predicate Built(primitives: seq<Kind>, http: map<int, Kind>, tertiaries: seq<Kind>, phrases: Phrases)
    reads http.Values, primitives, tertiaries
    reads set k, l | k in http.Values && l in k.lineage :: l
    reads set k, l | k in primitives && l in k.lineage :: l
    reads set k, l | k in tertiaries && l in k.lineage :: l
  {
    && Identities(primitives) == PRIMITIVES && Identities(tertiaries) == TERTIARIES
    && BuiltUpTo(http, phrases, 600)
    && (forall k :: k in primitives ==> k.Valid() && !k.custom)
    && (forall k :: k in tertiaries ==> k.Valid() && !k.custom)
    && |primitives| == 3 && primitives[0].Value() == ERROR
    && primitives[1].Value() == USER_ERROR && primitives[2].Value() == SYSTEM_ERROR
    && forall i :: 0 <= i < |tertiaries| ==> tertiaries[i].Value() == FrameworkKind(phrases, i)
  }

  method BuildAll(phrases: Phrases) returns (primitives: seq<Kind>, http: map<int, Kind>, tertiaries: seq<Kind>)
    ensures Built(primitives, http, tertiaries, phrases)
  {
    hide Kind.Valid, Kind.Value, Identities, IsStandard, KindForStatus, FrameworkKind;
    primitives := BuildPrimitives();
    http := BuildHttpKinds(phrases, primitives[1], primitives[2]);
    tertiaries := BuildTertiaries(http, phrases, primitives[2]);
  }

  /** Every kind registered is as built, and the kind of every status is under its code. */
  ghost predicate Serves(r: Registry, phrases: Phrases)
    reads r, r.codes.Values, set k, l | k in r.codes.Values && l in k.lineage :: l
  {
    && (forall c :: c in r.codes ==> r.codes[c].code == c && r.codes[c].Valid() && !r.codes[c].custom)
    && (forall s: int :: var k := KindForStatus(phrases, s); k.code in r.codes && r.codes[k.code].Value() == k)
    && ERROR.code in r.codes && r.codes[ERROR.code].Value() == ERROR
    && forall i: nat | i < 6 ::
      var k := FrameworkKind(phrases, i); k.code in r.codes && r.codes[k.code].Value() == k
  }

  /** init: whatever statuses are standard, and in whatever order their map is walked, no panic. */
  method Init(phrases: Phrases, order: seq<nat>) returns (r: Registry, http: map<int, Kind>, panicked: bool)
    requires Distinct(order) && forall s: nat :: s in order <==> IsStandard(phrases, s)
    ensures !panicked && r.Coherent() && Serves(r, phrases)
    ensures BuiltUpTo(http, phrases, 600)
  {
    hide *;
    var primitives, tertiaries;
    primitives, http, tertiaries := BuildAll(phrases);
    OrderIsBuilt(primitives, http, tertiaries, phrases, order);
    StagesAreNew(primitives, http, tertiaries, phrases, order);
    r := new Registry();
    NothingHeld(r);
    panicked := RegisterAll(r, primitives, http, tertiaries, order);
    HeldIsServed(r, primitives, http, tertiaries, phrases, order);
  }

  method RegisterAll(r: Registry, primitives: seq<Kind>, http: map<int, Kind>, tertiaries: seq<Kind>, order: seq<nat>)
    returns (panicked: bool)
    requires Holds(r, []) && forall i :: 0 <= i < |order| ==> order[i] in http
    requires AllNew({}, {}, Identities(primitives))
    requires AllNew({}, {}, Identities(primitives + Picked(http, order)))
    requires AllNew({}, {}, Identities(primitives + Picked(http, order) + tertiaries))
    modifies r
    ensures !panicked && Holds(r, primitives + Picked(http, order) + tertiaries)
  {
    hide AllNew, Holds, Identities;
    assert [] + primitives == primitives;
    panicked := RegisterNext(r, primitives, []);
    panicked := RegisterHttpKinds(r, http, order, primitives);
    panicked := RegisterNext(r, tertiaries, primitives + Picked(http, order));
  }

  lemma NothingHeld(r: Registry)
    requires r.codes == r.names == map[]
    ensures Holds(r, [])
  {
    NothingAdded(map[], map[]);
  }

  lemma OrderIsBuilt(primitives: seq<Kind>, http: map<int, Kind>, tertiaries: seq<Kind>, phrases: Phrases,
                     order: seq<nat>)
    requires Built(primitives, http, tertiaries, phrases) && forall s: nat :: s in order <==> IsStandard(phrases, s)
    ensures BuiltUpTo(http, phrases, 600) && forall i :: 0 <= i < |order| ==> order[i] in http
  {
    forall i | 0 <= i < |order| ensures order[i] in http {
      assert order[i] in order && IsStandard(phrases, order[i]);
    }
  }

  lemma StagesAreNew(primitives: seq<Kind>, http: map<int, Kind>, tertiaries: seq<Kind>, phrases: Phrases,
                     order: seq<nat>)
    requires Built(primitives, http, tertiaries, phrases) && Distinct(order)
    requires forall i :: 0 <= i < |order| ==> order[i] in http
    ensures var picked := Picked(http, order);
      && AllNew({}, {}, Identities(primitives)) && AllNew({}, {}, Identities(primitives + picked))
      && AllNew({}, {}, Identities(primitives + picked + tertiaries))
  {
    hide AllNew, Identities, Secondaries;
    var picked := Picked(http, order);
    var all := primitives + picked + tertiaries;
    StartupNeverClashes(order);
    PickedIdentities(http, phrases, order);
    IdentitiesBoth(primitives, picked);
    IdentitiesBoth(primitives + picked, tertiaries);
    assert all[..3] == primitives && all[..3 + |order|] == primitives + picked;
    IdentitiesPrefix(all, 3);
    IdentitiesPrefix(all, 3 + |order|);
    PartIsNew({}, {}, Identities(all), 3);
    PartIsNew({}, {}, Identities(all), 3 + |order|);
  }

  lemma IdentitiesBoth(a: seq<Kind>, b: seq<Kind>)
    ensures Identities(a + b) == Identities(a) + Identities(b)
  {
    hide Identities;
  }

  /** Under each code is the kind that was registered with it. */
  lemma {:induction false} UnderOwnCode(ks: seq<Kind>, m: map<string, Kind>)
    requires AllNew({}, {}, Identities(ks)) && m == WithCodes(map[], ks)
    ensures forall i :: 0 <= i < |ks| ==> ks[i].code in m && m[ks[i].code] == ks[i]
    ensures forall c :: c in m ==> m[c] in ks
  {
    if ks != [] {
      var n := |ks| - 1;
      IdentitiesPrefix(ks, n);
      PartIsNew({}, {}, Identities(ks), n);
      UnderOwnCode(ks[..n], WithCodes(map[], ks[..n]));
      assert Identities(ks)[n] == IdentityOf(ks[n]);
      forall i | 0 <= i < n ensures ks[i].code != ks[n].code && ks[..n][i] == ks[i] {
        assert Identities(ks)[i] == IdentityOf(ks[i]);
      }
    }
  }

  lemma BuiltIsPlain(primitives: seq<Kind>, http: map<int, Kind>, tertiaries: seq<Kind>, phrases: Phrases,
                     order: seq<nat>)
    requires Built(primitives, http, tertiaries, phrases) && forall i :: 0 <= i < |order| ==> order[i] in http
    ensures forall k :: k in primitives + Picked(http, order) + tertiaries ==> k.Valid() && !k.custom
  {
    hide Identities, KindForStatus, FrameworkKind, IsStandard;
    forall k | k in primitives + Picked(http, order) + tertiaries ensures k.Valid() && !k.custom {
      if k !in primitives && k !in tertiaries {
        var i :| 0 <= i < |order| && k == http[order[i]];
        StatusKindIsPlain(phrases, order[i]);
        assert !k.Value().custom;
      }
    }
  }

  lemma HeldIsServed(r: Registry, primitives: seq<Kind>, http: map<int, Kind>, tertiaries: seq<Kind>,
                     phrases: Phrases, order: seq<nat>)
    requires Built(primitives, http, tertiaries, phrases)
    requires forall i :: 0 <= i < |order| ==> order[i] in http
    requires forall s: nat :: s in order <==> IsStandard(phrases, s)
    requires Holds(r, primitives + Picked(http, order) + tertiaries)
    ensures r.Coherent() && Serves(r, phrases)
  {
    hide AllNew, WithCodes, WithNames, Identities, Secondaries, Decimal, Padded, Framed, KindForStatus, FrameworkKind;
    hide IsStandard;
    var ks := primitives + Picked(http, order) + tertiaries;
    var m := r.codes;
    UnderOwnCode(ks, m);
    BuiltIsPlain(primitives, http, tertiaries, phrases, order);
    forall c | c in r.codes ensures r.codes[c].code == c && r.codes[c].Valid() && !r.codes[c].custom {
      assert c in m && m[c] in ks;
    }
    assert ks[0] == primitives[0] && m[ks[0].code] == ks[0];
    TertiariesAreServed(primitives + Picked(http, order), tertiaries, m, phrases);
    forall s: int
      ensures KindForStatus(phrases, s).code in r.codes
      ensures r.codes[KindForStatus(phrases, s).code].Value() == KindForStatus(phrases, s)
    {
      var k := ServedBy(primitives, http, phrases, order, s);
      assert k in ks && k.code == k.Value().code;
      var i :| 0 <= i < |ks| && ks[i] == k;
      assert m[ks[i].code] == ks[i];
    }
  }

  lemma TertiariesAreServed(before: seq<Kind>, tertiaries: seq<Kind>, m: map<string, Kind>, phrases: Phrases)
    requires Identities(tertiaries) == TERTIARIES
    requires forall k :: k in tertiaries ==> k.Valid() && !k.custom
    requires forall i :: 0 <= i < |tertiaries| ==> tertiaries[i].Value() == FrameworkKind(phrases, i)
    requires var ks := before + tertiaries; forall i :: 0 <= i < |ks| ==> ks[i].code in m && m[ks[i].code] == ks[i]
    ensures forall i: nat | i < 6 ::
              var k := FrameworkKind(phrases, i); k.code in m && m[k.code] in tertiaries && m[k.code].Value() == k
  {
    hide FrameworkKind, Identities;
    var ks := before + tertiaries;
    forall i: nat | i < 6
      ensures var k := FrameworkKind(phrases, i); k.code in m && m[k.code] in tertiaries && m[k.code].Value() == k
    {
      assert ks[|before| + i] == tertiaries[i] && tertiaries[i] in tertiaries;
      assert tertiaries[i].Value().code == tertiaries[i].code;
    }
  }

  lemma StatusKindIsPlain(phrases: Phrases, s: int)
    ensures !KindForStatus(phrases, s).custom
  {
  }

  lemma ServedBy(primitives: seq<Kind>, http: map<int, Kind>, phrases: Phrases, order: seq<nat>, s: int)
    returns (k: Kind)
    requires |primitives| == 3 && primitives[1].Valid() && primitives[2].Valid()
    requires primitives[1].Value() == USER_ERROR && primitives[2].Value() == SYSTEM_ERROR
    requires BuiltUpTo(http, phrases, 600) && forall i :: 0 <= i < |order| ==> order[i] in http
    requires forall s: nat :: s in order <==> IsStandard(phrases, s)
    ensures k.Valid() && k.Value() == KindForStatus(phrases, s) && k in primitives + Picked(http, order)
  {
    if IsStandard(phrases, s) {
      assert s in order;
      var i :| 0 <= i < |order| && order[i] == s;
      k := http[s];
      assert Picked(http, order)[i] == k;
    } else {
      k := if 400 <= s < 500 then primitives[1] else primitives[2];
    }
  }
}
