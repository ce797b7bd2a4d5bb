/**
 Errors across service hops: WriteError sanitizes and encodes, DecodeFor decodes
 with the status the response arrived with.  JSON is the identity on DTOs, except
 that an empty details map is omitted and comes back nil.
 */
module Wire {
  import opened Prelude
  import opened Kinds
  import opened KindRegistry
  import opened StatusKinds
  import opened ErrorChains

  datatype DTO = DTO(name: string, error: string, code: string, origin: string, details: Details)

  datatype Response = Response(status: int, dto: DTO)

  /** The registry as both ends see it, and which statuses are standard. */
  datatype World = World(registry: map<string, KindValue>, phrases: Phrases)

  function ErrorCode(err: Option<Fault>): string {
    match err
    case Some(Garlic(kind, _, _, _, _, _)) => kind.code
    case Some(Headless(code)) => code
    case _ => ""
  }

  function ErrorDTO(e: Fault): DTO
    requires e.Garlic?
  {
    DTO(Fqn(e.kind), e.message, e.kind.code, ErrorCode(e.origin), e.details)
  }

  const SUPPRESSED := Hint("Suppressed system error, contact the support")

  /** Only user-class errors cross in full; the rest become the generic error of their status. */
  function ProtectErrorDTO(w: World, e: Fault): DTO
    requires e.Garlic?
  {
    if IsUserClass(e.kind) then ErrorDTO(e)
    else
      var generic := KindForStatus(w.phrases, StatusOf(e.kind));
      ErrorDTO(With(Fresh(generic, generic.description, Some(e)), [SUPPRESSED]))
  }

  /** errors.As for ErrorT: the first error of ours when unwrapping. */
  function AsOwn(err: Fault): (r: Option<Fault>)
    ensures r.Some? ==> r.value.Garlic?
  {
    if err.Garlic? then Some(err)
    else if err.Headless? || err.cause.None? then None
    else AsOwn(err.cause.value)
  }

  function WriteError(w: World, err: Option<Fault>): Response {
    var e :=
      if err.None? then Fresh(SYSTEM_ERROR, "unknown error", None)
      else if AsOwn(err.value).None? then Fresh(SYSTEM_ERROR, "internal server error", None)
      else AsOwn(err.value).value;
    Response(StatusOf(e.kind), ProtectErrorDTO(w, e))
  }

  function Json(dto: DTO): DTO {
    dto.(details := if dto.details == Some(map[]) then None else dto.details)
  }

  function Decode(w: World, dto: DTO): Option<Fault> {
    if dto.code !in w.registry then None
    else
      var origin := if dto.origin == "" then None else Some(Headless(dto.origin));
      Some(Garlic(w.registry[dto.code], dto.error, None, origin, dto.details, []))
  }

  function DecodeFor(w: World, dto: DTO, status: int): Option<Fault> {
    var e := Decode(w, dto);
    if e.Some? && status > 0 && StatusOf(e.value.kind) != status
    then Some(e.value.(kind := Customized(e.value.kind, status)))
    else e
  }

  // --- what a response says -------------------------------------------------------------------------

  /** No error of ours is on the chain. */
  ghost predicate Foreigner(err: Fault) {
    forall n: nat :: CauseAt(err, n).Some? ==> !CauseAt(err, n).value.Garlic?
  }

  /** The n-th error on the chain is the first of ours. */
  ghost predicate FirstOfOurs(err: Fault, n: nat) {
    && CauseAt(err, n).Some? && CauseAt(err, n).value.Garlic?
    && forall m: nat | m < n :: CauseAt(err, m).Some? && !CauseAt(err, m).value.Garlic?
  }

  lemma {:induction false} FindsFirstOfOurs(err: Fault, n: nat)
    ensures FirstOfOurs(err, n) ==> AsOwn(err) == CauseAt(err, n)
    ensures Foreigner(err) ==> AsOwn(err) == None
  {
    assert CauseAt(err, 0) == Some(err);
    if !err.Garlic? && !err.Headless? && err.cause.Some? {
      var c := err.cause.value;
      forall m: nat ensures CauseAt(err, m + 1) == CauseAt(c, m) {}
      if FirstOfOurs(err, n) {
        forall m: nat | m < n - 1 ensures CauseAt(c, m).Some? && !CauseAt(c, m).value.Garlic? {
          assert CauseAt(err, m + 1).Some?;
        }
      }
      if Foreigner(err) {
        forall m: nat | CauseAt(c, m).Some? ensures !CauseAt(c, m).value.Garlic? { assert CauseAt(err, m + 1).Some?; }
      }
      FindsFirstOfOurs(c, if n > 0 then n - 1 else 0);
    }
  }

  /** The response to an unknown failure: the generic error of 500, over the system error's code. */
  function Opaque(w: World): Response {
    var generic := KindForStatus(w.phrases, 500);
    Response(500, DTO(Fqn(generic), generic.description, generic.code, "P00002",
                      Some(map["hint" := "Suppressed system error, contact the support"])))
  }

  /** No text of a foreign error, or of what it wraps, reaches the client; neither does a nil error. */
  lemma ForeignErrorsAreOpaque(w: World, err: Fault)
    ensures Foreigner(err) ==> WriteError(w, Some(err)) == Opaque(w)
    ensures WriteError(w, None) == Opaque(w)
  {
    hide KindForStatus, With;
    FindsFirstOfOurs(err, 0);
    SystemIsNoUser();
    Sent(w, Fresh(SYSTEM_ERROR, "unknown error", None));
    Sent(w, Fresh(SYSTEM_ERROR, "internal server error", None));
  }

  lemma SystemIsNoUser()
    ensures !IsUserClass(SYSTEM_ERROR) && StatusOf(SYSTEM_ERROR) == 500
  {
    CodesOfClasses();
  }

  /** A wrapper of others around an error of ours is answered as that error. */
  lemma WrappersAreTransparent(w: World, err: Fault, n: nat)
    requires FirstOfOurs(err, n)
    ensures WriteError(w, Some(err)) == WriteError(w, CauseAt(err, n))
  {
    hide ProtectErrorDTO;
    FindsFirstOfOurs(err, n);
    var e := CauseAt(err, n).value;
    assert AsOwn(e) == Some(e);
  }

  function OriginCode(e: Fault): string
    requires e.Garlic?
  {
    if e.origin.None? || e.origin.value.Foreign? then ""
    else if e.origin.value.Headless? then e.origin.value.code else e.origin.value.kind.code
  }

  /** An error of ours is answered with its status; in full if it is the user's, and else by its code alone. */
  lemma OursIsAnswered(w: World, e: Fault)
    requires e.Garlic?
    ensures var r, generic := WriteError(w, Some(e)), KindForStatus(w.phrases, StatusOf(e.kind));
      && r.status == StatusOf(e.kind)
      && r.dto == if IsA(e.kind, "P00001") then DTO(Fqn(e.kind), e.message, e.kind.code, OriginCode(e), e.details)
                  else DTO(Fqn(generic), generic.description, generic.code, e.kind.code,
                           Some(map["hint" := "Suppressed system error, contact the support"]))
  {
    hide KindForStatus, With, StatusOf;
    Sent(w, e);
    assert AsOwn(e) == Some(e);
  }

  // --- hops -------------------------------------------------------------------------------------

  /** Every kind is registered under its own code, and so is the generic kind of every status. */
  ghost predicate Coherent(w: World) {
    && (forall c :: c in w.registry ==> w.registry[c].code == c && !w.registry[c].custom)
    && (forall s: int :: Knows(w, KindForStatus(w.phrases, s)))
  }

  predicate Knows(w: World, k: KindValue) {
    k.code in w.registry && w.registry[k.code] == k
  }

  /** An error whose kind is registered, as it is or with a status pinned. */
  predicate Sendable(w: World, e: Fault) {
    && e.Garlic? && e.kind.code in w.registry
    && e.kind.(status := w.registry[e.kind.code].status, custom := false) == w.registry[e.kind.code]
    && StatusOf(e.kind) >= 400
  }

  /** Every error of a registered kind that reports an error status may be sent, with a status pinned or without. */
  lemma RegisteredErrorsAreSendable(w: World, code: string, message: string, pin: int)
    requires Coherent(w) && code in w.registry
    ensures StatusOf(w.registry[code]) >= 400 ==> Sendable(w, Fresh(w.registry[code], message, None))
    ensures pin >= 400 ==> Sendable(w, Fresh(Customized(w.registry[code], pin), message, None))
  {
    CustomizingKeepsIdentity(w.registry[code], pin, code);
  }

  /** What a service receives when another answers with this error. */
  function Hop(w: World, e: Fault): Option<Fault> {
    var sent := WriteError(w, Some(e));
    DecodeFor(w, Json(sent.dto), sent.status)
  }

  function Generic(w: World, e: Fault): KindValue
    requires e.Garlic?
  {
    KindForStatus(w.phrases, StatusOf(e.kind))
  }

  lemma SameClass(a: KindValue, b: KindValue, code: string)
    requires a.(status := b.status, custom := b.custom) == b
    ensures IsA(a, code) <==> IsA(b, code)
    ensures Fqn(a) == Fqn(b)
  {
    assert a.parent == b.parent && a.code == b.code && a.name == b.name;
  }

  /** What the peer reads: a user-class error as it was, any other as its status alone. */
  lemma Sent(w: World, e: Fault)
    requires e.Garlic?
    ensures var dto := ProtectErrorDTO(w, e);
      if IsUserClass(e.kind) then dto == ErrorDTO(e)
      else dto == DTO(Fqn(Generic(w, e)), Generic(w, e).description, Generic(w, e).code, e.kind.code,
                      Some(map[HINT := SUPPRESSED.text]))
  {
    if !IsUserClass(e.kind) {
      var start := Fresh(Generic(w, e), Generic(w, e).description, Some(e));
      assert [SUPPRESSED][..0] == [];
      assert With(start, [SUPPRESSED]) == Applied(start, SUPPRESSED);
      assert map[][HINT := SUPPRESSED.text] == map[HINT := SUPPRESSED.text];
    }
  }

  /** A sanitized error tells its code and its status, and nothing else. */
  lemma NothingElseLeaks(w: World, e: Fault, f: Fault)
    requires e.Garlic? && f.Garlic? && !IsUserClass(e.kind) && !IsUserClass(f.kind)
    ensures ProtectErrorDTO(w, e) == ProtectErrorDTO(w, f) <==>
            e.kind.code == f.kind.code && Generic(w, e) == Generic(w, f)
  {
    hide With, Fresh;
    Sent(w, e);
    Sent(w, f);
    CodesNameKinds(w.phrases, StatusOf(e.kind), StatusOf(f.kind));
  }

  /** One hop: the status arrives, and the rest of the error is what the body said. */
  lemma HopKeepsStatus(w: World, e: Fault)
    requires Coherent(w) && Sendable(w, e)
    ensures Hop(w, e).Some?
    ensures var f, dto := Hop(w, e).value, Json(ProtectErrorDTO(w, e));
      && Sendable(w, f) && StatusOf(f.kind) == StatusOf(e.kind)
      && f.kind.code == dto.code && Fqn(f.kind) == dto.name && f.message == dto.error
      && f.details == dto.details && ErrorCode(f.origin) == dto.origin
      && (IsUserClass(f.kind) <==> IsUserClass(e.kind) || IsUserClass(Generic(w, e)))
  {
    hide With, Fresh, KindForStatus;
    Sent(w, e);
    assert AsOwn(e) == Some(e);
    assert Knows(w, Generic(w, e));
    var dto := ProtectErrorDTO(w, e);
    var registered := w.registry[dto.code];
    if IsUserClass(e.kind) { SameClass(e.kind, registered, USER_ERROR.code); }
    CustomizingKeepsIdentity(registered, StatusOf(e.kind), USER_ERROR.code);
  }

  /** A user-class body never changes again, the first time or any other. */
  lemma UserBodyIsFixed(w: World, e: Fault)
    requires Coherent(w) && Sendable(w, e) && IsUserClass(e.kind)
    ensures Hop(w, e).Some? && Hop(w, e).value.Garlic?
    ensures Json(ProtectErrorDTO(w, Hop(w, e).value)) == Json(ProtectErrorDTO(w, e))
  {
    HopKeepsStatus(w, e);
    Sent(w, e);
    Sent(w, Hop(w, e).value);
  }

  /** A sanitized body is fixed too, but for its origin when the generic kind is itself sanitized. */
  lemma SanitizedBodyAfterOneHop(w: World, e: Fault)
    requires Coherent(w) && Sendable(w, e) && !IsUserClass(e.kind)
    ensures Hop(w, e).Some? && Hop(w, e).value.Garlic?
    ensures var first, second := Json(ProtectErrorDTO(w, e)), Json(ProtectErrorDTO(w, Hop(w, e).value));
      && second == first.(origin := if IsUserClass(Generic(w, e)) then first.origin else Generic(w, e).code)
      && Generic(w, Hop(w, e).value) == Generic(w, e)
  {
    HopKeepsStatus(w, e);
    Sent(w, e);
    Sent(w, Hop(w, e).value);
  }

  /** A user's error arrives as it was sent: message, code, ancestry, details and origin, and its status. */
  lemma UserErrorArrives(w: World, e: Fault)
    requires Coherent(w) && Sendable(w, e) && IsUserClass(e.kind)
    ensures Hop(w, e).Some?
    ensures var f := Hop(w, e).value;
      && f.Garlic? && f.message == e.message && f.kind.code == e.kind.code && Fqn(f.kind) == Fqn(e.kind)
      && StatusOf(f.kind) == StatusOf(e.kind)
      && f.details == (if e.details == Some(map[]) then None else e.details)
      && f.origin == (if OriginCode(e) == "" then None else Some(Headless(OriginCode(e))))
      && f.cause == None && f.trace == []
  {
    hide KindForStatus, With;
    HopKeepsStatus(w, e);
    OursIsAnswered(w, e);
  }

  ghost function Hops(w: World, e: Fault, n: nat): (f: Fault)
    requires Coherent(w) && Sendable(w, e)
    ensures Sendable(w, f)
  {
    if n == 0 then e
    else
      HopKeepsStatus(w, Hops(w, e, n - 1));
      Hop(w, Hops(w, e, n - 1)).value
  }

  /** The response body the n-th service after the first sends. */
  ghost function Body(w: World, e: Fault, n: nat): DTO
    requires Coherent(w) && Sendable(w, e)
  {
    Json(ProtectErrorDTO(w, Hops(w, e, n)))
  }

  /** The status survives any number of hops. */
  lemma {:induction false} StatusSurvives(w: World, e: Fault, n: nat)
    requires Coherent(w) && Sendable(w, e)
    ensures WriteError(w, Some(Hops(w, e, n))).status == WriteError(w, Some(e)).status == StatusOf(e.kind)
  {
    hide ProtectErrorDTO;
    if n > 0 {
      StatusSurvives(w, e, n - 1);
      HopKeepsStatus(w, Hops(w, e, n - 1));
    }
  }

  /** So a client behind any number of services reads what it would have read directly. */
  lemma {:induction false} UserBodySurvives(w: World, e: Fault, n: nat)
    requires Coherent(w) && Sendable(w, e) && IsUserClass(e.kind)
    ensures IsUserClass(Hops(w, e, n).kind) && Body(w, e, n) == Json(ErrorDTO(e))
  {
    if n == 0 {
      Sent(w, e);
    } else {
      UserBodySurvives(w, e, n - 1);
      UserBodyIsFixed(w, Hops(w, e, n - 1));
      HopKeepsStatus(w, Hops(w, e, n - 1));
    }
  }

  /** A system error settles after two bodies, of which only the origin may differ. */
  lemma {:induction false} SanitizedBodySettles(w: World, e: Fault, n: nat)
    requires Coherent(w) && Sendable(w, e) && !IsUserClass(e.kind)
    ensures Body(w, e, n) ==
            Body(w, e, 0).(origin := if n == 0 || IsUserClass(Generic(w, e)) then e.kind.code else Generic(w, e).code)
    ensures Generic(w, Hops(w, e, n)) == Generic(w, e)
    ensures n > 0 ==> (IsUserClass(Hops(w, e, n).kind) <==> IsUserClass(Generic(w, e)))
  {
    hide ProtectErrorDTO, KindForStatus, With, Fresh;
    Sent(w, e);
    if n > 0 {
      var f := Hops(w, e, n - 1);
      SanitizedBodySettles(w, e, n - 1);
      HopKeepsStatus(w, f);
      if IsUserClass(f.kind) { UserBodyIsFixed(w, f); } else { SanitizedBodyAfterOneHop(w, f); }
    }
  }

  // --- the registry of a running service -----------------------------------------------------------

  /** What decoding sees of a registry. */
  ghost function Seen(r: Registry, phrases: Phrases): World
    requires Serves(r, phrases)
    reads r, r.codes.Values, set k, l | k in r.codes.Values && l in k.lineage :: l
  {
    World(map c | c in r.codes :: r.codes[c].Value(), phrases)
  }

  /** The registry init leaves, with any set of standard statuses, is coherent. */
  lemma ServedIsCoherent(r: Registry, phrases: Phrases)
    requires Serves(r, phrases)
    ensures Coherent(Seen(r, phrases))
  {
    hide KindForStatus;
    var w := Seen(r, phrases);
    forall s: int ensures Knows(w, KindForStatus(phrases, s)) {
      assert KindForStatus(phrases, s).code in r.codes;
    }
  }
}
