/**
 Response.DecodeError: an upstream error response becomes an error that still
 carries the status it arrived with, and the body is closed on every path.
 */
module ResponseErrors {
  import opened Prelude
  import opened Kinds
  import opened StatusKinds
  import opened ErrorChains
  import opened Wire

  /** Both below KindSystemError, with no status of their own. */
  const DECODE_ERROR := KindValue(
    "ResponseDecodeError", "C10001",
    "The request was executed correctly but the response could not be decoded.", 0, false, Some(SYSTEM_ERROR))

  const UNKNOWN_RESPONSE := KindValue(
    "UnknownResponseError", "C10003",
    "The request was executed correctly but the response is unknown.", 0, false, Some(SYSTEM_ERROR))

  /** What reading the body to its end gave: an error, or perhaps a garlic DTO. */
  datatype Arrival = Arrival(readErr: Option<Fault>, dto: Option<DTO>)

  /** What is kept of the response for diagnosis; the texts are the program's own. */
  datatype Notes = Notes(message: string, metadata: map<string, string>, at: string)

  function New(kind: KindValue, message: string, opts: seq<Opt>, at: string): Fault {
    With(Fresh(kind, message, None), opts + [Trace(at)])
  }

  function UnknownKind(w: World, status: int, notes: Notes): Fault {
    From(KindWithStatus(UNKNOWN_RESPONSE, status),
         Fresh(StatusKind(w.phrases, status), "upstream returned an error status", None), notes.message, [])
  }

  function Fallback(w: World, status: int, readErr: Option<Fault>, notes: Notes): Fault {
    if readErr.Some? then
      From(StatusKind(w.phrases, status), readErr.value, notes.message, [Detail(notes.metadata)])
    else
      New(StatusKind(w.phrases, status), notes.message, [Detail(notes.metadata)], notes.at)
  }

  function Decoded(w: World, status: int, body: Option<Arrival>, notes: Notes): Fault {
    if status < 400 then New(DECODE_ERROR, "failed to decode a non-error response into error", [], notes.at)
    else if body.Some? && body.value.readErr.None? && body.value.dto.Some? then
      var e := DecodeFor(w, body.value.dto.value, status);
      if e.Some? then e.value else UnknownKind(w, status, notes)
    else Fallback(w, status, if body.None? then None else body.value.readErr, notes)
  }

  function NoResponse(notes: Notes): Fault {
    New(DECODE_ERROR, "response body is empty", [], notes.at)
  }

  /** How many closes an open body still needs. */
  function Open(body: Option<Arrival>): nat {
    if body.Some? then 1 else 0
  }

  /** A Response embeds a *http.Response, which may be nil. */
  class Response {
    const present: bool
    const status: int
    var body: Option<Arrival>
    var closes: nat   // Close calls the body has seen

    constructor (present: bool, status: int, body: Option<Arrival>)
      ensures this.present == present && this.status == status && this.body == body && closes == 0
    {
      this.present, this.status, this.body, this.closes := present, status, body, 0;
    }

    /** An open body is closed once, however often this is called. */
    method Close()
      modifies this
      ensures if present then body.None? && closes == old(closes) + Open(old(body))
              else body == old(body) && closes == old(closes)
    {
      if present && body.Some? {
        closes := closes + 1;
        body := None;
      }
    }

    method DecodeError(w: World, notes: Notes) returns (e: Fault)
      modifies this
      ensures e == if present then Decoded(w, status, old(body), notes) else NoResponse(notes)
      ensures if present then body.None? && closes == old(closes) + Open(old(body))
              else body == old(body) && closes == old(closes)
    {
      if !present { return NoResponse(notes); }
      if status < 400 {
        e := New(DECODE_ERROR, "failed to decode a non-error response into error", [], notes.at);
        Close();
        return;
      }
      var readErr: Option<Fault> := None;
      var dto: Option<DTO> := None;
      if body.Some? {
        readErr := body.value.readErr;
        dto := body.value.dto;
      }
      if readErr.None? && dto.Some? {
        var decoded := DecodeFor(w, dto.value, status);
        e := if decoded.Some? then decoded.value else UnknownKind(w, status, notes);
      } else {
        e := Fallback(w, status, readErr, notes);
      }
      Close();
    }
  }

  // --- what every response keeps ----------------------------------------------------------------

  /** The one way to lose the status: a read error of ours, pinned to another status. */
  predicate Overridden(w: World, status: int, body: Option<Arrival>) {
    && body.Some? && body.value.readErr.Some? && body.value.readErr.value.Garlic?
    && body.value.readErr.value.kind.custom && body.value.readErr.value.kind.status != status
    && !StatusKind(w.phrases, status).custom
  }

  predicate ReadErrorIsReal(body: Option<Arrival>) {
    body.Some? && body.value.readErr.Some? ==> PinsAreReal(KindOf(body.value.readErr.value))
  }

  /** The decoded error reports the very status the response arrived with. */
  lemma StatusIsExact(w: World, status: int, body: Option<Arrival>, notes: Notes)
    requires status >= 400 && ReadErrorIsReal(body)
    ensures StatusOf(KindOf(Decoded(w, status, body, notes))) == status <==> !Overridden(w, status, body)
  {
    hide With, KindForStatus;
    StatusKindIsExact(w.phrases, status, "");
    DecodedKind(w, status, body, notes);
  }

  /** Such a read error takes the status over, wherever a kind reports the upstream one. */
  lemma PinnedReadErrorWins(w: World, status: int, readErr: Fault, notes: Notes)
    requires status >= 400 && (IsStandard(w.phrases, status) || status == 400 || status == 500)
    requires readErr.Garlic? && readErr.kind.custom && readErr.kind.status > 0
    ensures StatusOf(KindOf(Decoded(w, status, Some(Arrival(Some(readErr), None)), notes))) == readErr.kind.status
    ensures Overridden(w, status, Some(Arrival(Some(readErr), None))) <==> readErr.kind.status != status
  {
    hide With, KindForStatus;
    StatusKindIsExact(w.phrases, status, "");
    DecodedKind(w, status, Some(Arrival(Some(readErr), None)), notes);
  }

  /** For one, a 400 whose body fails to read with an error pinned to 499 is reported as 499. */
  lemma FourHundredReadAs499(w: World, notes: Notes)
    ensures var readErr := Fresh(Customized(SYSTEM_ERROR, 499), "connection reset", None);
      var body := Some(Arrival(Some(readErr), None));
      && Overridden(w, 400, body) && ReadErrorIsReal(body)
      && StatusOf(KindOf(Decoded(w, 400, body, notes))) == 499
  {
    PinnedReadErrorWins(w, 400, Fresh(Customized(SYSTEM_ERROR, 499), "connection reset", None), notes);
  }

  function ExpectedKind(w: World, status: int, body: Option<Arrival>): KindValue
    requires status >= 400
  {
    if body.Some? && body.value.readErr.None? && body.value.dto.Some? then
      if body.value.dto.value.code in w.registry then KindWithStatus(w.registry[body.value.dto.value.code], status)
      else KindWithStatus(UNKNOWN_RESPONSE, status)
    else if body.Some? && body.value.readErr.Some? && body.value.readErr.value.Garlic? then
      Inherited(StatusKind(w.phrases, status), body.value.readErr.value.kind)
    else StatusKind(w.phrases, status)
  }

  lemma DecodedKind(w: World, status: int, body: Option<Arrival>, notes: Notes)
    requires status >= 400
    ensures Decoded(w, status, body, notes).Garlic?
    ensures Decoded(w, status, body, notes).kind == ExpectedKind(w, status, body)
  {
    hide With, StatusKind, UnknownKind, Fallback;
    UnknownKindKind(w, status, notes);
    FallbackKind(w, status, if body.None? then None else body.value.readErr, notes);
  }

  lemma UnknownKindKind(w: World, status: int, notes: Notes)
    requires status >= 400
    ensures UnknownKind(w, status, notes).Garlic?
    ensures UnknownKind(w, status, notes).kind == KindWithStatus(UNKNOWN_RESPONSE, status)
    ensures UnknownKind(w, status, notes).cause ==
            Some(Fresh(StatusKind(w.phrases, status), "upstream returned an error status", None))
  {
    hide With, KindForStatus, StatusKind;
    StatusKindIsExact(w.phrases, status, "");
    var cause := Fresh(StatusKind(w.phrases, status), "upstream returned an error status", None);
    OptsKeep(Wrapped(Fresh(KindWithStatus(UNKNOWN_RESPONSE, status), notes.message, None), cause), []);
  }

  lemma FallbackKind(w: World, status: int, readErr: Option<Fault>, notes: Notes)
    ensures var kind, e := StatusKind(w.phrases, status), Fallback(w, status, readErr, notes);
      && e.Garlic? && e.cause == readErr
      && e.kind == if readErr.Some? && readErr.value.Garlic? then Inherited(kind, readErr.value.kind) else kind
  {
    hide With, KindForStatus, StatusKind;
    var kind := StatusKind(w.phrases, status);
    OptsKeep(Fresh(kind, notes.message, None), [Detail(notes.metadata)] + [Trace(notes.at)]);
    if readErr.Some? {
      OptsKeep(Wrapped(Fresh(kind, notes.message, None), readErr.value), [Detail(notes.metadata)]);
    }
  }

  /** Where the peer's kind is not understood, the error still matches the kind of its status. */
  lemma StatusClassIsKept(w: World, status: int, body: Option<Arrival>, notes: Notes)
    requires status >= 400
    requires body.Some? && body.value.readErr.None? && body.value.dto.Some? ==>
               body.value.dto.value.code !in w.registry
    ensures IsKind(Decoded(w, status, body, notes), KindForStatus(w.phrases, status).code)
    ensures body.Some? && body.value.readErr.None? && body.value.dto.Some? ==>
              Decoded(w, status, body, notes).kind.code == UNKNOWN_RESPONSE.code
  {
    hide With, KindForStatus, StatusKind, UnknownKind, Fallback;
    var code := KindForStatus(w.phrases, status).code;
    assert IsA(KindForStatus(w.phrases, status), code);
    StatusKindIsExact(w.phrases, status, code);
    UnknownKindKind(w, status, notes);
    var readErr := if body.None? then None else body.value.readErr;
    FallbackKind(w, status, readErr, notes);
    if readErr.Some? && readErr.value.Garlic? {
      CustomizingKeepsIdentity(StatusKind(w.phrases, status), readErr.value.kind.status, code);
    }
    assert IsKind(Fallback(w, status, readErr, notes), code);
    assert IsKind(Fresh(StatusKind(w.phrases, status), "upstream returned an error status", None), code);
  }

  /** A registered peer error keeps code, ancestry, message, details and origin; only its status may move. */
  lemma PeerErrorIsKept(w: World, status: int, dto: DTO, notes: Notes, code: string)
    requires status >= 400 && dto.code in w.registry && w.registry[dto.code].code == dto.code
    ensures var e := Decoded(w, status, Some(Arrival(None, Some(dto))), notes);
      && e.Garlic? && e.kind.code == dto.code && e.message == dto.error && e.details == dto.details
      && ErrorCode(e.origin) == dto.origin && e.cause.None?
      && Fqn(e.kind) == Fqn(w.registry[dto.code]) && (IsA(e.kind, code) <==> IsA(w.registry[dto.code], code))
  {
    hide With, KindForStatus, StatusKind, UnknownKind, Fallback;
    CustomizingKeepsIdentity(w.registry[dto.code], status, code);
  }

  /** Retyping a fallback error keeps the upstream status only if no kind reports that status. */
  lemma RetypingAFallback(w: World, status: int, notes: Notes, l: Link)
    requires status >= 400 && Given(l).Some? && !l.kind.custom
    ensures var e := Fallback(w, status, None, notes);
      StatusOf(Linked(l, e).kind) ==
      if IsStandard(w.phrases, status) || status == 400 || status == 500 then StatusOf(l.kind) else status
  {
    hide With, KindForStatus, StatusKind, Fallback, Linked;
    StatusKindIsExact(w.phrases, status, "");
    FallbackKind(w, status, None, notes);
    LinkedIs(l, Fallback(w, status, None, notes));
    CustomizingKeepsIdentity(l.kind, status, "");
  }

  // --- what the other errors say ------------------------------------------------------------------

  /** What is no error response, or no response, is refused as a local failure that tells nothing of the body. */
  lemma OnlyErrorsAreDecoded(w: World, status: int, body: Option<Arrival>, notes: Notes)
    requires status < 400
    ensures forall e :: e == Decoded(w, status, body, notes) || e == NoResponse(notes) ==>
              && e.Garlic? && e.kind.code == "C10001" && StatusOf(e.kind) == 500 && IsA(e.kind, "P00002")
              && e.cause == None && e.origin == None && e.details == Some(map[]) && e.trace == [notes.at]
    ensures Decoded(w, status, body, notes).message == "failed to decode a non-error response into error"
    ensures NoResponse(notes).message == "response body is empty"
  {
    LocalFailure("failed to decode a non-error response into error", notes.at);
    LocalFailure("response body is empty", notes.at);
  }

  lemma LocalFailure(message: string, at: string)
    ensures var e := New(DECODE_ERROR, message, [], at);
      && e.kind == DECODE_ERROR && e.message == message && e.cause == None && e.origin == None
      && e.details == Some(map[]) && e.trace == [at]
  {
    var start := Fresh(DECODE_ERROR, message, None);
    assert [] + [Trace(at)] == [Trace(at)] && [Trace(at)][..0] == [];
    assert With(start, [Trace(at)]) == Applied(start, Trace(at));
  }

  /** Without a DTO to read, the error keeps what is known of the body, and a read error as its cause. */
  lemma FallbackIsDescribed(w: World, status: int, body: Option<Arrival>, notes: Notes, key: string)
    requires status >= 400 && (body.None? || body.value.readErr.Some? || body.value.dto.None?)
    requires body.Some? && body.value.readErr.Some? && body.value.readErr.value.Garlic? ==>
               body.value.readErr.value.details.Some?
    ensures var e, readErr := Decoded(w, status, body, notes), if body.None? then None else body.value.readErr;
      && e.Garlic? && e.message == notes.message && e.cause == readErr
      && (key in notes.metadata ==> DetailAt(e.details, key) == Some(notes.metadata[key]))
      && (key !in notes.metadata ==>
            DetailAt(e.details, key) == if readErr.Some? then DetailAt(DetailsOf(readErr.value), key) else None)
      && e.trace == if readErr.Some? then ErrorChains.TraceOf(readErr.value) else [notes.at]
  {
    hide With, KindForStatus, StatusKind;
    var readErr := if body.None? then None else body.value.readErr;
    var kind := StatusKind(w.phrases, status);
    if readErr.Some? {
      Described(Wrapped(Fresh(kind, notes.message, None), readErr.value), [Detail(notes.metadata)], notes, key);
    } else {
      Described(Fresh(kind, notes.message, None), [Detail(notes.metadata)] + [Trace(notes.at)], notes, key);
    }
  }

  lemma Described(e: Fault, opts: seq<Opt>, notes: Notes, key: string)
    requires e.Garlic? && e.details.Some?
    requires opts == [Detail(notes.metadata)] || opts == [Detail(notes.metadata)] + [Trace(notes.at)]
    ensures var r := With(e, opts);
      && r.message == e.message && r.cause == e.cause
      && DetailAt(r.details, key) ==
         (if key in notes.metadata then Some(notes.metadata[key]) else DetailAt(e.details, key))
      && r.trace == e.trace + if |opts| == 1 then [] else [notes.at]
  {
    hide With;
    OptsKeep(e, opts);
    OptsTrace(e, opts);
    OptsWriteDetails(e, opts, key);
    assert [Detail(notes.metadata)][..0] == [] && opts[..1] == [Detail(notes.metadata)];
    assert Entries([Detail(notes.metadata)]) == [];
    assert LastWritten(DetailAt(e.details, key), [Detail(notes.metadata)], key) ==
           if key in notes.metadata then Some(notes.metadata[key]) else DetailAt(e.details, key);
  }

  /** A DTO of a kind unknown here is named as such, over the generic error of its status. */
  lemma UnknownKindsAreNamed(w: World, status: int, dto: DTO, notes: Notes)
    requires status >= 400 && dto.code !in w.registry
    ensures var e := Decoded(w, status, Some(Arrival(None, Some(dto))), notes);
      && e.Garlic? && e.kind.code == "C10003" && IsA(e.kind, "P00002") && StatusOf(e.kind) == status
      && e.message == notes.message
      && e.cause == Some(Fresh(StatusKind(w.phrases, status), "upstream returned an error status", None))
  {
    hide With, KindForStatus, StatusKind, StatusOf;
    UnknownKindKind(w, status, notes);
    StatusIsExact(w, status, Some(Arrival(None, Some(dto))), notes);
    CustomizingKeepsIdentity(UNKNOWN_RESPONSE, status, "P00002");
    assert IsA(UNKNOWN_RESPONSE, "P00002");
    var cause := Fresh(StatusKind(w.phrases, status), "upstream returned an error status", None);
    OptsKeep(Wrapped(Fresh(KindWithStatus(UNKNOWN_RESPONSE, status), notes.message, None), cause), []);
  }
}
