/**
 Request.execute and its retry loop, with everything observable recorded in a
 trace: bodies opened and closed, tokens fetched, sends, responses closed, waits.
 What the outside world answers is an oracle indexed by attempt, so a statement
 about all oracles is a statement about all behaviours of it.
 */
module HttpRetry {
  import opened Prelude
  import opened RetryPolicy

  type Bytes = seq<nat>

  /** memoryBody is replayable; streams and multipart bodies are read once. */
  datatype Body = NoBody | MemoryBody(data: Bytes) | StreamBody(data: Bytes)

  /** basic, authToken, an Authorization header of the caller's, a TokenSource: first one wins. */
  datatype Credentials = Credentials(basic: bool, token: string, callerHeader: bool, source: bool)

  datatype Authorization = Basic | Bearer(token: string) | CallerHeader | Anonymous

  /** A policy of the caller's judges an attempt by its answer and by whether the context is done. */
  datatype Policy =
    | Default
    | Custom(verdict: (nat, Answer, bool) -> Verdict, backoff: (nat, Answer) -> int)

  datatype Config = Config(
    enabled: bool, maxRetries: int, minWait: int, maxWait: int, policy: Policy,
    retryOverride: Option<bool>, httpMethod: string, body: Body, credentials: Credentials)

  datatype World = World(
    opens: bool,                    // the body provider yields a body for the first attempt
    hooks: bool,                    // every before-request hook succeeds
    tokens: nat -> Option<string>,  // what the TokenSource answers before attempt n
    rewinds: nat -> bool,           // GetBody succeeds before attempt n
    answers: nat -> Answer,         // what Do answers to attempt n
    cancelled: nat -> bool,         // the context is done when the policy looks at attempt n
    sleeps: nat -> bool,            // the wait after attempt n completes
    jitter: nat -> real)

  datatype Event =
    | OpenBody(attempt: nat)
    | CloseBody(attempt: nat)
    | FetchToken(attempt: nat, token: Option<string>)
    | Send(attempt: nat, body: Option<Bytes>, auth: Authorization)
    | CloseResponse(attempt: nat)
    | Wait(attempt: nat, duration: int)

  datatype Result =
    | NoRequest                     // the provider failed
    | HookFailed
    | AuthFailed(attempt: nat)
    | RewindFailed(attempt: nat)
    | Delivered(attempt: nat)
    | TransportError(attempt: nat)
    | PolicyFailed(attempt: nat)
    | Cancelled(attempt: nat)

  // --- decisions ---------------------------------------------------------------------

  predicate Replayable(b: Body) {
    !b.StreamBody?
  }

  predicate CanRetry(c: Config) {
    var enabled := if c.retryOverride.Some? then c.retryOverride.value && c.maxRetries > 0
                   else c.enabled && c.maxRetries > 0;
    var idempotent := IsIdempotent(c.httpMethod) || (c.retryOverride.Some? && c.retryOverride.value);
    enabled && Replayable(c.body) && idempotent
  }

  predicate UsesSource(cr: Credentials) {
    !cr.basic && cr.token == "" && !cr.callerHeader && cr.source
  }

  function AuthorizationFor(cr: Credentials, fetched: Option<string>): Option<Authorization> {
    if cr.basic then Some(Basic)
    else if cr.token != "" then Some(Bearer(cr.token))
    else if cr.callerHeader then Some(CallerHeader)
    else if cr.source then (if fetched.Some? then Some(Bearer(fetched.value)) else None)
    else Some(Anonymous)
  }

  function Judged(c: Config, n: nat, a: Answer, cancelled: bool): Verdict {
    if c.policy.Custom? then c.policy.verdict(n, a, cancelled) else CheckRetry(cancelled, a)
  }

  function VerdictOn(c: Config, w: World, n: nat): Verdict {
    Judged(c, n, w.answers(n), w.cancelled(n))
  }

  function WaitAfter(c: Config, w: World, n: nat): int {
    if c.policy.Custom? then c.policy.backoff(n, w.answers(n))
    else Backoff(c.minWait, c.maxWait, n, w.answers(n).resp, w.jitter(n))
  }

  function Content(b: Body): Option<Bytes> {
    if b.NoBody? then None else Some(b.data)
  }

  // --- what a run leaves in the trace ---------------------------------------------------

  function Opening(c: Config, n: nat): seq<Event> {
    if c.body.NoBody? || (n > 0 && c.body.StreamBody?) then [] else [OpenBody(n)]
  }

  function Fetching(c: Config, w: World, n: nat): seq<Event> {
    if UsesSource(c.credentials) then [FetchToken(n, w.tokens(n))] else []
  }

  function AuthAt(c: Config, w: World, n: nat): Option<Authorization> {
    AuthorizationFor(c.credentials, w.tokens(n))
  }

  function Sending(c: Config, w: World, n: nat): seq<Event> {
    if AuthAt(c, w, n).Some? then [Send(n, Content(c.body), AuthAt(c, w, n).value)] else []
  }

  /** One attempt from its body to its send. */
  function Attempt(c: Config, w: World, n: nat): seq<Event> {
    Opening(c, n) + Fetching(c, w, n) + Sending(c, w, n)
  }

  /** Between attempt n and the next. */
  function Retire(c: Config, w: World, n: nat): seq<Event> {
    (if w.answers(n).resp.Some? then [CloseResponse(n)] else []) + [Wait(n, WaitAfter(c, w, n))]
  }

  /** Attempts 0 to n and what lies between them. */
  function Through(c: Config, w: World, n: nat): seq<Event> {
    if n == 0 then Attempt(c, w, 0) else Through(c, w, n - 1) + Retire(c, w, n - 1) + Attempt(c, w, n)
  }

  function TraceOf(c: Config, w: World, r: Result): seq<Event> {
    match r
    case NoRequest => []
    case HookFailed => Opening(c, 0) + Closing(c, 0)
    case AuthFailed(n) => if n == 0 then Attempt(c, w, 0) + Closing(c, 0) else Through(c, w, n)
    case RewindFailed(n) => if n == 0 then [] else Through(c, w, n - 1) + Retire(c, w, n - 1)
    case Delivered(n) => Through(c, w, n)
    case TransportError(n) => Through(c, w, n)
    case PolicyFailed(n) => Through(c, w, n)
    case Cancelled(n) => Through(c, w, n) + Retire(c, w, n)
  }

  function Closing(c: Config, n: nat): seq<Event> {
    if c.body.NoBody? then [] else [CloseBody(n)]
  }

  /** How a request ends, once its attempt n is about to be sent. */
  function ResultFrom(c: Config, w: World, n: nat): Result
    decreases if c.maxRetries > n then c.maxRetries - n else 0
  {
    if !CanRetry(c) || n >= c.maxRetries then Final(w, n)
    else match VerdictOn(c, w, n)
      case Abort => PolicyFailed(n)
      case Stop => Final(w, n)
      case Retry =>
        if !w.sleeps(n) then Cancelled(n)
        else if !c.body.NoBody? && !w.rewinds(n + 1) then RewindFailed(n + 1)
        else if AuthAt(c, w, n + 1).None? then AuthFailed(n + 1)
        else ResultFrom(c, w, n + 1)
  }

  function Final(w: World, n: nat): Result {
    if w.answers(n).failed then TransportError(n) else Delivered(n)
  }

  function ResultOf(c: Config, w: World): Result {
    if !c.body.NoBody? && !w.opens then NoRequest
    else if !w.hooks then HookFailed
    else if AuthAt(c, w, 0).None? then AuthFailed(0)
    else ResultFrom(c, w, 0)
  }

  // --- the code -----------------------------------------------------------------------------

  class Request {
    const c: Config
    const w: World
    var trace: seq<Event>

    constructor (c: Config, w: World)
      ensures this.c == c && this.w == w && trace == []
    {
      this.c, this.w := c, w;
      trace := [];
    }

    /** applyBody, and the GetBody it installs for replayable bodies. */
    method ApplyBody(n: nat, ok: bool) returns (applied: bool)
      requires n > 0 ==> Replayable(c.body)
      modifies this
      ensures applied == (c.body.NoBody? || ok)
      ensures trace == old(trace) + if applied then Opening(c, n) else []
    {
      if c.body.NoBody? { return true; }
      if !ok { return false; }
      trace := trace + [OpenBody(n)];
      applied := true;
    }

    method Abort()
      modifies this
      ensures trace == old(trace) + Closing(c, 0)
    {
      if !c.body.NoBody? { trace := trace + [CloseBody(0)]; }
    }

    method InjectAuth(n: nat) returns (auth: Option<Authorization>)
      modifies this
      ensures trace == old(trace) + Fetching(c, w, n) && auth == AuthAt(c, w, n)
    {
      var cr := c.credentials;
      if cr.basic {
        auth := Some(Basic);
      } else if cr.token != "" {
        auth := Some(Bearer(cr.token));
      } else if cr.callerHeader {
        auth := Some(CallerHeader);
      } else if cr.source {
        var token := w.tokens(n);
        trace := trace + [FetchToken(n, token)];
        if token.None? { return None; }
        auth := Some(Bearer(token.value));
      } else {
        auth := Some(Anonymous);
      }
    }

    method Execute() returns (r: Result)
      modifies this
      ensures r == ResultOf(c, w)
      ensures trace == old(trace) + TraceOf(c, w, r)
    {
      var applied := ApplyBody(0, w.opens);
      if !applied { return NoRequest; }
      if !w.hooks {
        Abort();
        return HookFailed;
      }
      var auth := InjectAuth(0);
      if auth.None? {
        Abort();
        return AuthFailed(0);
      }
      r := DoWithRetry(auth.value, old(trace));
    }

    /** The loop of doWithRetry; `before` is the trace execute started from. */
    method DoWithRetry(first: Authorization, ghost before: seq<Event>) returns (r: Result)
      requires trace == before + Ready(c, w, 0) && AuthAt(c, w, 0) == Some(first)
      modifies this
      ensures r == ResultFrom(c, w, 0) && trace == before + TraceOf(c, w, r)
    {
      hide Through, Ready, Retire, Opening, Fetching, VerdictOn, AuthAt;
      var canRetry := CanRetry(c);
      var auth, attempt: nat := first, 0;
      while true
        invariant ResultFrom(c, w, attempt) == ResultFrom(c, w, 0)
        invariant AuthAt(c, w, attempt) == Some(auth)
        invariant attempt > 0 ==> canRetry && attempt <= c.maxRetries
        invariant trace == before + Ready(c, w, attempt)
        decreases c.maxRetries - attempt
      {
        trace := trace + [Send(attempt, Content(c.body), auth)];
        SentIsThrough(c, w, attempt, before);
        if !canRetry || attempt >= c.maxRetries { break; }

        var verdict := VerdictOn(c, w, attempt);
        if verdict == Verdict.Abort { return PolicyFailed(attempt); }
        if verdict == Stop { break; }

        RetireAttempt(attempt, before);
        if !w.sleeps(attempt) { return Cancelled(attempt); }

        attempt := attempt + 1;
        var applied := ApplyBody(attempt, w.rewinds(attempt));
        if !applied { return RewindFailed(attempt); }
        var next := InjectAuth(attempt);
        PreparedIsReady(c, w, attempt, before);
        if next.None? {
          UnsentIsThrough(c, w, attempt);
          return AuthFailed(attempt);
        }
        auth := next.value;
      }
      r := if w.answers(attempt).failed then TransportError(attempt) else Delivered(attempt);
    }

    /** The superseded response is drained and closed, then the loop waits. */
    method RetireAttempt(n: nat, ghost before: seq<Event>)
      requires trace == before + Through(c, w, n)
      modifies this
      ensures trace == before + (Through(c, w, n) + Retire(c, w, n))
    {
      if w.answers(n).resp.Some? { trace := trace + [CloseResponse(n)]; }
      trace := trace + [Wait(n, WaitAfter(c, w, n))];
    }
  }

  /** The trace when attempt n has its body and its token. */
  function Ready(c: Config, w: World, n: nat): seq<Event> {
    (if n == 0 then [] else Through(c, w, n - 1) + Retire(c, w, n - 1)) + (Opening(c, n) + Fetching(c, w, n))
  }

  lemma SentIsThrough(c: Config, w: World, n: nat, before: seq<Event>)
    requires AuthAt(c, w, n).Some?
    ensures before + Ready(c, w, n) + [Send(n, Content(c.body), AuthAt(c, w, n).value)] == before + Through(c, w, n)
  {
    UnsentIsThrough(c, w, n);
  }

  lemma UnsentIsThrough(c: Config, w: World, n: nat)
    ensures Ready(c, w, n) + Sending(c, w, n) == Through(c, w, n)
    ensures AuthAt(c, w, n).None? ==> Ready(c, w, n) == Through(c, w, n)
  {
  }

  lemma PreparedIsReady(c: Config, w: World, n: nat, before: seq<Event>)
    requires n > 0
    ensures before + (Through(c, w, n - 1) + Retire(c, w, n - 1)) + Opening(c, n) + Fetching(c, w, n) ==
            before + Ready(c, w, n)
  {
  }
}
