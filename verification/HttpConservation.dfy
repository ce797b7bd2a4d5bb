/**
 What every run of Request.execute conserves, whatever the server, the token
 source, the policy and the caller's cancellations do.  Everything rests on two
 facts about the trace: it is strictly ordered in time, and an event is in it
 exactly when its attempt got that far.
 */
module HttpConservation {
  import opened Prelude
  import opened RetryPolicy
  import opened HttpRetry

  function Trace(c: Config, w: World): seq<Event> {
    TraceOf(c, w, ResultOf(c, w))
  }

  // --- order --------------------------------------------------------------------------------

  /** The moment of an event: attempts follow each other, each in fixed phases. */
  function Stamp(e: Event): nat {
    6 * e.attempt + match e
      case OpenBody(_) => 0
      case FetchToken(_, _) => 1
      case Send(_, _, _) => 2
      case CloseBody(_) => 3
      case CloseResponse(_) => 4
      case Wait(_, _) => 5
  }

  ghost predicate Ordered(t: seq<Event>, from: nat, to: nat) {
    && (forall i, j :: 0 <= i < j < |t| ==> Stamp(t[i]) < Stamp(t[j]))
    && (forall i :: 0 <= i < |t| ==> from <= Stamp(t[i]) < to)
  }

  lemma ConcatIsOrdered(a: seq<Event>, b: seq<Event>, from: nat, mid: nat, to: nat)
    requires Ordered(a, from, mid) && Ordered(b, mid, to) && from <= mid <= to
    ensures Ordered(a + b, from, to)
  {
  }

  lemma AttemptIsOrdered(c: Config, w: World, n: nat)
    ensures Ordered(Attempt(c, w, n), 6 * n, 6 * n + 3)
  {
    ConcatIsOrdered(Opening(c, n), Fetching(c, w, n), 6 * n, 6 * n + 1, 6 * n + 2);
    ConcatIsOrdered(Opening(c, n) + Fetching(c, w, n), Sending(c, w, n), 6 * n, 6 * n + 2, 6 * n + 3);
  }

  lemma RetireIsOrdered(c: Config, w: World, n: nat)
    ensures Ordered(Retire(c, w, n), 6 * n + 3, 6 * n + 6)
  {
  }

  lemma {:induction false} ThroughIsOrdered(c: Config, w: World, n: nat)
    ensures Ordered(Through(c, w, n), 0, 6 * n + 3)
    decreases n, 0
  {
    hide Ordered, Attempt, Retire;
    AttemptIsOrdered(c, w, n);
    if n > 0 {
      RetiredIsOrdered(c, w, n - 1);
      ConcatIsOrdered(Through(c, w, n - 1) + Retire(c, w, n - 1), Attempt(c, w, n), 0, 6 * n, 6 * n + 3);
    }
  }

  lemma RetiredIsOrdered(c: Config, w: World, n: nat)
    ensures Ordered(Through(c, w, n) + Retire(c, w, n), 0, 6 * n + 6)
    decreases n, 1
  {
    hide Ordered, Through, Retire;
    ThroughIsOrdered(c, w, n);
    RetireIsOrdered(c, w, n);
    ConcatIsOrdered(Through(c, w, n), Retire(c, w, n), 0, 6 * n + 3, 6 * n + 6);
  }

  lemma AbortedIsOrdered(c: Config, w: World)
    ensures Ordered(Opening(c, 0) + Closing(c, 0), 0, 6)
    ensures Ordered(Attempt(c, w, 0) + Closing(c, 0), 0, 6)
  {
    AttemptIsOrdered(c, w, 0);
    ConcatIsOrdered(Opening(c, 0), Closing(c, 0), 0, 3, 6);
    ConcatIsOrdered(Attempt(c, w, 0), Closing(c, 0), 0, 3, 6);
  }

  /** No event happens twice, and an attempt never starts before the one before it is retired. */
  lemma TraceIsOrdered(c: Config, w: World)
    ensures forall i, j :: 0 <= i < j < |Trace(c, w)| ==> Stamp(Trace(c, w)[i]) < Stamp(Trace(c, w)[j])
  {
    hide Through, Attempt, Retire, Stamp;
    var n := Last(ResultOf(c, w));
    match ResultOf(c, w)
    case NoRequest =>
    case HookFailed => AbortedIsOrdered(c, w);
    case AuthFailed(_) =>
      if n == 0 { AbortedIsOrdered(c, w); } else { ThroughIsOrdered(c, w, n); }
    case RewindFailed(_) =>
      if n > 0 { RetiredIsOrdered(c, w, n - 1); }
    case Cancelled(_) => RetiredIsOrdered(c, w, n);
    case _ => ThroughIsOrdered(c, w, n);
  }

  // --- membership ----------------------------------------------------------------------------

  lemma {:induction false} InThrough(c: Config, w: World, n: nat, e: Event)
    ensures e in Through(c, w, n) <==>
            && e.attempt <= n
            && (e in Attempt(c, w, e.attempt) || (e.attempt < n && e in Retire(c, w, e.attempt)))
  {
    assert e in Attempt(c, w, n) ==> e.attempt == n;
    if n > 0 {
      assert e in Retire(c, w, n - 1) ==> e.attempt == n - 1;
      InThrough(c, w, n - 1, e);
    }
  }

  // --- the result ------------------------------------------------------------------------------

  /** Attempt k was sent and its answer asked for another one. */
  predicate Superseded(c: Config, w: World, k: nat) {
    AuthAt(c, w, k).Some? && VerdictOn(c, w, k) == Retry && CanRetry(c) && k < c.maxRetries
  }

  /** The attempt a result speaks of, and whether that attempt was sent. */
  function Last(r: Result): nat {
    if r.NoRequest? || r.HookFailed? then 0 else r.attempt
  }

  predicate Sent(r: Result) {
    r.Delivered? || r.TransportError? || r.PolicyFailed? || r.Cancelled?
  }

  ghost predicate Explains(c: Config, w: World, r: Result) {
    && (forall k: nat | k < Last(r) :: Superseded(c, w, k))
    && (Sent(r) ==> AuthAt(c, w, Last(r)).Some?)
    && (r.Cancelled? ==> Superseded(c, w, Last(r)))
    && (r.AuthFailed? ==> AuthAt(c, w, Last(r)).None?)
    && (r.RewindFailed? ==> Last(r) > 0)
    && (r.Delivered? ==> !w.answers(Last(r)).failed)
    && (r.TransportError? ==> w.answers(Last(r)).failed)
  }

  lemma {:induction false} ResultFromExplains(c: Config, w: World, n: nat)
    requires forall k: nat | k < n :: Superseded(c, w, k)
    requires AuthAt(c, w, n).Some?
    ensures Explains(c, w, ResultFrom(c, w, n)) && !ResultFrom(c, w, n).HookFailed?
    ensures !ResultFrom(c, w, n).NoRequest?
    decreases if c.maxRetries > n then c.maxRetries - n else 0
  {
    if CanRetry(c) && n < c.maxRetries && VerdictOn(c, w, n) == Retry && AuthAt(c, w, n + 1).Some? {
      ResultFromExplains(c, w, n + 1);
    }
  }

  lemma ResultExplains(c: Config, w: World)
    ensures Explains(c, w, ResultOf(c, w))
  {
    if AuthAt(c, w, 0).Some? { ResultFromExplains(c, w, 0); }
  }

  /** The run of result r came as far as event e. */
  predicate Reached(c: Config, w: World, r: Result, e: Event) {
    var n := Last(r);
    || (e.attempt < n && (e in Attempt(c, w, e.attempt) || e in Retire(c, w, e.attempt)))
    || (e.attempt == n && (Sent(r) || r.AuthFailed?) && e in Attempt(c, w, n))
    || (e.attempt == n && r.Cancelled? && e in Retire(c, w, n))
    || (e.attempt == n && r.HookFailed? && e in Opening(c, 0))
    || (e.attempt == n && (r.HookFailed? || (r.AuthFailed? && n == 0)) && e in Closing(c, 0))
  }

  lemma InSentTrace(c: Config, w: World, r: Result, e: Event)
    requires Sent(r)
    ensures e in TraceOf(c, w, r) <==> Reached(c, w, r, e)
  {
    InThrough(c, w, Last(r), e);
    assert e in Retire(c, w, Last(r)) ==> e.attempt == Last(r);
  }

  lemma InUnsentTrace(c: Config, w: World, r: Result, e: Event)
    requires !Sent(r) && (r.RewindFailed? ==> r.attempt > 0)
    ensures e in TraceOf(c, w, r) <==> Reached(c, w, r, e)
  {
    hide Through, Fetching, Sending;
    var n := Last(r);
    match r
    case NoRequest =>
    case HookFailed =>
    case AuthFailed(_) => AttemptIsItsOwn(c, w, e); if n > 0 { InThrough(c, w, n, e); }
    case RewindFailed(_) => InThrough(c, w, n - 1, e);
  }

  lemma AttemptIsItsOwn(c: Config, w: World, e: Event)
    ensures e in Attempt(c, w, 0) + Closing(c, 0) ==> e.attempt == 0
  {
  }

  /** An event is in the trace exactly when the run came that far. */
  lemma InTrace(c: Config, w: World, e: Event)
    ensures e in Trace(c, w) <==> Reached(c, w, ResultOf(c, w), e)
  {
    ResultExplains(c, w);
    if Sent(ResultOf(c, w)) {
      InSentTrace(c, w, ResultOf(c, w), e);
    } else {
      InUnsentTrace(c, w, ResultOf(c, w), e);
    }
  }

  /** Attempt k was sent exactly when the run got that far, with the same bytes every time. */
  lemma SentExactly(c: Config, w: World, k: nat, b: Option<Bytes>, a: Authorization)
    ensures var r := ResultOf(c, w);
      Send(k, b, a) in Trace(c, w) <==>
        (k < Last(r) || (k == Last(r) && Sent(r))) && b == Content(c.body) && AuthAt(c, w, k) == Some(a)
  {
    ResultExplains(c, w);
    InTrace(c, w, Send(k, b, a));
  }

  // --- how far a run gets, from what it meets --------------------------------------------------

  /** The request exists, its hooks succeed and its first credentials are had. */
  predicate Begins(c: Config, w: World) {
    (c.body.NoBody? || w.opens) && w.hooks && AuthAt(c, w, 0).Some?
  }

  /** Once sent, attempt n is followed by another: it may be, the policy says so, and the wait completes. */
  predicate Repeats(c: Config, w: World, n: nat) {
    CanRetry(c) && n < c.maxRetries && VerdictOn(c, w, n) == Retry && w.sleeps(n)
  }

  /** Retries are left after attempt n, and the policy asks for one. */
  predicate Asks(c: Config, w: World, n: nat) {
    CanRetry(c) && n < c.maxRetries && VerdictOn(c, w, n) == Retry
  }

  /** Attempt n is the last that may be made, or good enough for the policy. */
  predicate Settles(c: Config, w: World, n: nat) {
    !CanRetry(c) || n >= c.maxRetries || VerdictOn(c, w, n) == Stop
  }

  predicate Rewinds(c: Config, w: World, n: nat) {
    c.body.NoBody? || w.rewinds(n)
  }

  /** Attempt k is sent. */
  ghost predicate Arrives(c: Config, w: World, k: nat) {
    Begins(c, w) && forall j: nat | j < k :: Repeats(c, w, j) && Rewinds(c, w, j + 1) && AuthAt(c, w, j + 1).Some?
  }

  lemma {:induction false} ArrivalDecides(c: Config, w: World, k: nat)
    requires Arrives(c, w, k)
    ensures ResultOf(c, w) == ResultFrom(c, w, k)
  {
    if k > 0 {
      ArrivalDecides(c, w, k - 1);
      assert Repeats(c, w, k - 1) && Rewinds(c, w, k - 1 + 1);
    }
  }

  /** Where a run that has come to attempt n ends. */
  lemma {:induction false} EndsWhere(c: Config, w: World, n: nat)
    requires Arrives(c, w, n)
    ensures var r := ResultFrom(c, w, n);
      && !r.NoRequest? && !r.HookFailed?
      && (Sent(r) ==> Arrives(c, w, r.attempt))
      && (r.PolicyFailed? ==> CanRetry(c) && r.attempt < c.maxRetries && VerdictOn(c, w, r.attempt) == Abort)
      && (r.AuthFailed? ==>
            r.attempt > 0 && Arrives(c, w, r.attempt - 1) && Repeats(c, w, r.attempt - 1) &&
            Rewinds(c, w, r.attempt) && AuthAt(c, w, r.attempt).None?)
      && (r.RewindFailed? ==>
            r.attempt > 0 && Arrives(c, w, r.attempt - 1) && Repeats(c, w, r.attempt - 1) && !Rewinds(c, w, r.attempt))
      && (r.Cancelled? ==> Asks(c, w, r.attempt) && !w.sleeps(r.attempt))
      && (r.Delivered? || r.TransportError? ==> Settles(c, w, r.attempt))
      && (r.Delivered? ==> !w.answers(r.attempt).failed) && (r.TransportError? ==> w.answers(r.attempt).failed)
    decreases if c.maxRetries > n then c.maxRetries - n else 0
  {
    if Repeats(c, w, n) && Rewinds(c, w, n + 1) && AuthAt(c, w, n + 1).Some? {
      assert Arrives(c, w, n + 1) by {
        forall j: nat | j < n + 1 ensures Repeats(c, w, j) && Rewinds(c, w, j + 1) && AuthAt(c, w, j + 1).Some? {
        }
      }
      EndsWhere(c, w, n + 1);
    }
  }

  /** The policy's error ends the run exactly when its guard is met at an attempt the run comes to. */
  lemma PolicyFailsExactly(c: Config, w: World, k: nat)
    ensures ResultOf(c, w) == PolicyFailed(k) <==>
            Arrives(c, w, k) && CanRetry(c) && k < c.maxRetries && VerdictOn(c, w, k) == Abort
  {
    if Arrives(c, w, k) { ArrivalDecides(c, w, k); }
    if Begins(c, w) {
      assert Arrives(c, w, 0);
      EndsWhere(c, w, 0);
    }
  }

  /** Every other way to end, each from what the run meets. */
  lemma EndsExactly(c: Config, w: World, k: nat)
    ensures var r := ResultOf(c, w);
      && (r == NoRequest <==> !c.body.NoBody? && !w.opens)
      && (r == HookFailed <==> (c.body.NoBody? || w.opens) && !w.hooks)
      && (r == AuthFailed(0) <==> (c.body.NoBody? || w.opens) && w.hooks && AuthAt(c, w, 0).None?)
      && (r == Cancelled(k) <==> Arrives(c, w, k) && Asks(c, w, k) && !w.sleeps(k))
      && (r == RewindFailed(k + 1) <==>
            Arrives(c, w, k) && Repeats(c, w, k) && !c.body.NoBody? && !w.rewinds(k + 1))
      && (r == Delivered(k) <==> Arrives(c, w, k) && Settles(c, w, k) && !w.answers(k).failed)
      && (r == TransportError(k) <==> Arrives(c, w, k) && Settles(c, w, k) && w.answers(k).failed)
  {
    hide VerdictOn, AuthAt, CanRetry;
    if Arrives(c, w, k) { ArrivalDecides(c, w, k); }
    if Begins(c, w) {
      assert Arrives(c, w, 0);
      EndsWhere(c, w, 0);
    }
  }

  lemma LaterAuthFailsExactly(c: Config, w: World, k: nat)
    requires k > 0
    ensures ResultOf(c, w) == AuthFailed(k) <==>
            Arrives(c, w, k - 1) && Repeats(c, w, k - 1) && Rewinds(c, w, k) && AuthAt(c, w, k).None?
  {
    if Arrives(c, w, k - 1) { ArrivalDecides(c, w, k - 1); }
    if Begins(c, w) {
      assert Arrives(c, w, 0);
      EndsWhere(c, w, 0);
    }
  }

  // --- what the default policy does --------------------------------------------------------------

  /** Worth another try: Do failed, or 429, or a 5xx other than 501. */
  predicate Transient(a: Answer) {
    a.failed ||
    (a.resp.Some? && (a.resp.value.status == 429 || (a.resp.value.status >= 500 && a.resp.value.status != 501)))
  }

  /** Attempt j has a transient answer and is followed by attempt j + 1. */
  predicate TriedAgain(c: Config, w: World, j: nat) {
    && CanRetry(c) && j < c.maxRetries && !w.cancelled(j) && Transient(w.answers(j)) && w.sleeps(j)
    && (c.body.NoBody? || w.rewinds(j + 1)) && AuthAt(c, w, j + 1).Some?
  }

  /** Under the default policy an attempt is reached through transient answers only. */
  lemma DefaultArrivesExactly(c: Config, w: World, k: nat)
    requires c.policy.Default?
    ensures Arrives(c, w, k) <==> Begins(c, w) && forall j: nat | j < k :: TriedAgain(c, w, j)
  {
    hide VerdictOn, Transient, CanRetry, AuthAt;
    forall j: nat
      ensures TriedAgain(c, w, j) <==> Repeats(c, w, j) && Rewinds(c, w, j + 1) && AuthAt(c, w, j + 1).Some?
    {
      DefaultVerdict(c, w, j);
    }
  }

  lemma DefaultVerdict(c: Config, w: World, k: nat)
    requires c.policy.Default?
    ensures VerdictOn(c, w, k) == Abort <==> w.cancelled(k)
    ensures VerdictOn(c, w, k) == Retry <==> !w.cancelled(k) && Transient(w.answers(k))
  {
  }

  /**
   Once attempt k is sent, the run goes past it exactly when its answer is transient,
   as far as retries, cancellation, wait, rewind and token allow; otherwise it ends
   there, and a request that may be repeated never hands a transient answer over
   while retries are left.
   */
  lemma DefaultRetriesExactly(c: Config, w: World, k: nat)
    requires c.policy.Default? && Arrives(c, w, k)
    ensures var r := ResultOf(c, w);
      var again := CanRetry(c) && k < c.maxRetries && !w.cancelled(k) && Transient(w.answers(k));
      && (Arrives(c, w, k + 1) <==>
            again && w.sleeps(k) && (c.body.NoBody? || w.rewinds(k + 1)) && AuthAt(c, w, k + 1).Some?)
      && (r == Cancelled(k) <==> again && !w.sleeps(k))
      && (r == PolicyFailed(k) <==> CanRetry(c) && k < c.maxRetries && w.cancelled(k))
      && (r == Delivered(k) <==>
            !w.answers(k).failed &&
            (!CanRetry(c) || k >= c.maxRetries || (!w.cancelled(k) && !Transient(w.answers(k)))))
      && (r == TransportError(k) <==> w.answers(k).failed && (!CanRetry(c) || k >= c.maxRetries))
  {
    hide CanRetry, AuthAt, Arrives, VerdictOn;
    DefaultVerdict(c, w, k);
    ArrivesNext(c, w, k);
    EndsExactly(c, w, k);
    PolicyFailsExactly(c, w, k);
  }

  lemma ArrivesNext(c: Config, w: World, k: nat)
    requires c.policy.Default? && Arrives(c, w, k)
    ensures Arrives(c, w, k + 1) <==> TriedAgain(c, w, k)
  {
    hide TriedAgain, Repeats, Rewinds, AuthAt;
    DefaultArrivesExactly(c, w, k);
    DefaultArrivesExactly(c, w, k + 1);
  }

  /** What may be repeated: retries are left, the body can be replayed, and the method or the caller says so. */
  lemma RepeatableExactly(c: Config)
    ensures CanRetry(c) <==>
            && c.maxRetries > 0 && !c.body.StreamBody?
            && (c.retryOverride == Some(true) ||
                (c.retryOverride == None && c.enabled &&
                 c.httpMethod in {"GET", "HEAD", "OPTIONS", "PUT", "DELETE", "TRACE"}))
  {
  }

  // --- bytes and tokens ---------------------------------------------------------------------

  /** Every send carries the same bytes, and a sourced token is the one fetched right before it. */
  lemma EverySendIsFresh(c: Config, w: World, i: nat)
    requires i < |Trace(c, w)| && Trace(c, w)[i].Send?
    ensures Trace(c, w)[i].body == if c.body.NoBody? then None else Some(c.body.data)
    ensures UsesSource(c.credentials) ==>
              && i > 0 && Trace(c, w)[i].auth.Bearer?
              && Trace(c, w)[i - 1] == FetchToken(Trace(c, w)[i].attempt, Some(Trace(c, w)[i].auth.token))
  {
    var t, k := Trace(c, w), Trace(c, w)[i].attempt;
    SentExactly(c, w, k, t[i].body, t[i].auth);
    if UsesSource(c.credentials) {
      var fetched := FetchToken(k, w.tokens(k));
      assert fetched in Attempt(c, w, k);
      InTrace(c, w, fetched);
      InTrace(c, w, t[i]);
      TraceIsOrdered(c, w);
      NextStampFollows(t, fetched, i);
    }
  }

  /** Whose credentials a send carries: the first there are of basic, token, header and source. */
  lemma SendCarries(c: Config, w: World, k: nat, b: Option<Bytes>, a: Authorization)
    requires Send(k, b, a) in Trace(c, w)
    ensures var cr := c.credentials;
      && (a == Basic <==> cr.basic)
      && (a == CallerHeader <==> !cr.basic && cr.token == "" && cr.callerHeader)
      && (a == Anonymous <==> !cr.basic && cr.token == "" && !cr.callerHeader && !cr.source)
      && (a.Bearer? ==> if cr.token != "" then a.token == cr.token else w.tokens(k) == Some(a.token))
  {
    SentExactly(c, w, k, b, a);
  }

  /** Every attempt of a repeated request has a wait before it, as long as the policy says. */
  lemma WaitsExactly(c: Config, w: World, k: nat, d: int)
    ensures Wait(k, d) in Trace(c, w) <==>
            && (k < Last(ResultOf(c, w)) || ResultOf(c, w) == Cancelled(k))
            && d == if c.policy.Custom? then c.policy.backoff(k, w.answers(k))
                    else Backoff(c.minWait, c.maxWait, k, w.answers(k).resp, w.jitter(k))
  {
    InTrace(c, w, Wait(k, d));
  }

  lemma LowerStampIsEarlier(t: seq<Event>, i: nat, j: nat)
    requires forall i, j :: 0 <= i < j < |t| ==> Stamp(t[i]) < Stamp(t[j])
    requires i < |t| && j < |t|
    ensures Stamp(t[i]) < Stamp(t[j]) <==> i < j
  {
    assert j < i ==> Stamp(t[j]) < Stamp(t[i]);
  }

  lemma NextStampIsNext(t: seq<Event>, j: nat, i: nat)
    requires forall i, j :: 0 <= i < j < |t| ==> Stamp(t[i]) < Stamp(t[j])
    requires i < |t| && j < |t| && Stamp(t[i]) == Stamp(t[j]) + 1
    ensures j + 1 == i
  {
    LowerStampIsEarlier(t, j, i);
    LowerStampIsEarlier(t, j, i - 1);
    LowerStampIsEarlier(t, i - 1, i);
  }

  /** Nothing happens between two consecutive moments. */
  lemma NextStampFollows(t: seq<Event>, e: Event, i: nat)
    requires forall i, j :: 0 <= i < j < |t| ==> Stamp(t[i]) < Stamp(t[j])
    requires e in t && i < |t| && Stamp(t[i]) == Stamp(e) + 1
    ensures i > 0 && t[i - 1] == e
  {
    var j :| 0 <= j < |t| && t[j] == e;
    NextStampIsNext(t, j, i);
  }

  // --- responses ------------------------------------------------------------------------------

  /** Attempt k was sent and came back with a response whose body is open. */
  ghost predicate Received(c: Config, w: World, k: nat) {
    && (exists b, a :: Send(k, b, a) in Trace(c, w))
    && w.answers(k).resp.Some? && !w.answers(k).failed
  }

  lemma ReceivedExactly(c: Config, w: World, k: nat)
    ensures var r := ResultOf(c, w);
      Received(c, w, k) <==>
        (k < Last(r) || (k == Last(r) && Sent(r))) && w.answers(k).resp.Some? && !w.answers(k).failed
  {
    var r := ResultOf(c, w);
    ResultExplains(c, w);
    if exists b, a :: Send(k, b, a) in Trace(c, w) {
      var b, a :| Send(k, b, a) in Trace(c, w);
      SentExactly(c, w, k, b, a);
    }
    if k < Last(r) || (k == Last(r) && Sent(r)) {
      assert k < Last(r) ==> Superseded(c, w, k);
      SentExactly(c, w, k, Content(c.body), AuthAt(c, w, k).value);
    }
  }

  /** A response superseded by another send was closed before it, once, and after its own send. */
  lemma SupersededIsClosedFirst(c: Config, w: World, k: nat, j: nat)
    requires j < |Trace(c, w)| && Trace(c, w)[j].Send? && Trace(c, w)[j].attempt == k + 1
    requires w.answers(k).resp.Some?
    ensures CloseResponse(k) in Trace(c, w)[..j] && ClosedOnce(Trace(c, w), k)
  {
    ClosedIfSuperseded(c, w, k, Trace(c, w)[j]);
    hide Trace;
    TraceIsOrdered(c, w);
    OrderedIsOnce(Trace(c, w), k);
    LowerStampIsBefore(Trace(c, w), CloseResponse(k), j);
  }

  lemma ClosedIfSuperseded(c: Config, w: World, k: nat, next: Event)
    requires next in Trace(c, w) && next.Send? && next.attempt == k + 1 && w.answers(k).resp.Some?
    ensures CloseResponse(k) in Trace(c, w)
  {
    assert CloseResponse(k) in Retire(c, w, k);
    hide Trace, Retire, Attempt, ResultOf;
    InTrace(c, w, next);
    InTrace(c, w, CloseResponse(k));
  }

  lemma LowerStampIsBefore(t: seq<Event>, e: Event, j: nat)
    requires forall i, j :: 0 <= i < j < |t| ==> Stamp(t[i]) < Stamp(t[j])
    requires e in t && j < |t| && Stamp(e) < Stamp(t[j])
    ensures e in t[..j]
  {
    var i :| 0 <= i < |t| && t[i] == e;
    LowerStampIsEarlier(t, i, j);
    assert t[..j][i] == e;
  }

  /** The response is closed at most once, and not before its own send. */
  ghost predicate ClosedOnce(t: seq<Event>, k: nat) {
    && (forall i, j :: 0 <= i < j < |t| && t[i] == CloseResponse(k) ==> t[j] != CloseResponse(k))
    && (forall i, j :: 0 <= i < |t| && 0 <= j < |t| && t[i].Send? && t[i].attempt == k && t[j] == CloseResponse(k) ==>
          i < j)
  }

  lemma OrderedIsOnce(t: seq<Event>, k: nat)
    requires forall i, j :: 0 <= i < j < |t| ==> Stamp(t[i]) < Stamp(t[j])
    ensures ClosedOnce(t, k)
  {
    forall i, j | 0 <= i < |t| && 0 <= j < |t| && t[i].Send? && t[i].attempt == k && t[j] == CloseResponse(k)
      ensures i < j
    {
      LowerStampIsEarlier(t, i, j);
    }
  }

  /** A response neither closed nor the caller's. */
  ghost predicate Dropped(c: Config, w: World, k: nat) {
    Received(c, w, k) && CloseResponse(k) !in Trace(c, w) && ResultOf(c, w) != Delivered(k)
  }

  /** That happens exactly when the policy answers an open response with an error. */
  lemma OnlyAPolicyErrorLeaks(c: Config, w: World, k: nat)
    ensures Dropped(c, w, k) <==>
            && Arrives(c, w, k) && CanRetry(c) && k < c.maxRetries && VerdictOn(c, w, k) == Abort
            && w.answers(k).resp.Some? && !w.answers(k).failed
  {
    PolicyFailsExactly(c, w, k);
    ResultExplains(c, w);
    ReceivedExactly(c, w, k);
    InTrace(c, w, CloseResponse(k));
    assert w.answers(k).resp.Some? ==> CloseResponse(k) in Retire(c, w, k);
  }

  /** The delivered response is that of the last event of the run, and is open. */
  lemma DeliveredIsLastAndOpen(c: Config, w: World, k: nat)
    requires ResultOf(c, w) == Delivered(k)
    ensures |Trace(c, w)| > 0 && Trace(c, w)[|Trace(c, w)| - 1].Send?
    ensures Trace(c, w)[|Trace(c, w)| - 1].attempt == k
    ensures CloseResponse(k) !in Trace(c, w) && !w.answers(k).failed
  {
    ResultExplains(c, w);
    InTrace(c, w, CloseResponse(k));
  }

  // --- bodies -----------------------------------------------------------------------------------

  /** A body neither handed to Do nor closed. */
  ghost predicate Abandoned(c: Config, w: World, k: nat) {
    && OpenBody(k) in Trace(c, w) && CloseBody(k) !in Trace(c, w)
    && forall b, a :: Send(k, b, a) !in Trace(c, w)
  }

  /** That happens exactly when a later attempt has rewound it and then cannot have its token. */
  lemma BodiesAreHandedOver(c: Config, w: World, k: nat)
    ensures Abandoned(c, w, k) <==>
            && k > 0 && !c.body.NoBody?
            && Arrives(c, w, k - 1) && Repeats(c, w, k - 1) && w.rewinds(k) && AuthAt(c, w, k).None?
  {
    AbandonedExactly(c, w, k);
    if k > 0 { LaterAuthFailsExactly(c, w, k); }
  }

  lemma AbandonedExactly(c: Config, w: World, k: nat)
    ensures Abandoned(c, w, k) <==> ResultOf(c, w) == AuthFailed(k) && k > 0 && !c.body.NoBody?
  {
    var r := ResultOf(c, w);
    ResultExplains(c, w);
    InTrace(c, w, OpenBody(k));
    InTrace(c, w, CloseBody(k));
    forall b, a ensures Send(k, b, a) in Trace(c, w) ==> k < Last(r) || (k == Last(r) && Sent(r)) {
      SentExactly(c, w, k, b, a);
    }
    if k < Last(r) || (k == Last(r) && Sent(r)) {
      assert k < Last(r) ==> Superseded(c, w, k);
      SentExactly(c, w, k, Content(c.body), AuthAt(c, w, k).value);
    } else if r == AuthFailed(k) {
      RetriesReplay(c, w);
    }
  }

  /** A second attempt is made only of a request that may be repeated. */
  lemma RetriesReplay(c: Config, w: World)
    ensures Last(ResultOf(c, w)) > 0 ==> CanRetry(c) && Last(ResultOf(c, w)) <= c.maxRetries
  {
    ResultExplains(c, w);
    var n := Last(ResultOf(c, w));
    if n > 0 { assert Superseded(c, w, n - 1); }
  }

  /** So a stream, whose file or pipe stays open until then, is always handed over or closed. */
  lemma StreamsNeverLeak(c: Config, w: World, k: nat)
    requires c.body.StreamBody? && OpenBody(k) in Trace(c, w)
    ensures k == 0
    ensures CloseBody(0) in Trace(c, w) || exists b, a :: Send(0, b, a) in Trace(c, w)
  {
    InTrace(c, w, OpenBody(k));
    BodiesAreHandedOver(c, w, k);
    RetriesReplay(c, w);
  }

  // --- which configurations can lose something --------------------------------------------------

  /** Some answer to attempt n makes the policy ask for another. */
  ghost predicate MayRetry(c: Config, n: nat) {
    exists a: Answer, done: bool :: Judged(c, n, a, done) == Retry
  }

  /** Some open response to attempt n makes the policy fail. */
  ghost predicate MayDrop(c: Config, n: nat) {
    exists a: Answer, done: bool :: a.resp.Some? && !a.failed && Judged(c, n, a, done) == Abort
  }

  ghost function RetryingAnswer(c: Config, n: nat): (r: (Answer, bool))
    ensures MayRetry(c, n) ==> Judged(c, n, r.0, r.1) == Retry
  {
    if MayRetry(c, n) then
      var a: Answer, done: bool :| Judged(c, n, a, done) == Retry;
      (a, done)
    else (Answer(None, false), false)
  }

  /** A world in which everything goes well up to attempt k, which is answered as given. */
  ghost function WorldUpTo(c: Config, k: nat, last: (Answer, bool), tokens: nat -> Option<string>): World {
    World(true, true, tokens, n => true,
          (n: nat) => if n < k then RetryingAnswer(c, n).0 else last.0,
          (n: nat) => if n < k then RetryingAnswer(c, n).1 else last.1,
          n => true, n => 0.0)
  }

  /** Retries are on, and the policy can come to fail on an open response. */
  ghost predicate CanDrop(c: Config, k: nat) {
    CanRetry(c) && k < c.maxRetries && MayDrop(c, k) && forall j: nat | j < k :: MayRetry(c, j)
  }

  lemma DropNeeds(c: Config, w: World, k: nat)
    requires Dropped(c, w, k)
    ensures CanDrop(c, k)
  {
    OnlyAPolicyErrorLeaks(c, w, k);
    hide Dropped;
    assert Judged(c, k, w.answers(k), w.cancelled(k)) == Abort;
    forall j: nat | j < k ensures MayRetry(c, j) {
      assert Repeats(c, w, j);
      assert Judged(c, j, w.answers(j), w.cancelled(j)) == Retry;
    }
  }

  lemma DropHappens(c: Config, k: nat) returns (w: World)
    requires CanDrop(c, k)
    ensures Dropped(c, w, k)
  {
    hide Dropped;
    var a: Answer, done: bool :| a.resp.Some? && !a.failed && Judged(c, k, a, done) == Abort;
    w := WorldUpTo(c, k, (a, done), n => Some(""));
    forall j: nat | j < k ensures Repeats(c, w, j) { assert MayRetry(c, j); }
    forall j: nat ensures AuthAt(c, w, j).Some? && Rewinds(c, w, j) {
      assert w.tokens(j) == Some("");
    }
    assert Arrives(c, w, k);
    OnlyAPolicyErrorLeaks(c, w, k);
  }

  /** A configuration can lose a response exactly when its policy can; no server decides it. */
  lemma ResponsesAreSafeExactly(c: Config)
    ensures (exists w, k :: Dropped(c, w, k)) <==> exists k :: CanDrop(c, k)
  {
    hide Dropped, CanDrop;
    if exists w, k :: Dropped(c, w, k) {
      var w, k :| Dropped(c, w, k);
      DropNeeds(c, w, k);
    }
    if exists k :: CanDrop(c, k) {
      var k :| CanDrop(c, k);
      var w := DropHappens(c, k);
    }
  }

  /** With the default policy every request that may be retried can lose one, to a cancelled context. */
  lemma DefaultPolicyCanDrop(c: Config)
    requires c.policy.Default?
    ensures (exists w, k :: Dropped(c, w, k)) <==> CanRetry(c)
  {
    ResponsesAreSafeExactly(c);
    if CanRetry(c) {
      var a := Answer(Some(Response(200, Missing)), false);
      assert Judged(c, 0, a, true) == Abort;
      assert CanDrop(c, 0);
    }
    if exists k :: CanDrop(c, k) { var k :| CanDrop(c, k); }
  }

  /** A body can be abandoned exactly where a retry may ask the source for a token. */
  lemma BodiesAreSafeExactly(c: Config)
    ensures (exists w, k :: Abandoned(c, w, k)) <==>
            !c.body.NoBody? && CanRetry(c) && UsesSource(c.credentials) && MayRetry(c, 0)
  {
    hide Abandoned, CanRetry, UsesSource, MayRetry;
    if exists w, k :: Abandoned(c, w, k) {
      var w, k :| Abandoned(c, w, k);
      AbandonNeeds(c, w, k);
    }
    if !c.body.NoBody? && CanRetry(c) && UsesSource(c.credentials) && MayRetry(c, 0) {
      var w := AbandonHappens(c);
    }
  }

  lemma AbandonNeeds(c: Config, w: World, k: nat)
    requires Abandoned(c, w, k)
    ensures !c.body.NoBody? && CanRetry(c) && UsesSource(c.credentials) && MayRetry(c, 0)
  {
    BodiesAreHandedOver(c, w, k);
    hide Abandoned;
    assert AuthAt(c, w, 0).Some?;
    assert k > 1 ==> Repeats(c, w, 0);
    assert Judged(c, 0, w.answers(0), w.cancelled(0)) == Retry;
  }

  lemma AbandonHappens(c: Config) returns (w: World)
    requires !c.body.NoBody? && CanRetry(c) && UsesSource(c.credentials) && MayRetry(c, 0)
    ensures Abandoned(c, w, 1)
  {
    hide Abandoned;
    w := WorldUpTo(c, 1, (Answer(None, false), false), n => if n == 0 then Some("") else None);
    assert Arrives(c, w, 0) && Repeats(c, w, 0);
    BodiesAreHandedOver(c, w, 1);
  }

  // --- budgets ------------------------------------------------------------------------------------

  function Sends(t: seq<Event>): nat {
    if t == [] then 0 else Sends(t[..|t| - 1]) + if t[|t| - 1].Send? then 1 else 0
  }

  /** The time spent in waits; a wait that is not positive ends at once. */
  function Waited(t: seq<Event>): nat {
    if t == [] then 0 else Waited(t[..|t| - 1]) + WaitOf(t[|t| - 1])
  }

  function WaitOf(e: Event): nat {
    if e.Wait? then Positive(e.duration) else 0
  }

  function Positive(d: int): nat {
    if d > 0 then d else 0
  }

  lemma {:induction false} CountsOfConcat(a: seq<Event>, b: seq<Event>)
    ensures Sends(a + b) == Sends(a) + Sends(b)
    ensures Waited(a + b) == Waited(a) + Waited(b)
  {
    if b == [] {
      assert a + b == a;
    } else {
      assert (a + b)[..|a + b| - 1] == a + b[..|b| - 1];
      CountsOfConcat(a, b[..|b| - 1]);
    }
  }

  lemma CountsOfEmpty()
    ensures Sends([]) == Waited([]) == 0
  {
  }

  lemma CountsOfOne(e: Event)
    ensures Sends([e]) == if e.Send? then 1 else 0
    ensures Waited([e]) == if e.Wait? && e.duration > 0 then e.duration else 0
  {
    assert [e][..0] == [];
  }

  lemma CountsOfAttempt(c: Config, w: World, n: nat)
    ensures Sends(Attempt(c, w, n)) == if AuthAt(c, w, n).Some? then 1 else 0
    ensures Waited(Attempt(c, w, n)) == 0
  {
    CountsOfConcat(Opening(c, n) + Fetching(c, w, n), Sending(c, w, n));
    CountsOfConcat(Opening(c, n), Fetching(c, w, n));
    CountsOfOne(OpenBody(n));
    CountsOfOne(FetchToken(n, w.tokens(n)));
    if AuthAt(c, w, n).Some? { CountsOfOne(Send(n, Content(c.body), AuthAt(c, w, n).value)); }
  }

  lemma CountsOfRetire(c: Config, w: World, n: nat)
    ensures Sends(Retire(c, w, n)) == 0
    ensures Waited(Retire(c, w, n)) == Positive(WaitAfter(c, w, n))
  {
    CountsOfOne(CloseResponse(n));
    CountsOfOne(Wait(n, WaitAfter(c, w, n)));
    CountsOfConcat(if w.answers(n).resp.Some? then [CloseResponse(n)] else [], [Wait(n, WaitAfter(c, w, n))]);
  }

  lemma CountsOfRetired(c: Config, w: World, n: nat)
    ensures Sends(Through(c, w, n) + Retire(c, w, n)) == Sends(Through(c, w, n))
    ensures Waited(Through(c, w, n) + Retire(c, w, n)) == Waited(Through(c, w, n)) + Positive(WaitAfter(c, w, n))
  {
    CountsOfRetire(c, w, n);
    CountsOfConcat(Through(c, w, n), Retire(c, w, n));
  }

  lemma CountsOfNext(c: Config, w: World, n: nat)
    ensures Sends(Through(c, w, n + 1)) == Sends(Through(c, w, n)) + if AuthAt(c, w, n + 1).Some? then 1 else 0
    ensures Waited(Through(c, w, n + 1)) == Waited(Through(c, w, n)) + Positive(WaitAfter(c, w, n))
  {
    CountsOfRetired(c, w, n);
    CountsOfAttempt(c, w, n + 1);
    CountsOfConcat(Through(c, w, n) + Retire(c, w, n), Attempt(c, w, n + 1));
  }

  lemma {:induction false} SendsThrough(c: Config, w: World, n: nat)
    requires forall k: nat | k < n :: AuthAt(c, w, k).Some?
    ensures Sends(Through(c, w, n)) == n + if AuthAt(c, w, n).Some? then 1 else 0
  {
    hide Sends, Waited;
    if n > 0 {
      SendsThrough(c, w, n - 1);
      CountsOfNext(c, w, n - 1);
    } else {
      CountsOfAttempt(c, w, 0);
    }
  }

  lemma WaitIsCapped(c: Config, w: World, n: nat)
    requires c.policy.Default? && c.minWait <= c.maxWait
    ensures Positive(WaitAfter(c, w, n)) <= Positive(c.maxWait)
  {
  }

  lemma ProductOfSuccessor(n: nat, m: nat)
    ensures (n + 1) * m == n * m + m
  {
  }

  lemma {:induction false} WaitsThrough(c: Config, w: World, n: nat)
    requires c.policy.Default? && c.minWait <= c.maxWait
    ensures Waited(Through(c, w, n)) <= n * Positive(c.maxWait)
  {
    hide Sends, Waited;
    if n > 0 {
      WaitsThrough(c, w, n - 1);
      CountsOfNext(c, w, n - 1);
      WaitIsCapped(c, w, n - 1);
      ProductOfSuccessor(n - 1, Positive(c.maxWait));
    } else {
      CountsOfAttempt(c, w, 0);
    }
  }

  function Budget(c: Config): nat {
    if CanRetry(c) then c.maxRetries else 0
  }

  /** At most one send more than the allowed retries; a single one when nothing may be repeated. */
  lemma SendBudget(c: Config, w: World)
    ensures var r := ResultOf(c, w);
      Sends(Trace(c, w)) == (if Sent(r) then Last(r) + 1 else Last(r)) <= Budget(c) + 1
    ensures !Replayable(c.body) || c.retryOverride == Some(false) ==> Budget(c) == 0
    ensures !IsIdempotent(c.httpMethod) && c.retryOverride != Some(true) ==> Budget(c) == 0
  {
    hide Sends, Waited;
    CountsOfEmpty();
    var r := ResultOf(c, w);
    var n := Last(r);
    ResultExplains(c, w);
    RetriesReplay(c, w);
    forall k: nat | k < n ensures AuthAt(c, w, k).Some? { assert Superseded(c, w, k); }
    if Sent(r) {
      SendsThrough(c, w, n);
      CountsOfRetired(c, w, n);
    } else if n > 0 {
      SendsThrough(c, w, n);
      SendsThrough(c, w, n - 1);
      CountsOfRetired(c, w, n - 1);
    } else {
      CountsOfAborted(c, w);
    }
  }

  lemma CountsOfAborted(c: Config, w: World)
    ensures Sends(Opening(c, 0) + Closing(c, 0)) == Waited(Opening(c, 0) + Closing(c, 0)) == 0
    ensures Sends(Attempt(c, w, 0) + Closing(c, 0)) == if AuthAt(c, w, 0).Some? then 1 else 0
    ensures Waited(Attempt(c, w, 0) + Closing(c, 0)) == 0
  {
    CountsOfAttempt(c, w, 0);
    CountsOfOne(OpenBody(0));
    CountsOfOne(CloseBody(0));
    CountsOfConcat(Opening(c, 0), Closing(c, 0));
    CountsOfConcat(Attempt(c, w, 0), Closing(c, 0));
  }

  /** Whatever Retry-After says, wrapped or not, all waits together fit the configured product. */
  lemma WaitBudget(c: Config, w: World)
    requires c.policy.Default? && c.minWait <= c.maxWait
    ensures Waited(Trace(c, w)) <= Budget(c) * Positive(c.maxWait)
  {
    hide Sends, Waited, Through, Retire, Positive, WaitAfter;
    CountsOfEmpty();
    var r, m := ResultOf(c, w), Positive(c.maxWait);
    var n := Last(r);
    ResultExplains(c, w);
    RetriesReplay(c, w);
    if r.Cancelled? {
      assert Superseded(c, w, n);
      WaitsThrough(c, w, n);
      CountsOfRetired(c, w, n);
      WaitIsCapped(c, w, n);
      ProductOfSuccessor(n, m);
      ProductGrows(n + 1, Budget(c), m);
    } else if n > 0 || Sent(r) {
      WaitsThrough(c, w, n);
      ProductGrows(n, Budget(c), m);
      if n > 0 {
        WaitsThrough(c, w, n - 1);
        CountsOfRetired(c, w, n - 1);
        WaitIsCapped(c, w, n - 1);
        ProductOfSuccessor(n - 1, m);
      }
    } else {
      CountsOfAborted(c, w);
    }
  }

  lemma ProductGrows(a: nat, b: nat, m: nat)
    requires a <= b
    ensures a * m <= b * m
  {
    assert (b - a) * m == b * m - a * m;
  }
}
