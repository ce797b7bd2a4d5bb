# Garlic: a verified model

Garlic is a Go toolkit for services: an error calculus that crosses the wire, an
HTTP client that retries, transactions, worker pools, and a linter that checks
error propagation. This project models those cores in Dafny and proves what they
promise, for all inputs, all runs and all interleavings. Where the code does not
keep a promise, the model follows the code, exhibits the failing case and proves
exactly when the promise holds.

Check everything with `dafny verify dfyconfig.toml`.

## How it is organised

Each area has its own modules, one file each. A class models an object whose
methods update it, and every method is tied to a function of the old state; the
promises are then lemmas about those functions. Code that is already made of
expressions is modelled as functions. Concurrent code is a state machine in which
every visible statement of a goroutine is one step.

**The propagation linter** (`GoAst`, `PropagationLint`, `PropagationSemantics`,
`PropagationMemory`, `PropagationDiscipline`, `PropagationReturns`,
`PropagationSoundness`, `PropagationExactness`, `PropagationGaps`,
`PropagationReports`, `PropagationFile`, `ImportSearch`, `LintCoverage`, `BuildTag`). The collector, the
acceptance rule and the report loop are classes and methods that walk a syntax
tree; a small-step semantics with cells, captured environments, escaped addresses,
goroutines, deferred calls, recovered panics and abandoned work says what accepted
code can do and what its caller receives: a named result answers with what its cell
holds when the deferred calls are through, an unnamed one with what the return
statement evaluated. What the check reports is said exactly (`ReportsExactly`), and
its silence means three things.

- Before deferred calls run (`ReturnsAreClean`): each return statement evaluates to
  nil or to constructor-built errors at every error-typed position, in every run.
- For the caller (`CheckIsSound`): the same holds of everything it can receive,
  whatever has been deferred, recovered or started in the background.
  `SilentFileIsCovered` extends this to every declaration and literal of a file.
- Exactly then (`ResultsAreHeldExactly`): in a plainly written function the caller
  never receives a foreign error if and only if the function keeps the clauses on
  its named results; each clause that is broken shows in a run that abandons
  nothing (`BrokenLeaks`).

The function must keep a discipline that the rule takes for granted, in eleven
clauses. `NoClauseCanBeDropped`: for each there is a family of well-typed functions
that keep the other ten, on which the check reports nothing, and a run whose caller
receives a foreign error. Four are about what a return statement evaluates: a
parameter returned as it came in; a variable called `nil`, and a named result called
`nil`; and a returned call whose value is converted to an error
(`func f() (int, MultiError) { return g() }`, where `g` returns `(int, []error)`).
Three are about targets in parentheses, in an assignment, in a range clause and
under `&`. Four are about named results: one whose type is neither an interface nor
a pointer, which a pointer-receiver method or an increment changes without any
assignment the check could see (`errs.Add(pos, msg)` on a `scanner.ErrorList`); one
whose address is taken (`defer capture(&err)`); one that a literal overwrites after
the return statement (`defer func() { err = raw }()`, also as the usual
`if r := recover(); r != nil { err = fmt.Errorf("%v", r) }`); and one that holds a
foreign error when a panic is recovered.

**Transactions** (`DatabaseTransaction`). `Storer.Transaction` with both deferred
handlers runs over any tree of calls and writes, each under a fresh context or under
that of any transaction around it, captured ones included, with swallowed or returned
errors, panics (of the function, of Begin, Commit or Rollback) and `runtime.Goexit`,
and leaves a log of database events. Every transaction is all or nothing. Two exits
do not roll back exactly once, and the lemma states the count for each: a Goexit in
the function runs both handlers with nothing to recover and no error, so the
transaction is left open; and a Rollback that panics while an error is handled is
recovered by the other handler, which asks for it again.

**The retrying client** (`RetryPolicy`, `HttpRetry`, `HttpConservation`). The
request loop records opens, closes, tokens, sends and waits in a trace while the
server, the token source, the policy and the caller's cancellations are arbitrary.
The trace is strictly ordered in time and its members are characterised exactly;
responses, bodies, tokens, send count and total wait follow. Two resources are not
conserved, and the lemmas say exactly when, by the guards met on the way and by the
configuration alone: a policy that returns an error drops the open response, and a
token that cannot be had on a later attempt leaves the rewound body unclosed. The
second is harmless for what the package rewinds, since
only in-memory bodies are replayed.

**Pools** (`WorkerPool`, `ReleaseAudit`). Both are step models over an unbuffered
channel. In the release audit an append is two steps, so losing none depends on the
mutex. The worker pool stands still with work left exactly when as many tasks as
there are workers are inside a `Submit` or `WaitAll` of their own, or when nobody
submits and every running task is; a task that calls `WaitAll` waits for itself. Both
are reachable in a pool of any size.

**Errors** (`Kinds`, `KindRegistry`, `Startup`, `StatusKinds`, `ErrorChains`,
`ErrorObjects`, `Wire`, `ResponseErrors`). Kinds and errors are heap objects; the
methods that propagate have no kind in their frame, so registered kinds never
change. Their values carry the laws: which status wins along a chain, what an
identity is under a pinned status, what a client reads behind any number of hops, and
that a foreign error, or nil, is answered by one and the same opaque response.
`DecodeError` documents that the upstream status is always kept; the code loses it
in one case, a body whose read error is itself one of this package's errors pinned
to another status, and `StatusIsExact` is an equivalence.

**Bytes and strings** (`BoundedText`, `Flatten`, `ArrayText`). The bounded prefix is
specified by the grammar in section 4 of RFC 3629, flattening by the leaves of the
struct, and the array text by which slices survive the round trip.

The outside world is a parameter everywhere: what a database, server, clock, token
source, random source or caller does is an arbitrary value or function, and a
statement about all of them is a statement about every behaviour.

## Model

| member | source | states |
|---|---|---|
| PropagationLint.AssignmentCollector.Inspect | internal/garliclint/helpers.go:241-281 | the walk appends, in order, exactly the values assigned to the variable below a node and becomes opaque exactly when some assignment there cannot be tracked |
| PropagationLint.AssignedValues | internal/garliclint/helpers.go:241-281 | the collected values and the opaque flag for a whole body |
| PropagationLint.AssignedValuesExactly | internal/garliclint/helpers.go:236-281 | a value is collected if and only if some node of the tree, however deep and in whichever literal, pairs it with the variable; opaque if and only if some node assigns it untrackably |
| PropagationLint.CheckIsPropagatedVar | internal/garliclint/helpers.go:299-311 | accepted exactly when nothing is opaque, something is assigned, and every assigned value is a constructor call |
| PropagationLint.CollectNamedErrorResults | internal/garliclint/helpers.go:220-234 | a naked return is answered for by every named error result the body assigns |
| PropagationLint.PropagationCheck.Inspect | internal/garliclint/propagation.go:38-72 | the walk emits exactly the reports of the returns of this function, not of the literals in it |
| PropagationLint.CheckPropagationFunction | internal/garliclint/propagation.go:38-72 | the whole check, with its exemptions, as the list of reports it emits |
| PropagationLint.NoReportsAt | internal/garliclint/propagation.go:44-70 | silence means that every return in the function was examined and found justified |
| PropagationLint.ExplicitErrorReturnsAt | internal/garliclint/helpers.go:197-205 | an expression at an error-typed position is always examined |
| PropagationReports.PropagatedExactly | internal/garliclint/helpers.go:299-311 | a variable is accepted if and only if some node of the body touches it, and every node that does assigns it what constructors return, one to one |
| PropagationReports.ReportsExactly | internal/garliclint/propagation.go:38-72 | a report is made if and only if the function is checked and some return outside of its literals has, at an error-typed position, an expression that is neither nil nor a constructor call nor such a variable; what stands at other positions is never reported |
| PropagationReports.SilentExactly | internal/garliclint/propagation.go:38-72 | so a function is silent if and only if all its error-typed positions hold one of those three |
| PropagationReports.OneReportEach | internal/garliclint/propagation.go:53-70 | a return is reported position by position, in order, once each; a call that fills several positions once |
| PropagationReports.ReportsInTurn | internal/garliclint/propagation.go:42-72 | the reports of a function are those of its returns in the order of the source |
| PropagationReports.ConstructorsExactly | internal/garliclint/helpers.go:76-94 | only the errors package has constructors, and these are they |
| PropagationMemory.EveryRunIsSane | internal/garliclint/helpers.go:236-240 | in every run of every function each variable a thread or closure sees has a cell of its own name |
| PropagationMemory.StoreAllCell | internal/garliclint/helpers.go:241-268 | a statement leaves in a cell a value it stores to that variable, or what the cell held |
| PropagationDiscipline.PropagatedIsPointerLike | internal/garliclint/helpers.go:299-311 | a variable accepted as propagated is of an interface or pointer type, since only those hold a constructor's result |
| PropagationDiscipline.ResultIsHidden | internal/garliclint/helpers.go:269-272 | nothing in a function that keeps the clauses can hand out the address of a named error result |
| PropagationReturns.AssignmentsAreClean | internal/garliclint/helpers.go:299-311 | executing any assignment of an accepted variable stores only constructor-built or nil values |
| PropagationReturns.ReturnIsClean | internal/garliclint/propagation.go:38-83 | in a memory that keeps the invariant, each way of returning yields clean values at error positions |
| PropagationReturns.StepKeeps | internal/garliclint/helpers.go:241-311 | every step of every thread keeps the invariant that tracked variables hold clean values |
| PropagationReturns.RunKeeps | internal/garliclint/helpers.go:241-311 | the invariant holds in every reachable state, over all interleavings |
| PropagationReturns.ReturnsAreClean | internal/garliclint/propagation.go:38-83 | before deferred calls run: each value a return statement evaluates to at an error position is nil or a constructor's result |
| PropagationSoundness.LateStoresAreClean | internal/garliclint/helpers.go:236-240 | what a literal, or a function whose panics may be recovered, stores in a named error result is clean |
| PropagationSoundness.StepHolds | internal/garliclint/helpers.go:236-240 | every step keeps the results of every call that has been left clean, deferred writes and recovered panics included |
| PropagationSoundness.CheckIsSound | internal/garliclint/propagation.go:38-83 | no report implies that everything a caller can receive at an error position, in any reachable state, is nil or a constructor's result |
| PropagationExactness.Complete | internal/garliclint/propagation.go:44-53 | any statement can be carried out: control comes out behind it if some path does, and otherwise the function returns |
| PropagationExactness.Reach | internal/garliclint/propagation.go:44-53 | any statement outside of literals is reached by a run that abandons nothing |
| PropagationExactness.BrokenLeaks | internal/garliclint/helpers.go:236-281 | in a plain function each broken clause on named results shows: a run that abandons nothing, whose caller receives a foreign error |
| PropagationExactness.ResultsAreHeldExactly | internal/garliclint/propagation.go:38-83 | a silent plain function never hands its caller a foreign error if and only if it keeps the clauses on its named results |
| PropagationFile.RunPropagation | internal/garliclint/propagation.go:17-36 | the pass over a package: nothing for the errors package itself and for a package that does not import it; otherwise exactly what offends in a return of one of its functions or literals |
| PropagationFile.PackageReportsExactly | internal/garliclint/propagation.go:21-34 | what the files of a package report together is what offends in one of their functions |
| PropagationFile.FileReportsExactly | internal/garliclint/propagation.go:22-34 | the reports of a file are those of its declarations and of its literals, and no others |
| PropagationFile.LiteralsAreCheckedInTurn | internal/garliclint/propagation.go:22-28 | each literal is checked once, in the order of the source |
| PropagationFile.SilentFileIsCovered | internal/garliclint/propagation.go:17-72 | in a silent file every disciplined declaration and literal meets the condition of CheckIsSound |
| PropagationGaps.NoClauseCanBeDropped | internal/garliclint/propagation.go:38-83 | for each of the eleven clauses there is an accepted, well-typed function that keeps the others and a run whose caller receives a foreign error |
| PropagationGaps.OrderlyIsCovered | internal/garliclint/propagation.go:38-83 | the ordinary function, which returns a variable it assigned from a constructor, meets every condition of CheckIsSound |
| PropagationGaps.ParameterLeaks | internal/garliclint/helpers.go:241-281 | a parameter assigned a constructor on one branch is accepted, and a run returns what the caller passed |
| PropagationGaps.HiddenLeaks | internal/garliclint/helpers.go:283-292 | an assignment through parentheses is not collected, so a foreign error is accepted and returned |
| PropagationGaps.ShadowLeaks | internal/garliclint/helpers.go:39-42 | a variable named nil passes for nil and carries a foreign error out |
| PropagationGaps.NilResultLeaks | internal/garliclint/helpers.go:220-234 | a named result called nil passes for nil in a naked return |
| PropagationGaps.AddressedLeaks | internal/garliclint/helpers.go:269-272 | an address taken through parentheses is not collected, and the variable is overwritten through it |
| PropagationGaps.RangedLeaks | internal/garliclint/helpers.go:273-276 | a range clause that binds through parentheses is not collected |
| PropagationGaps.InPlaceLeaks | internal/garliclint/helpers.go:294-297 | a named result whose type is neither an interface nor a pointer counts as never assigned while an increment or a pointer-receiver method changes it |
| PropagationGaps.ConvertedLeaks | internal/garliclint/helpers.go:207-218 | a returned call whose value is converted to an error is not examined, since both types must be errors |
| PropagationGaps.CapturesLeaks | internal/garliclint/propagation.go:53-59 | the address of a named result handed to a deferred call lets it replace an error that was examined |
| PropagationGaps.OverwritesLeaks | internal/garliclint/propagation.go:44-53 | so does a deferred literal that assigns the result, whose statements are not examined |
| PropagationGaps.PanicsLeaks | internal/garliclint/helpers.go:157-159 | a recovered panic returns a named result without any return statement to examine |
| ImportSearch.Search.Find | internal/garliclint/helpers.go:358-377 | terminates on cyclic graphs, expands each package at most once, and leaves everything it passed over closed under imports |
| ImportSearch.ImportedPackage | internal/garliclint/helpers.go:358-377 | returns a package with the wanted path if and only if one is reachable from the root |
| ImportSearch.ClosedHoldsReachable | internal/garliclint/helpers.go:358-377 | a set closed under imports holds everything reachable from its members |
| LintCoverage.Run | internal/garliclint/propagation.go:17-36 | the visits of a whole file, for the return check and for the handler check |
| LintCoverage.VisitedExactlyOnce | internal/garliclint/manualwriteerror.go:12-56 | a return (or a handler's call) is visited exactly once, by its owner's check, if and only if its owner is a function the analyzer checks; there are no other visits |
| LintCoverage.OwnerIsInnermost | internal/garliclint/propagation.go:21-70 | no function the analyzer tells apart lies between a node and its owner |
| LintCoverage.VisitsExactly | internal/garliclint/propagation.go:21-42 | by tags alone: a return is examined by the innermost function around it if that returns an error, a call by the innermost handler-shaped function around it, and nothing else is visited |
| LintCoverage.ChecksMembers | internal/garliclint/manualwriteerror.go:16-56 | which node is charged to which check, in any tree |
| LintCoverage.ChecksDistinct | internal/garliclint/manualwriteerror.go:39-56 | no check visits the same node twice and no two checks share one |
| BuildTag.HasUnitBuildTag | internal/garliclint/unittesttag.go:33-56 | a file is tagged exactly when a constraint line before the package clause holds under one of the two samples with unit and under neither without |
| BuildTag.SamplingIsExact | internal/garliclint/unittesttag.go:41-55 | with platform tags of one polarity the two samples decide satisfiability over all platforms |
| BuildTag.SampleIsWitness | internal/garliclint/unittesttag.go:58-87 | for any constraint a positive sample is a genuine satisfying platform |
| BuildTag.TaggedIffNeedsUnit | internal/garliclint/unittesttag.go:33-56 | on uniform constraints a file is tagged if and only if one of its constraints needs unit on every platform |
| BuildTag.MixedPolarityIsMissed | internal/garliclint/unittesttag.go:41-55 | unit with one platform wanted and another refused is satisfiable, needs unit, and is missed by both samples |
| BuildTag.NegationFreeIsUniform | internal/garliclint/unittesttag.go:41-55 | constraints without negation, and the negations of such, are decided by the two samples |
| BuildTag.EvalIsBoolean | internal/garliclint/unittesttag.go:41-55 | evaluation obeys the laws that tell the connectives apart |
| BuildTag.PlatformTagsExactly | internal/garliclint/unittesttag.go:58-87 | the platform tags: systems, architectures, implied tags and decimal release tags |
| DatabaseTransaction.Storer.Transaction | database/storer.go:30-66 | the body with both deferred handlers leaves the log and the outcome of the specification, for every outcome of its function |
| DatabaseTransaction.Storer.Execute | database/storer.go:55-63 | running a function body, with its nested calls, appends what the specification says |
| DatabaseTransaction.ToldIsAtomic | database/storer.go:30-66 | a transaction's committed rows are all it wrote if its function and Commit succeed, and none otherwise |
| DatabaseTransaction.Storer.RunDeferred | database/storer.go:38-53 | the two deferred handlers: which rollbacks they ask for and how the call ends, panics of Rollback included |
| DatabaseTransaction.ToldCounts | database/storer.go:38-65 | exactly one Begin; how often Commit and Rollback run, for each way out |
| DatabaseTransaction.CallConcerns | database/transaction.go:21-39 | a call touches only transactions it began, of each of which it tells one whole story, and those around it, in which it only writes |
| DatabaseTransaction.EveryTransactionIsAtomic | database/storer.go:30-66 | over any call tree, under whichever contexts, each transaction commits all or none of its rows, with at most one Commit and, unless a Rollback panics, one Rollback, and none after a successful Commit |
| DatabaseTransaction.OutermostIsAtomic | database/storer.go:30-66 | rows are committed if and only if the outermost call returns nil, that is Begin succeeds, its function returns nil and Commit succeeds; the exact numbers of Begins, Commits and Rollbacks on every exit |
| DatabaseTransaction.FreshCallAnswers | database/storer.go:30-66 | nil if and only if Begin succeeds, the function returns nil and Commit succeeds; a failed Begin answers an error, a panicking one panics, and neither asks anything of the database; exactly when a call panics or exits |
| DatabaseTransaction.ActionsRunInOrder | database/storer.go:55-58 | a function does its actions in order, each once, until one ends it, and then nothing more |
| DatabaseTransaction.FailuresReachTheCaller | database/storer.go:55-58 | whatever fails in a transactional function and is not caught there makes the call fail, and commits nothing |
| DatabaseTransaction.EndsAsItSays | database/storer.go:55-58 | a function that returns an error, panics or exits does so at that point |
| DatabaseTransaction.WritesGoWhereTheyAreSent | database/transaction.go:21-39 | an accepted write belongs to the transaction of the context it was given, and is committed at once under a fresh one; a rejected one is an error |
| DatabaseTransaction.GuardsCatchTheirOwn | database/storer.go:38-53 | a swallowed error and a recovered panic are all a caller can hide of a callee; what the callee did stays done |
| DatabaseTransaction.OnlyFreshContextsBegin | database/transaction.go:21-39 | a nested call joins the transaction of its context, and begins one only without |
| DatabaseTransaction.WrittenExactly | database/storer.go:55-58 | the rows of a transaction are those inserted under its context, each as often |
| DatabaseTransaction.EarlierRowsAreUntouched | database/storer.go:30-66 | what earlier transactions committed, those around included, stays as it was |
| DatabaseTransaction.InliningChangesNothing | database/transaction.go:21-39 | a nested call that inherits its context behaves as a plain call of its function: its begin, commit and rollback do nothing |
| RetryPolicy.Wrap64 | httpclient/retry.go:97-101 | int64 wrap-around of a Retry-After in seconds |
| RetryPolicy.WaitsStayInRange | httpclient/retry.go:72-122 | every wait lies between the configured bounds, whatever Retry-After says, if and only if the bounds form a range |
| RetryPolicy.RetryAfterIsHonored | httpclient/retry.go:72-122 | a number of seconds is waited for if and only if it lies between the bounds, even where it would wrap in int64 |
| RetryPolicy.AskedIsWaited | httpclient/retry.go:72-115 | seconds and dates asked for are waited for, as nearly as the range allows; a date in the past asks for no wait |
| RetryPolicy.UnaskedIsIgnored | httpclient/retry.go:92-115 | a missing, unreadable or negative header is as good as no response |
| RetryPolicy.ExponentialDoubles | httpclient/retry.go:79-82 | the wait starts at the minimum and doubles with each attempt up to the maximum |
| RetryPolicy.JitterIsAdded | httpclient/retry.go:84-88 | the jitter is added to that before the clamp, to within a nanosecond |
| RetryPolicy.ExponentialEnvelope | httpclient/retry.go:79-88 | without Retry-After the wait is within half of the capped doubling on either side |
| HttpRetry.Request.ApplyBody | httpclient/request.go:353-383 | opens a body for an attempt, or fails and opens none |
| HttpRetry.Request.InjectAuth | httpclient/request.go:417-433 | which credentials win, and that the token source is asked at this attempt only when they do not |
| HttpRetry.Request.Execute | httpclient/request.go:309-351 | result and trace of a whole request, including the early exits that close the body |
| HttpRetry.Request.DoWithRetry | httpclient/request.go:435-501 | the loop ends and leaves the trace and result of the specification for every behaviour of the world |
| HttpConservation.TraceIsOrdered | httpclient/request.go:455-494 | no event happens twice and no attempt starts before the one before it is retired |
| HttpConservation.InTrace | httpclient/request.go:324-350 | an event is in the trace exactly when the run came that far |
| HttpConservation.EverySendIsFresh | httpclient/request.go:456-469 | each send carries identical bytes, and the token fetched immediately before it when the source is used |
| HttpConservation.SupersededIsClosedFirst | httpclient/request.go:483-494 | a superseded response is closed once, after its own send and before the next |
| HttpConservation.DeliveredIsLastAndOpen | httpclient/request.go:496-500 | a delivered response belongs to the last event of the run and is still open |
| HttpConservation.PolicyFailsExactly | httpclient/request.go:455-494 | the run ends in the policy's error at an attempt if and only if every earlier one was retried, waited for, rewound and authorised, retries are left, and the policy fails on this one |
| HttpConservation.EndsExactly | httpclient/request.go:309-501 | each other way to end, if and only if what the run meets makes it so: no request, failed hook, no token, cancelled wait, failed rewind, delivery, transport error |
| HttpConservation.DefaultRetriesExactly | httpclient/retry.go:46-70 | under the default policy the run goes past an attempt that is not cancelled if and only if Do failed, or the status is 429, or it is at least 500 and not 501, as far as retries, wait, rewind and token allow; so while retries are left no such answer is delivered |
| HttpConservation.DefaultArrivesExactly | httpclient/retry.go:46-70 | an attempt is reached if and only if all before it had such answers |
| HttpConservation.RepeatableExactly | httpclient/request.go:443-453 | what may be repeated: retries are left, the body can be replayed, and the caller says so or, if silent, configuration and method do |
| HttpConservation.SendCarries | httpclient/request.go:412-433 | the credentials of each send: the first there are of basic, token, the caller's header and the source |
| HttpConservation.WaitsExactly | httpclient/request.go:483-490 | a wait follows exactly the attempts that are retried or cancelled while waiting, as long as the policy says |
| HttpConservation.OnlyAPolicyErrorLeaks | httpclient/request.go:475-478 | a response is neither delivered nor closed if and only if it is open and those guards hold |
| HttpConservation.ResponsesAreSafeExactly | httpclient/request.go:435-478 | a configuration can lose a response if and only if retries are on and its policy can come to fail on an open one |
| HttpConservation.DefaultPolicyCanDrop | httpclient/retry.go:46-49 | with the default policy that is every request that may be retried at all |
| HttpConservation.BodiesAreHandedOver | httpclient/request.go:333-347 | a body is neither sent nor closed if and only if a later attempt was reached and rewound, and its token could not be had |
| HttpConservation.BodiesAreSafeExactly | httpclient/request.go:435-469 | a configuration can abandon a body if and only if it has one, may retry it, asks a token source, and its policy can ask for a first retry |
| HttpConservation.StreamsNeverLeak | httpclient/body.go:49-62 | a stream is opened once, and then handed over or closed |
| HttpConservation.SendBudget | httpclient/request.go:435-473 | the exact number of sends, at most one more than the retries allowed, and a single one for what may not be repeated |
| HttpConservation.WaitBudget | httpclient/retry.go:72-122 | all waits together fit the allowed retries times the maximum wait, even if Retry-After wraps |
| WorkerPool.StepKeeps | worker/pool.go:22-43 | each step keeps the counter equal to the tasks not Done, one task to a worker, one start to a task |
| WorkerPool.EveryRunIsCoherent | worker/pool.go:22-43 | in every interleaving the counter never goes negative and at most size tasks run |
| WorkerPool.WaitAllWaits | worker/pool.go:40-43 | when WaitAll returns, every task submitted before the call has run once to its end |
| WorkerPool.WaitingForOneself | worker/pool.go:40-43 | a WaitAll called inside a task never returns |
| WorkerPool.StuckExactly | worker/pool.go:22-43 | with work left the pool stands still if and only if as many tasks as there are workers are inside their own Submit or WaitAll, or nobody sends and every running task is |
| WorkerPool.OnlySubmitsStop | worker/pool.go:22-38 | where no task calls WaitAll, if and only if as many tasks as there are workers are inside their own Submit |
| WorkerPool.Drains | worker/pool.go:22-43 | tasks that do not submit are all run: every schedule takes the same number of steps and ends at counter zero |
| WorkerPool.EveryPoolCanJam | worker/pool.go:22-38 | a pool of any size is brought to a standstill by as many tasks as it has workers, each of which submits another |
| WorkerPool.OneSelfWaitStops | worker/pool.go:40-43 | one task that waits for all never ends, and the pool with it |
| ReleaseAudit.StepKeeps | hack/check-go-release-age/main.go:251-272 | each step keeps mutual exclusion, current loads, and each pin with one worker or in its slice, once |
| ReleaseAudit.AuditEqualsScan | hack/check-go-release-age/main.go:240-279 | for every schedule both result multisets equal those of a scan in order |
| ReleaseAudit.StopsOnlyAtTheEnd | hack/check-go-release-age/main.go:241-277 | no step is possible if and only if the audit has returned, or there are pins and no workers |
| ReleaseAudit.EveryScheduleEnds | hack/check-go-release-age/main.go:251-278 | every schedule is finite, and where it ends the audit has returned |
| Kinds.Kind.StatusCode | errors/kind.go:93-101 | the walk returns the nearest status on the way up, or 500 |
| Kinds.Kind.Is | errors/kind.go:128-135 | the walk finds a code exactly when the kind or an ancestor carries it |
| Kinds.StatusIsInherited | errors/kind.go:90-101 | the status is that of the nearest ancestor, itself included, that has one, and 500 when none has |
| Kinds.MatchingIsByAncestor | errors/kind.go:125-135 | a kind matches a code if and only if one of its ancestors, itself included, carries it |
| Kinds.FqnSpellsAncestry | errors/kind.go:81-89 | the FQN spells the names of all ancestors from the kind's own up to the root's |
| Kinds.Kind.CustomizeStatusCode | errors/kind.go:113-123 | a fresh copy with the status pinned, or the receiver for a non-positive code; nothing is modified |
| Kinds.CustomizingKeepsIdentity | errors/kind.go:103-123 | a customized kind differs in its status alone: code, FQN, description and matching stay |
| KindRegistry.Registry.Register | errors/kind.go:33-46 | the kinds before the first clash are in both indexes, and it panics exactly when there is a clash |
| KindRegistry.Registry.LookupByCode | errors/kind.go:64-67 | finds a kind exactly when the code is registered, and the names index agrees |
| KindRegistry.MatchingIsBijective | errors/kind.go:13-16 | both indexes always hold the same kinds, each once |
| Startup.HttpIdentifiersAreInjective | errors/status.go:25-27 | the two decimal spellings tell any two statuses apart |
| Startup.HttpIdentifiersSpell | errors/status.go:25-27 | the code is an S and the five digits of the status, the name spells it in plain decimal |
| Startup.StartupNeverClashes | errors/common.go:86-106 | start-up registration clashes for no walk of the map of HTTP kinds, whatever statuses are standard |
| StatusKinds.BuildHttpKinds | errors/status.go:16-35 | one kind per standard status, below the base of its class |
| StatusKinds.Init | errors/common.go:86-106 | init never panics, in any order, and leaves under their codes the root kind, the kind of every status and the framework kinds, as built |
| StatusKinds.FrameworkStatuses | errors/common.go:44-84 | the framework kinds report the statuses of the HTTP kinds they hang below, when these are standard, without having one of their own |
| StatusKinds.EveryPhraseHasItsKind | errors/status.go:16-62 | each status with a phrase has a kind of its own below its class, any other status has its class |
| StatusKinds.UserClassIsFourHundreds | errors/status.go:44-62 | the kind of a status is user-class if and only if it is a 4xx |
| StatusKinds.StatusKindIsExact | httpclient/response.go:141-156 | the generic kind reports the exact status, and is pinned if and only if no kind has that status |
| ErrorChains.PinPrecedence | errors/errors.go:176-202 | along any chain the kind is the outermost named one, with the status of the outermost frame that pins one |
| ErrorChains.ChainAnswers | errors/errors.go:50-105 | the status a chain reports, and that code, FQN and matching are those of the unpinned kind |
| ErrorChains.TraceGrows | errors/errors.go:70-77 | the trace is the root's, continued by one entry per boundary except a plain From |
| ErrorChains.KindsAreFound | errors/utils.go:29-63 | IsKind finds exactly the kinds of the root and those named by the links; the origin stays that of the root |
| ErrorChains.AsKindIsOutermost | errors/utils.go:29-39 | AsKind finds the outermost error of ours of that kind on the chain of causes, if and only if there is one |
| ErrorChains.OriginIsOutermost | errors/utils.go:55-64 | Origin finds the outermost origin on the chain, if and only if there is one |
| ErrorChains.DetailsAccumulate | errors/errors.go:163-188 | along any chain a detail is what the outermost option that writes it says, else what the root holds; the message is that of the last link |
| ErrorChains.CallersWin | errors/template.go:46-51 | under a template, what the caller's options write wins |
| ErrorChains.ForeignBecomesRoot | errors/errors.go:50-61 | a foreign error propagated without a kind becomes the root kind, a 500 of neither class |
| ErrorObjects.ErrorT.Wrap | errors/errors.go:176-188 | the new error takes over details, trace and pinned status; no other object changes |
| ErrorObjects.From | errors/errors.go:99-105 | nil stays nil; otherwise a fresh error with the specified value, and the heap as it was |
| ErrorObjects.PropagateAs | errors/errors.go:70-77 | one link of a chain, as a fresh object |
| ErrorObjects.Propagate | errors/errors.go:50-61 | the same, with the kind of a direct cause or the root kind |
| ErrorObjects.TemplateT.Propagate | errors/template.go:46-51 | the same, with the template's kind and its options before the caller's |
| ErrorObjects.AsKind | errors/utils.go:29-39 | the first error of ours of that kind, through foreign wrappers |
| ErrorObjects.Origin | errors/utils.go:55-64 | the first origin on the chain |
| Wire.NothingElseLeaks | rest/response.go:78-89 | two sanitized bodies are equal if and only if code and generic kind are, so nothing else is told |
| Wire.ForeignErrorsAreOpaque | rest/response.go:57-70 | with no error of ours on its chain, whatever its texts, an error is answered by one and the same opaque 500, and so is nil |
| Wire.WrappersAreTransparent | rest/response.go:62-69 | a foreign wrapper around an error of ours is answered as the first one below it |
| Wire.OursIsAnswered | rest/response.go:57-89 | an error of ours is answered with its own status, in full if it is the user's, else by its code under the generic kind |
| Wire.UserErrorArrives | errors/dto.go:48-73 | a user's error arrives with message, code, ancestry, status, details and origin as they were sent |
| Wire.RegisteredErrorsAreSendable | errors/kind.go:33-46 | the hop laws cover every error of a registered kind that reports an error status, pinned or not |
| Wire.HopKeepsStatus | errors/dto.go:48-73 | a hop arrives with the same status and with what the body said |
| Wire.StatusSurvives | rest/response.go:57-70 | any number of hops preserves the status |
| Wire.UserBodySurvives | rest/response.go:72-89 | a user-class body is the same after any number of hops |
| Wire.SanitizedBodySettles | rest/response.go:72-89 | a sanitized body is fixed after two hops, and only its origin may have changed, to the generic code |
| Wire.ServedIsCoherent | errors/common.go:86-106 | the registry init leaves is one on which the hop laws hold |
| ResponseErrors.Response.DecodeError | httpclient/response.go:68-125 | the error for a nil response and for every status, body and read error, and an open body is closed once |
| ResponseErrors.StatusIsExact | httpclient/response.go:66-125 | the error reports the upstream status if and only if the read error is not one of ours pinned to another status under an unpinned generic kind |
| ResponseErrors.PinnedReadErrorWins | httpclient/response.go:118-121 | where a kind reports the upstream status, such a read error's status is reported instead |
| ResponseErrors.FourHundredReadAs499 | httpclient/response.go:118-121 | for one, a 400 whose body fails to read with an error pinned to 499 is reported as 499 |
| ResponseErrors.StatusClassIsKept | httpclient/response.go:96-125 | fallback and unknown-kind errors still match the kind of the status |
| ResponseErrors.OnlyErrorsAreDecoded | httpclient/response.go:69-76 | what is no error response, or no response, becomes a local failure that tells nothing of the body |
| ResponseErrors.FallbackIsDescribed | httpclient/response.go:108-125 | without a DTO the error keeps the metadata over the details of a read error, which is its cause |
| ResponseErrors.UnknownKindsAreNamed | httpclient/response.go:96-105 | a kind unknown here is named as such, over the generic error of its exact status |
| ResponseErrors.PeerErrorIsKept | httpclient/response.go:90-94 | a registered peer error keeps everything but its status |
| ResponseErrors.RetypingAFallback | httpclient/response.go:141-156 | retyping keeps the upstream status if and only if no kind reports it |
| BoundedText.DecoderFollowsGrammar | httpclient/response.go:338-341 | the decoder rejects exactly what starts with no character of the grammar, and an encoded U+FFFD is not rejected |
| BoundedText.DecodedIsEncoded | httpclient/response.go:338-341 | the rune read off a string is the one its first character encodes |
| BoundedText.BoundedPrefix | httpclient/response.go:332-350 | fails if and only if what lies below the limit is not UTF-8; otherwise the longest whole-character prefix, whole or at most three bytes short |
| BoundedText.FourBytesSuffice | httpclient/response.go:332-350 | three bytes beyond the limit decide the answer |
| BoundedText.HeadDecides | httpclient/response.go:332-350 | two values that agree on three bytes beyond the limit are both refused or have the same prefix |
| BoundedText.CaptureDiagnostic | httpclient/response.go:314-330 | truncated if and only if longer than 4096 bytes, on both branches |
| Flatten.FlattenStruct | utils/flatten.go:10-57 | the field loop with its recursion builds the specified map |
| Flatten.PanicsOnNil | utils/flatten.go:31-53 | panics if and only if a tagged field on the way is a nil pointer |
| Flatten.FlatteningLosesNothing | utils/flatten.go:59-65 | one entry per tagged leaf, under its dotted path, and no other |
| Flatten.DistinctLeavesAreWellTagged | utils/flatten.go:10-57 | which covers every struct of leaves with distinct plain tags |
| Flatten.SquashedInPlace | utils/flatten.go:26-47 | an untagged field leaves no entry, a struct under a comma-led tag is flattened in place, and a pointer to a struct as the struct |
| Flatten.LaterFieldsWin | utils/flatten.go:44-53 | of two fields with one key the later wins |
| Flatten.ParentsPrefix | utils/flatten.go:36-52 | flattening under parents is flattening under none with every key prefixed |
| ArrayText.StringSlice.Scan | database/utils/slices.go:12-33 | what each source leaves in the slice |
| ArrayText.RoundTrip | database/utils/slices.go:12-40 | a slice survives printing and parsing if and only if it has no comma, is not the single empty string, and its text has no brace at either end |
| ArrayText.SecondTripIsExact | database/utils/slices.go:12-40 | whatever was parsed survives every further trip |

## Left out

- PropagationSoundness.CheckIsSound: holds under the discipline; no clause can be dropped, but a function may break one of the seven on targets and returned expressions without harm, so those are sufficient and not an equivalence.
- PropagationExactness.ResultsAreHeldExactly: for functions without dead code whose body ends in returns, which store no copy of a variable of their own in a named error result, name it once in an assignment, and defer what may recover before they touch it; for others the clauses are sufficient. A condition can come out either way, a deferred function that is not a literal may recover and keep an address, and any mention of a variable that is neither an interface nor a pointer may change it.
- PropagationReturns.RunKeeps: backward goto, type-switch and select clauses, and labelled jumps out of literals are not statements of the mini-language; a panic nobody recovers is an abandoned thread.
- PropagationLint.CheckPropagationFunction: the exemption for methods that implement a foreign interface is a flag of the function, since matching method sets needs the Go type checker; the log-then-return reports that end the check are left out.
- BuildTag.SamplingIsExact: one polarity is sufficient, not necessary; the family of MixedPolarityIsMissed shows what mixing can miss.
- DatabaseTransaction.Storer.Transaction: a Commit whose outcome the database leaves ambiguous is not modelled; a Commit or Rollback that fails or panics is.
- PropagationFile.RunPropagation: files are read as their imports and lists of function declarations; literals in package-level variable initialisers and the checks on calls are not modelled, and LintCoverage keeps its own smaller tree for the two walks.
- HttpRetry.Request.Execute: hooks that rewrite the request body, callers that mutate a byte slice after handing it over, and tracing headers are not modelled; multipart bodies count as streams.
- RetryPolicy.ExponentialEnvelope: the doubling is over the reals, so float64 rounding and overflow to infinity are not modelled; HTTP dates are a remaining time.
- WorkerPool.StepKeeps: goroutines are interleaved as atomic steps on values, not as Dafny objects; a task that panics, and the race detector's rules on reusing a WaitGroup, are not modelled.
- ReleaseAudit.AuditEqualsScan: goroutines are interleaved steps on values, as for the pool; fetching a pin is a fixed outcome per pin; the age in days and the text of an error are part of that outcome.
- ErrorObjects.ErrorT.Wrap: the details map and the trace slice are copied, so writes through a map or backing array shared by two errors are not modelled; neither are stack traces and the troubleshooting context.
- Wire.HopKeepsStatus: JSON is the identity on the transfer object with an empty details map read back as nil; the hops are functions on values.
- ResponseErrors.Response.DecodeError: parsing the body is a given result, and the diagnostic fields are an opaque map.
- Flatten.FlattenStruct: reflection panics on unexported fields and on values that are not structs are not modelled.
- The checks on fmt.Errorf, on New around an error and on logging before returning, and the small single-pattern lint rules: each is one branch.
- Request setters, response parsing, client configuration, middleware, logging, validation, tracing, crypto and the REST server: thin wrappers.
- Real I/O: the network, the SQL driver, JSON, clocks and random numbers are parameters.
