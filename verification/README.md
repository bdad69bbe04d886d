# rtp-bff: a verified model

This project models three parts of the backend-for-frontend and proves what they are there for.

**Token refresh.** Many calls race on one session. Each takes a bounded lease in a shared store, re-reads
the session, exchanges the refresh token, writes back through compare-owner scripts and releases by
compare-and-delete. `Lease` is the protocol as a step relation: any number of calls and sessions, one step
for each place where something else may come in between. Requests may be slow, fail, lose their reply after
taking effect, or take effect after their sender left. Time is in milliseconds and nothing bounds how late a
call is scheduled. `LeaseInvariant` proves one invariant over every run. From it `LeaseSafety`, `Provenance`,
`Answers`, `Rejection`, `Lifetime`, `Convergence`, `Rotation` and `LostExchange` draw the conclusions, each over
whole runs: `Answers` says of every call why it is answered as it is. `LoneRefresh` shows that the protocol also gets somewhere, and `Mishaps` has runs on which an exchange
or an invalidation is lost or two owners meet. `WaitLoop` treats the back-off loop and `Timing` the expiry arithmetic.
`SessionStore` is the store with exact expiry and the map that purges only when touched, as a class;
`RedisStore` is the hash of strings. `OwnedRefresh` is one owner's turn as methods on the store, and
`TurnSteps` ties it to the protocol.

**Route policies.** `Policy`, `Template`, `Matching`, `Validation`, `Digest`, `Snapshots`, `Resolution`,
`Targets` and `Registry` compile route definitions into a snapshot, print its canonical text, and resolve
requests. Each loop of the source is a method proved equal to a function; the theorems are about the
functions. `Alphabets` and `Acceptance` spell out what is accepted, down to the characters, `Refusals` and
`Denials` which error is returned for what, `CanonicalText` what is hashed, and `DotSegments` what
remove_dot_segments does. `Text` and `Ordering` hold the string routines, and `Prelude` the option and result types.

**Pending logins.** `PendingLogins` is the bounded, expiring, take-once map and the callback's gates, in
place. `LoginRuns` interleaves logins and callbacks.

## What the code does not do

Some promises hold only under a condition. The code is modelled as it is, and the lemmas say when.

- The decision record for server-side refresh says rotation "cannot be raced". With owners on time, and an
  endpoint that takes only its current refresh token and replaces it by a new one or not, the agreement between
  stored and current token is lost in four places and no others (`Rotation.RotationAgreement`,
  `LostExchange.OnlyLossesBreak`), at each of them exactly if the endpoint rotated:
  - the answer is lost, late or unreadable, and the call reports a failure in time
    (`LostExchange.LostReplyExactly`, a run: `Mishaps.ReplyIsLost`);
  - the client leaves while it waits, and the endpoint executes the exchange afterwards
    (`LostExchange.LeavingExchange`, `LostExchange.LateExchangeExactly`, a run: `Mishaps.ExchangeIsExecutedLate`);
  - the client leaves with the answer in hand (`LostExchange.LeavingAnswerExactly`, a run:
    `Mishaps.ExchangeIsLost`);
  - the client leaves with the write under way (`LostExchange.LeavingUpdateExactly`). Its late update, executed
    under its own live lock, is then the one thing that mends it (`LostExchange.MendsExactly`).

  Without such an update the session is broken for good (`LostExchange.BrokenForGood`).
- REQ-BFF-REFRESH-009 asks that a rejected grant ends the session, without exception. It does if and only if
  the invalidation reaches the store while the call holds the live lock (`Rejection.EndsEarlyExactly`,
  `Rejection.RejectedGrantExactly`). A run on which it does not: `Mishaps.InvalidationIsLost`.
- Mutual exclusion ends where the lease ends, ten seconds past the owner's deadline at the earliest
  (`LeaseSafety.HeldExactly`, `LeaseSafety.ExpiredLeaseIsShared`). A run on which two owners are at work:
  `Mishaps.TwoOwners`.
- A lifetime that overflows 64 bits loses its expiry hint, and the token then counts as valid for ever
  (`Timing.RefreshedValidExact`, `Timing.OverflowNeverExpires`).
- An operation on the purging map reads the clock before it waits for the map, so its instant may be overtaken.
  It is then answered differently from exact expiry if and only if a key it looks at ran out in between
  (`SessionStore.OvertakenExactly`, `SessionStore.LateReaderDiffers`).
- Redis keeps an empty refresh token, an expiry of zero and a verified flag without e-mail as absent, and
  cannot read a session without issuer or subject (`RedisStore.DecodeEncode`). The purging map returns what it
  was given, so the two agree exactly on identified sessions in normal form.

## Model

| member | source | states |
|---|---|---|
| `LeaseInvariant.StepKeepsInv` | src/oidc/refresh.rs:79-362 | every step of every call, and every late or lost request, keeps the whole invariant: lock entries belong to acquired owners, records replay from the history, owners know what is stored while they hold the lock |
| `LeaseInvariant.RunInv` | src/oidc/refresh.rs:79-362 | the invariant holds in every state of every run, with no assumption on time or scheduling |
| `LeaseSafety.StepAccounted` | src/session.rs:28-67 | nothing changes the store but a login, an acquisition over no live lock, and updates, invalidations and releases by the holder of the live lock; each change is in the history |
| `LeaseSafety.HeldExactly` | src/oidc/refresh.rs:26-38 | between acquisition and release a call holds the live lock if and only if its lease has not run out |
| `LeaseSafety.LeaseCovers` | src/oidc/refresh.rs:26-35 | up to ten seconds past a deadline set before the request was sent, an owner's live lock is its own, however late replies come |
| `LeaseSafety.MutualExclusion` | src/oidc/refresh.rs:125-149 | at most one call per session is between acquisition and release |
| `LeaseSafety.ExpiredLeaseIsShared` | src/session.rs:584-609 | past its lease an owner can be joined by the next call that asks |
| `Mishaps.TwoOwners` | src/oidc/refresh.rs:26-35 | a run from the beginning on which two calls of one session are between acquisition and release, the first scheduled again exactly the margin past its deadline |
| `LeaseSafety.EachAcquiresOnce` | src/oidc/refresh.rs:111-136 | every owner id acquires at most once in a run |
| `LeaseSafety.ReadyIsSerial` | src/oidc/refresh.rs:249-343 | a token handed out by an owner: acquired once, released before the lease ended, only its own writes on the session in between, and the token is the stored one at the release |
| `LeaseSafety.LostForGood` | src/session.rs:28-67 | an owner whose live lock is gone never holds it again, and no update, invalidation or release of it changes anything ever after |
| `LeaseSafety.SessionAsCreated` | src/session.rs:28-46 | in every state a record has the deadline and the whole identity of its creation |
| `LeaseSafety.GoneForGood` | src/session.rs:28-60 | a session that expired or was invalidated is never readable again, whatever arrives late |
| `LeaseSafety.EarlyEnd` | src/oidc/refresh.rs:301-309 | a session that ends early was dropped by the holder of its live lock, whom the token endpoint had told that the grant is invalid |
| `Rejection.EndsEarlyExactly` | src/session.rs:48-60 | before its deadline a live session ends if and only if an invalidation reached the store while the call that sent it held the live lock |
| `Rejection.RejectedGrantExactly` | src/oidc/refresh.rs:301-309 | after a rejected grant, and as long as the call holds the live lock, the session is gone if and only if that call's invalidation was executed |
| `Rejection.RejectedSessionIsGone` | src/oidc/refresh.rs:345-362 | when a rejected grant makes a call ask for a new login, the session is unreadable from then on |
| `Rejection.LostInvalidationKeepsSession` | src/oidc/refresh.rs:345-362 | an invalidation that fails leaves the session readable and the call unavailable |
| `Mishaps.InvalidationIsLost` | src/oidc/refresh.rs:345-362 | a run from the beginning on which the grant is rejected, the invalidation is lost and the session stays readable |
| `Lifetime.WriteIsMade` | src/oidc/refresh.rs:311-338 | every write in the history of a run, on time or late, stores the token and the expiry its own call computed from the endpoint's answer |
| `Lifetime.ReadingOnRecord` | src/session.rs:514-582 | every reading a call judges was recorded for its session by the login or by a refresh |
| `Lifetime.JudgedTokenOutlasts` | src/oidc/refresh.rs:321-323 | over runs: a reading written by a refresh and judged sufficiently valid goes back to an answer of the endpoint, and if that came within the request timeout at least 14.002 s of the issuer's lifetime are left, less the judging call's gap |
| `Provenance.ReadyIsEarned` | src/oidc/refresh.rs:96-98 | every token handed out was read as sufficiently valid by the call's own clock, or issued to this call by the endpoint |
| `Answers.AnswerWithoutLease` | src/oidc/refresh.rs:91-184 | over runs, what a call answers that never took the lease, and why: `Ready(t)` if and only if its last read found a record with token `t`, without expiry or with one more than 30 s ahead by the call's clock; a new login if and only if that read found nothing, or a record past use without refresh token; closed if and only if the call failed or its 40 s were over |
| `Answers.FreshTokenIsHandedOut` | src/oidc/refresh.rs:91-98 | from any state over a live record that is good enough, the call's three steps end in its token, and store and history stay as they are |
| `Answers.WaiterLooksAgain` | src/oidc/refresh.rs:141-181 | a waiter refused in time sleeps and reads again, and then hands out what it finds, asks for a login, asks for the lease again, or gives up, by that record and the time |
| `Answers.AttemptsInTime` | src/oidc/refresh.rs:114-127 | over runs every attempt starts within the 40 s after the call's wait began |
| `Answers.AnswerWithLease` | src/oidc/refresh.rs:217-280 | over runs an owner answers what it had decided on, for one of the listed reasons, if and only if its release was answered and found the lock its own; otherwise it fails closed |
| `Answers.RejectedCallAsksForLogin` | src/oidc/refresh.rs:345-362 | over runs a rejected call whose invalidation found it the owner asks for a new login if its release does too, and fails closed if not |
| `Answers.FailureExactly` | src/oidc/refresh.rs:91-184 | where a call may fail: while its request to the store or its answer is under way, or at discovery; an owner at work then releases, any other call is over |
| `Answers.OwnerIsCutOff` | src/oidc/refresh.rs:225-247 | an owner at work can be cut off from 25 s after it asked, and not before; a write under way may still be executed |
| `LeaseSafety.ClockReads` | src/oidc/refresh.rs:87-88 | every call judges expiry by its own base second plus whole elapsed seconds |
| `Convergence.StepKeepsCalm` | src/oidc/refresh.rs:272-282 | after a write, every step keeps everybody else out of an exchange while the stored token stays valid |
| `Convergence.OneExchangeServesAll` | src/oidc/refresh.rs:160-171 | once one refresh is stored and stays sufficiently valid, no call of the session exchanges again and the record stays; every call that holds nothing older at the write, be it waiting, asking or yet to start, ends with the stored token or fails closed while the session lives |
| `Convergence.WriterHoldsNothingOlder` | src/oidc/refresh.rs:332-338 | the writer itself is among those calls |
| `Convergence.OneMutationLate` | src/oidc/refresh.rs:332-362 | a call has at most one update or invalidation under way after it left |
| `Rotation.StepKeepsAgreement` | src/oidc/refresh.rs:311-343 | every benign step keeps stored, in-flight and server tokens in agreement |
| `Rotation.RotationAgreement` | src/oidc/refresh.rs:272-343 | with none of the endpoint's tokens lost and owners on time, the stored refresh token of a live session is the endpoint's current one whenever none is in flight; any other call may fail or be left behind, a waiting exchange included |
| `Rotation.NeverRejected` | src/oidc/refresh.rs:301-309 | on those runs racing calls never get a grant rejected, and sessions live to their deadline |
| `LostExchange.OnlyLossesBreak` | src/oidc/refresh.rs:296-343 | under the endpoint's rule and on time, the agreement is lost only at a step that loses its tokens: an answer with tokens left behind or taken for a failure, or an exchange executed when nobody waits |
| `LostExchange.LostReplyExactly` | src/oidc/refresh.rs:301-309 | a failure the client sees in time breaks the agreement if and only if the endpoint rotated behind it; if it did, the session is broken |
| `LostExchange.LeavingExchange` | src/oidc/refresh.rs:234-239 | leaving while the endpoint is asked changes nothing yet, and leaves the presented token to be executed late |
| `LostExchange.LateExchangeExactly` | src/oidc/refresh.rs:234-239 | an exchange executed when its call has gone breaks the agreement if and only if the endpoint rotated; if it did, the session is broken |
| `LostExchange.LeavingAnswerExactly` | src/oidc/refresh.rs:234-239 | when a client leaves with the endpoint's answer in hand, the stored token is still the endpoint's if and only if the endpoint did not rotate; if it did, the session is broken |
| `LostExchange.LeavingUpdateExactly` | src/oidc/refresh.rs:332-343 | the same when the write is under way, with its request and the endpoint's token left behind |
| `LostExchange.MendsExactly` | src/session.rs:28-46 | an update left behind mends the agreement if and only if it carries the endpoint's token and its sender still holds the live lock on a live record |
| `LostExchange.StepKeepsAdrift` | src/oidc/refresh.rs:272-343 | every other step under the endpoint's rule, however timed, failed or late, keeps stored, carried and presented tokens away from the endpoint's |
| `LostExchange.BrokenForGood` | src/oidc/refresh.rs:272-343 | from a broken state of a run on, no exchange on the session is ever answered with tokens while the endpoint keeps its rule, and no record agrees again |
| `Mishaps.ReplyIsLost` | src/oidc/refresh.rs:308 | a run from the beginning, within the endpoint's rule and with nobody leaving, that ends broken with the session still readable |
| `Mishaps.ExchangeIsExecutedLate` | src/oidc/refresh.rs:234-239 | another, on which the exchange is executed after its client left |
| `Mishaps.ExchangeIsLost` | src/oidc/refresh.rs:234-239 | another, on which the client leaves with the answer in hand |
| `LoneRefresh.LoneCallRefreshes` | src/oidc/refresh.rs:79-343 | a call on an expiring session whose lease is free, answered by the store and the endpoint, ends with the new token stored and handed out and the lock free |
| `LoneRefresh.RunRefreshes` | src/oidc/refresh.rs:79-343 | such a run exists from the beginning, login included |
| `LoneRefresh.RunReachesExchange` | src/oidc/refresh.rs:79-292 | a run from the beginning, without failures, reaches an exchange |
| `TurnSteps.TurnIsPath` | src/oidc/refresh.rs:213-362 | when only the owner steps, its path through the protocol ends with the outcome, the locks and the records of `Turn`, the owner's record in the normal form Redis keeps |
| `TurnSteps.CutIsFailure` | src/oidc/refresh.rs:234-239 | being cut off at the deadline during a store call is what a failure of that call is |
| `TurnSteps.CutExchangeIsFailure` | src/oidc/refresh.rs:234-239 | and during the exchange what an answer without tokens is |
| `OwnedRefresh.RunOwnedRefresh` | src/oidc/refresh.rs:213-247 | the turn in place, nobody else acting meanwhile: store and result are those of `Turn`; without the live lock nothing is handed out |
| `OwnedRefresh.RefreshWithOwnership` | src/oidc/refresh.rs:264-343 | read, judge, exchange and write back in place, with every call allowed to fail before or after its effect |
| `OwnedRefresh.InvalidateRejectedRefresh` | src/oidc/refresh.rs:345-362 | the invalidation in place, and its three answers |
| `OwnedRefresh.ReleaseRefreshLock` | src/oidc/refresh.rs:249-262 | a result stands only when the release found the lock still owned |
| `OwnedRefresh.TurnEffect` | src/oidc/refresh.rs:213-362 | with nobody else acting, exactly what a turn leaves at any later instant: other sessions and locks as they were, its lock gone if still its own, its record unchanged, renewed in three fields, or dropped |
| `OwnedRefresh.ReadyExact` | src/oidc/refresh.rs:213-343 | with nobody else acting, a turn hands out a token if and only if it began in time, held the lock to the release, and read or stored that token; the record then shows it |
| `OwnedRefresh.ReauthExact` | src/oidc/refresh.rs:249-362 | with nobody else acting, an owner asks for a new login exactly when it began in time, its read and its owned release were answered, and it found no record, or one past use without refresh token, or was told the grant is invalid, or found the record gone when it came to store the new one |
| `OwnedRefresh.LateTurn` | src/oidc/refresh.rs:249-262 | with nobody else acting, the turn of an owner that had lost the lock changes nothing and fails closed |
| `WaitLoop.WaitForAccessToken` | src/oidc/refresh.rs:114-184 | the loop terminates under every store behaviour, after at most 84 attempts; its ending is the one that the rounds it went through call for: owner, the token or the login its last re-read calls for, or closed at a store error or the deadline |
| `WaitLoop.EndingMeans` | src/oidc/refresh.rs:114-184 | the rounds of the loop, each with its instant and back-off, and what each ending means: `Ready(t)` only for a re-read record with token `t`, without expiry or with one more than 30 s past the call's clock at the wake-up |
| `WaitLoop.AttemptsBounded` | src/oidc/refresh.rs:40-45 | attempts keep the doubling back-off distance and all start before the deadline, under every store behaviour |
| `WaitLoop.AttemptsReached` | src/oidc/refresh.rs:40-45 | a store that always answers at once and never grants is asked exactly 84 times |
| `WaitLoop.AbandonedLeaseIsTaken` | src/oidc/refresh.rs:40-42 | if store calls answer within two seconds, a waiter facing a lease nobody gives back takes it, after it ended and before its own deadline |
| `WaitLoop.AbandonedLockIsTaken` | src/oidc/refresh.rs:40-42 | in any state of a run: a call that begins to wait on a live lock entry its owner never gives back asks before its own deadline and is granted the lease, by an execution after that entry ended |
| `Timing.EffectiveNowBounds` | src/oidc/refresh.rs:391-397 | the effective clock never runs ahead and lags by under two seconds plus the gap between the two readings |
| `Timing.EffectiveNowMonotone` | src/oidc/refresh.rs:391-397 | it never goes back |
| `Timing.SufficientlyValidExact` | src/oidc/refresh.rs:364-372 | saturation never makes a token look valid |
| `Timing.RefreshedValidExact` | src/oidc/refresh.rs:364-376 | when a refreshed token is judged valid: no lifetime, an overflowing one, or more than the skew left |
| `Timing.OverflowNeverExpires` | src/oidc/refresh.rs:374-376 | an overflowing lifetime makes the token valid for ever |
| `Timing.RemainingLifetime` | src/oidc/refresh.rs:321-323 | the clock arithmetic of one refresh and one judgement: at least 14.002 s left, less the judging call's gap; `Lifetime.JudgedTokenOutlasts` says it of runs |
| `Timing.RemainingLifetimeTight` | src/oidc/provider.rs:17 | the bound is reached |
| `SessionStore.LazyRefinesExact` | src/session.rs:258-432 | for every operation sequence whose operations are not overtaken by the end of a key, the purging map answers as if each key vanished at its deadline |
| `SessionStore.ChronologicalInOrder` | src/session.rs:258-432 | instants that do not run backwards are such a sequence |
| `SessionStore.OvertakenExactly` | src/session.rs:281-294 | an operation with an overtaken instant is answered differently if and only if a key it looks at ran out in between |
| `SessionStore.LateReaderDiffers` | src/session.rs:286-288 | three operations on which it is |
| `SessionStore.PurgeFirst` | src/session.rs:427-432 | purging before an operation changes neither its answer nor what is live after it |
| `SessionStore.TestSessionStore.RetainLive` | src/session.rs:427-432 | the purge in place keeps exactly the live keys |
| `SessionStore.TestSessionStore.Put` | src/session.rs:258-278 | the new state is the purged one with the session at its new deadline |
| `SessionStore.TestSessionStore.Get` | src/session.rs:281-294 | answers the live session and changes nothing live |
| `SessionStore.TestSessionStore.TryAcquireRefreshLock` | src/session.rs:297-327 | set if absent or expired, refusing a zero lease |
| `SessionStore.TestSessionStore.ReleaseRefreshLock` | src/session.rs:330-353 | compare and delete |
| `SessionStore.TestSessionStore.UpdateAfterRefresh` | src/session.rs:356-386 | owner first, then existence, then the three token fields only |
| `SessionStore.TestSessionStore.InvalidateForRefresh` | src/session.rs:388-414 | owner first, then existence, then removal |
| `RedisStore.DecodeEncode` | src/session.rs:463-582 | a stored session reads back as its normal form, or not at all without issuer or subject |
| `RedisStore.DecodeEncodeIdentity` | src/session.rs:463-582 | the round trip is the identity on exactly the canonical identified sessions |
| `RedisStore.WireForm` | src/session.rs:463-501 | the seven fields of the hash and the text in each |
| `RedisStore.DecodeExactly` | src/session.rs:514-582 | what is read from any hash at all: when it fails, when it finds nothing, and otherwise every field |
| `RedisStore.GetExactly` | src/session.rs:514-582 | a get fails if and only if there is a hash and it cannot be read |
| `RedisStore.DecodeUpdate` | src/session.rs:28-46 | an owned update reads back with new tokens in normal form and the old identity |
| `RedisStore.ExecuteAgrees` | src/session.rs:584-689 | each command and script answers as the specification does on the normal form |
| `RedisStore.RedisRefinesLazy` | src/session.rs:463-689 | over every operation sequence in the order of Redis's own clock, whose puts carry an issuer and a subject as the callback's do, Redis never errs and answers as the purging map does on normalised sessions |
| `RedisStore.PutGetAgreeExactly` | src/session.rs:546-555 | put and get agree with the map exactly for identified sessions |
| `Template.ParseTemplateExact` | src/proxy/policy.rs:565-625 | the parser accepts a text and yields a segment list if and only if that list is a template over exactly the constrained parameters and prints as the text |
| `Template.PrintAfterParse` | src/proxy/policy.rs:892-909 | every accepted text, `/` included, is printed back unchanged |
| `Template.RenderInjective` | src/proxy/policy.rs:892-909 | distinct templates print differently |
| `Template.ParsePathTemplate` | src/proxy/policy.rs:565-625 | the loop returns the specified segments or error |
| `Template.RenderTemplate` | src/proxy/policy.rs:892-909 | the loop returns the printed form |
| `Matching.MatchesPathExact` | src/proxy/policy.rs:770-774 | a path is one of a route's exactly when its parts are accepted one by one |
| `Matching.OverlapExact` | src/proxy/policy.rs:483-530 | the pairwise test is true exactly when some concrete path matches both templates |
| `Matching.OverlapSymmetric` | src/proxy/policy.rs:497-523 | the test does not depend on which route comes first |
| `Validation.ValidateExact` | src/proxy/policy.rs:401-453 | a route satisfies the full validity invariant if and only if validating the definition it stands for yields it |
| `Validation.ValidateSound` | src/proxy/policy.rs:401-453 | whatever validation returns satisfies the invariant |
| `Acceptance.ValidateAccepts` | src/proxy/policy.rs:401-453 | a definition validates if and only if its id, methods, templates, origin, query constraints and headers meet the listed conditions; the route then has the origin and the allowlists in lower case, whatever case they were written in |
| `Refusals.TemplateRefused` | src/proxy/policy.rs:565-625 | the parser returns an error if and only if that is the first fault of the template, part by part |
| `Refusals.DefinitionRefused` | src/proxy/policy.rs:401-453 | validation returns an error if and only if that is the first fault of the definition, in the order of the checks |
| `Validation.ValidateRoute` | src/proxy/policy.rs:401-453 | the checks in their order return the specified route or error |
| `Validation.ValidateHeadersExact` | src/proxy/policy.rs:659-686 | which allowlists are accepted, and the set they give |
| `Validation.ValidateHeaderAllowlist` | src/proxy/policy.rs:659-686 | the loop returns the specified set or error |
| `Validation.ValidateQueryConstraints` | src/proxy/policy.rs:648-658 | the loop returns the specified error or none |
| `Digest.CanonicalInjective` | src/proxy/policy.rs:817-882 | equal canonical texts mean equal versions and equal route maps, for any version string, fake lines included |
| `CanonicalText.CanonicalLines` | src/proxy/policy.rs:817-882 | the text that is hashed, line by line |
| `Digest.PolicyDigest` | src/proxy/policy.rs:817-882 | the writing loops produce the canonical text |
| `Snapshots.TryNew` | src/proxy/policy.rs:161-200 | the nested loops return the specified snapshot or error |
| `Snapshots.CompileExact` | src/proxy/policy.rs:161-200 | a list compiles if and only if the version is not blank, each definition validates and all are pairwise compatible; the snapshot holds exactly those routes |
| `Denials.CompileRefused` | src/proxy/policy.rs:161-193 | compiling returns an error if and only if the version is blank, or the first definition that cannot join those before it has that fault: its own, a repeated id, or the least route it is ambiguous with and their least shared method |
| `Snapshots.CompileIgnoresOrder` | src/proxy/policy.rs:161-200 | any permutation is accepted alike, with the same routes and the same digest preimage |
| `Snapshots.CompileValid` | src/proxy/policy.rs:161-200 | an accepted snapshot has keys equal to ids, valid routes, and no conflict |
| `Snapshots.ConflictExact` | src/proxy/policy.rs:178-187 | two routes conflict exactly when they share a method and a concrete path |
| `Snapshots.AtMostOneRoute` | src/proxy/policy.rs:178-187 | in a valid snapshot a method and a concrete path select at most one route |
| `Snapshots.PreimageIdentifiesSnapshot` | src/proxy/policy.rs:195-199 | equal preimages mean equal snapshots |
| `Resolution.ResolveExact` | src/proxy/policy.rs:216-252 | resolution succeeds on exactly the resolvable requests, with a target that is a function of the two parameter maps |
| `Acceptance.ResolvesExactly` | src/proxy/policy.rs:216-252 | a request resolves if and only if the route is there and allows the method, every path parameter is supplied once with five groups of 8, 4, 4, 4 and 12 hexadecimal digits and no other is, and every query parameter supplied is allowed, given once, and such a text or unreserved text of the allowed length |
| `Denials.RequestRefused` | src/proxy/policy.rs:216-252 | a request is refused with an error if and only if that is its first fault: route, method, path, query |
| `Alphabets.UuidExactly` | src/proxy/policy.rs:784-792 | a UUID is five groups of hexadecimal digits of either case, split at hyphens |
| `Alphabets.TokenExactly` | src/proxy/policy.rs:775-783 | a token is every non-empty unreserved text up to the limit |
| `Alphabets.TokenCharExactly` | src/proxy/policy.rs:797-816 | the characters of a header name, listed |
| `Alphabets.HostExactly` | src/proxy/policy.rs:550-564 | a host is at most 253 characters of labels of up to 63 letters, digits and inner hyphens, joined by dots |
| `Alphabets.RouteIdExactly` | src/proxy/policy.rs:454-464 | a route id is 1 to 128 of the listed characters |
| `Alphabets.ParameterNameExactly` | src/proxy/policy.rs:633-646 | a parameter name is 1 to 64 of the listed characters, the first no digit |
| `Alphabets.HeaderNameExactly` | src/proxy/policy.rs:666-672 | a header name is 1 to 128 token characters |
| `Alphabets.WhitespaceExactly` | src/proxy/policy.rs:166-168 | the 25 characters that make a version blank |
| `Alphabets.ControlExactly` | src/proxy/policy.rs:570-578 | the control characters no template may contain |
| `Alphabets.LowerCharExactly` | src/proxy/policy.rs:544-548 | lowering turns each capital into its small letter and leaves all else alone |
| `Alphabets.Utf8WidthExactly` | src/proxy/policy.rs:819-820 | the length of a version counts each character with the least bytes that UTF-8 can write it in |
| `Alphabets.ForbiddenHeaderExactly` | src/proxy/policy.rs:12-42 | which headers are never forwarded, either way or one way |
| `Resolution.ResolvePathExact` | src/proxy/policy.rs:706-742 | a path resolves exactly for a value of every parameter, no others, each matching |
| `Resolution.ResolveIgnoresOrder` | src/proxy/policy.rs:687-705 | a successful result does not depend on the order of the parameters |
| `Resolution.SnapshotConstrained` | src/proxy/policy.rs:730-733 | the lookup the source expects to succeed always does |
| `Resolution.CollectUniqueParameters` | src/proxy/policy.rs:687-705 | the loop returns the specified map or the first duplicate |
| `Resolution.ResolvePathText` | src/proxy/policy.rs:706-742 | the loop writes the specified path or returns the specified error |
| `Resolution.ResolveQueryText` | src/proxy/policy.rs:744-768 | the loop writes the specified query or returns the specified error |
| `Resolution.ResolveRoute` | src/proxy/policy.rs:216-252 | the steps in their order return the specified result |
| `Targets.TargetDecodes` | src/proxy/policy.rs:216-251 | cutting at the first `?`, then at `/`, `&` and `=`, gives back the segments, the path values and the sorted query |
| `Targets.TargetInjective` | src/proxy/policy.rs:216-251 | equal targets of one route come from equal parameters |
| `Targets.TargetDotFree` | src/proxy/policy.rs:706-742 | a resolved path is a fixed point of remove_dot_segments (section 5.2.4 of RFC 3986) |
| `DotSegments.RemovesByWalking` | src/proxy/policy.rs:706-742 | remove_dot_segments writes out where a walk along the parts of an absolute path ends, so a fixed point is a path without dots |
| `Targets.BrowserPathResolves` | src/proxy/policy.rs:417-428 | every concrete browser path a route matches gives bindings on which resolution succeeds for every allowed method |
| `Targets.UpstreamInjective` | src/proxy/policy.rs:417-428 | distinct browser paths of one route reach distinct upstream paths |
| `Registry.ResourceRoutePolicyRegistry.Resolve` | src/proxy/policy.rs:273-282 | answers exactly as the active snapshot resolves, errors included |
| `Registry.ResourceRoutePolicyRegistry.ActivateCandidate` | src/proxy/policy.rs:283-299 | replaces the active snapshot by the compiled candidate, or changes nothing and returns the compiler's error |
| `Registry.AnswersComeFromOneSnapshot` | src/proxy/policy.rs:266-299 | in every interleaving an answer is that of one valid snapshot that was active during the call |
| `Registry.AnswersNeverStick` | src/proxy/policy.rs:730-733 | in every reachable state a resolving call can answer: no route lacks a constraint the source expects |
| `Registry.ActivationTakesEffect` | src/proxy/policy.rs:283-299 | a candidate that compiles, and no other, gets to the swap; after it the candidate is active and answers the next resolution |
| `Registry.OnlySwapsActivate` | src/proxy/policy.rs:289-299 | nothing but the swap of an approved candidate changes what is active |
| `PendingLogins.OidcState.Login` | src/oidc/handlers.rs:110-141 | purge, count and insert in place: admitted exactly when fewer than 8 logins of the client and fewer than 128 in all are under 300 s old; the bounds are kept |
| `PendingLogins.OidcState.TakeBoundTransaction` | src/oidc/transaction.rs:77-106 | removes the live transaction with the matching hash; a miss or mismatch consumes nothing |
| `PendingLogins.OidcState.Callback` | src/oidc/handlers.rs:155-316 | a session is stored exactly when the request consumes its transaction, the provider vouches for it with that transaction's verifier and nonce and the write reaches the store, even if the reply is lost; which failure has status 400, 401, 502 or 503, by what the provider and the store answered; malformed responses leave the map alone |
| `PendingLogins.Provide` | src/oidc/handlers.rs:197-296 | the provider gates yield a session exactly when every answer is good, built from those answers; 502 exactly when the exchange fails or user info is unreachable, 401 exactly when there is no ID token or the claims do not match, besides the statuses that a metadata request or the ID-token check passes on |
| `PendingLogins.RefusesExactly` | src/oidc/handlers.rs:197-296 | some gate refuses if and only if the provider vouches for no session |
| `PendingLogins.StatusExact` | src/oidc/handlers.rs:197-296 | which refusal has which status, by the provider's answers |
| `PendingLogins.AdmittedBounded` | src/oidc/handlers.rs:116-129 | an admission keeps at most 128 entries and at most 8 of each client, even for a reused key |
| `LoginRuns.AlwaysBounded` | src/oidc/transaction.rs:17-20 | the bounds hold in every reachable state |
| `LoginRuns.ExactlyOne` | src/oidc/transaction.rs:86-106 | each started login is exactly one of pending, consumed and expired |
| `LoginRuns.ConsumedOnce` | src/oidc/transaction.rs:88-106 | consumed at most once, only with the matching hash and under 300 s of age |
| `LoginRuns.FinalStates` | src/oidc/transaction.rs:77-106 | consumption and expiry are final |
| `LoginRuns.SessionsAreVouchedFor` | src/oidc/handlers.rs:171-307 | over runs: every stored session is what the provider vouched for with the verifier and nonce of a login started here and consumed by the browser that showed its binding, in time |
| `LoginRuns.LoginEndsInSession` | src/oidc/handlers.rs:110-307 | from any state with room: a login, its callback within 300 s and a provider that vouches end in the vouched session, and the callback sent again consumes nothing |
| `LoginRuns.VouchedReadsBack` | src/oidc/handlers.rs:281-296 | a session the provider vouches for, unless it sends empty texts or an expiry of zero, comes back from Redis as it was stored |
| `LoginRuns.SessionsFromLogins` | src/oidc/handlers.rs:171-307 | sessions never outnumber consumed transactions, nor these the logins started |

## Left out

- SHA-256 and its hexadecimal form: a snapshot's digest is modelled by the text that is hashed, a browser binding by its hash.
- HTTP, the OIDC client, provider discovery and its cache, key sets and signature checks: their answers are arbitrary inputs.
- Cookies, response headers, routing, rate limiting, health checks and configuration parsing: no deep property.
- Poisoned locks: `PolicyRegistryUnavailable` and the internal server errors that stand for them do not occur.
- The wall clock: it advances with the monotonic one, after an arbitrary gap between the two readings of a call; `resolve_access_token` without a wall clock fails at once and is not modelled.
- Sub-millisecond time, and the instants within one critical section: a section has a single instant.
- `Lease`: back-off lengths are arbitrary there; `WaitLoop` has them exactly.
- `Lease`: a session id is put once and owner ids are fresh, as 32 random bytes make them; the put session has an issuer and a subject.
- `WaitLoop.AbandonedLeaseIsTaken`: a late wake-up of more than half a second is excluded, because four and a half seconds of a round are already used by the store and the back-off.
- `OwnedRefresh.RunOwnedRefresh`: no other call acts on the store during the turn; interference is the subject of `Lease` and of the modules built on it. Cancellation at the deadline appears as a failed or unanswered call, which is the same for store and caller (`TurnSteps.CutIsFailure`).
- `OwnedRefresh.TurnEffect`: the same, up to the later instant it speaks of.
- `OwnedRefresh.ReadyExact`: the same; over interleaved runs see `LeaseSafety.ReadyIsSerial`.
- `OwnedRefresh.LateTurn`: the same; over interleaved runs see `LeaseSafety.LostForGood`.
- `Rotation.RotationAgreement`: an endpoint that issues an empty refresh token is excluded, because the store reads it back as none; so is one whose replacement is a token that an unanswered exchange has presented before.
- `LostExchange.BrokenForGood`: the same endpoint, whose replacements are new.
- `WaitLoop.AbandonedLockIsTaken`: the polling is that of `WaitLoop`; the steps of `Lease` leave back-off lengths open, and the store's answers during the wait are tied to the lock entry alone.
- `RedisStore.Decode`: numbers are decimal digits, without the leading plus sign the client library's parser also takes.
- String lengths in bytes: limits on text that must be ASCII count characters; the version, which may be anything, is measured in UTF-8.
