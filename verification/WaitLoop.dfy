/** The wait loop of one call, against an arbitrary store. */
module WaitLoop {
  import opened Prelude
  import opened Timing
  import opened SessionStore
  import Lease
  import LeaseInvariant

  /** What the store and the scheduler do in one round: answers, and how long each call and wake-up takes. */
  datatype Round = Round(
    acquired: Result<bool, ()>, acquireTakes: nat, oversleep: nat,
    read: Result<Option<Session>, ()>, readTakes: nat)

  /** Rounds by number and by the instant they start. */
  type Environment = (nat, nat) -> Round

  /** The call that waits: its base second, the instant of its monotonic origin, and of the wait's start. */
  datatype Call = Call(baseNow: U64, startedAt: nat, waitStart: nat) {
    predicate Valid() {
      startedAt <= waitStart
    }

    function Deadline(): nat {
      waitStart + REFRESH_WAIT_TIMEOUT
    }
  }

  datatype Ending = Owner(attemptAt: nat) | Finished(result: Lease.Outcome)

  function Min(a: nat, b: nat): nat {
    if a <= b then a else b
  }

  function NextDelay(delay: nat): nat {
    Min(delay + delay, REFRESH_WAIT_MAX_DELAY)
  }

  /** What a waiter makes of the session it re-reads at `at`; nothing when it should go on. */
  function Verdict(c: Call, at: nat, read: Result<Option<Session>, ()>): Option<Lease.Outcome>
    requires c.startedAt <= at
  {
    match read
    case Err(_) => Some(Lease.TemporarilyUnavailable)
    case Ok(None) => Some(Lease.ReauthenticationRequired)
    case Ok(Some(x)) =>
      if SufficientlyValid(x.accessTokenExpiresAt, EffectiveNowFromElapsed(c.baseNow, at - c.startedAt))
      then Some(Lease.Ready(x.accessToken))
      else if x.refreshToken.None? then Some(Lease.ReauthenticationRequired)
      else None
  }

  /** The instant after the sleep and the read of a round that began at `at` and was refused the lease. */
  function NextInstant(c: Call, round: Round, at: nat, delay: nat): nat
    requires at + round.acquireTakes < c.Deadline()
  {
    var asked := at + round.acquireTakes;
    asked + Min(delay, c.Deadline() - asked) + round.oversleep + round.readTakes
  }

  /** How a round that began at `at` ends the call, if it does. */
  function RoundEnds(c: Call, round: Round, at: nat, delay: nat): Option<Ending>
    requires c.startedAt <= at
  {
    if round.acquired.Err? then Some(Finished(Lease.TemporarilyUnavailable))
    else if round.acquired.value then Some(Owner(at))
    else if at + round.acquireTakes >= c.Deadline() then Some(Finished(Lease.TemporarilyUnavailable))
    else
      var verdict := Verdict(c, NextInstant(c, round, at, delay), round.read);
      if verdict.Some? then Some(Finished(verdict.value)) else None
  }

  /** The loop from round `k` at instant `at`: how it ends, and when it asked for the lease. */
  function Waits(c: Call, env: Environment, k: nat, at: nat, delay: nat): (Ending, seq<nat>)
    requires c.startedAt <= at && delay > 0
    decreases if at < c.Deadline() then c.Deadline() - at else 0
  {
    if at >= c.Deadline() then (Finished(Lease.TemporarilyUnavailable), [])
    else
      var end := RoundEnds(c, env(k, at), at, delay);
      if end.Some? then (end.value, [at])
      else
        var (ending, attempts) := Waits(c, env, k + 1, NextInstant(c, env(k, at), at, delay), NextDelay(delay));
        (ending, [at] + attempts)
  }

  /** The round leaves the call waiting. */
  predicate GoesOn(c: Call, round: Round, at: nat, delay: nat)
    requires c.startedAt <= at
  {
    at < c.Deadline() && RoundEnds(c, round, at, delay).None?
  }

  lemma WaitsUnfold(c: Call, env: Environment, k: nat, at: nat, delay: nat)
    requires c.startedAt <= at && delay > 0
    ensures var attempts := Waits(c, env, k, at, delay).1;
            if GoesOn(c, env(k, at), at, delay) then
              var next := NextInstant(c, env(k, at), at, delay);
              && next >= Min(at + delay, c.Deadline()) && NextDelay(delay) > 0
              && Waits(c, env, k, at, delay).0 == Waits(c, env, k + 1, next, NextDelay(delay)).0
              && attempts == [at] + Waits(c, env, k + 1, next, NextDelay(delay)).1
            else
              attempts == (if at < c.Deadline() then [at] else [])
  {
  }

  // ---- what an ending means --------------------------------------------------------------------

  /** The instant at which a call that was refused the lease in a round has slept and read the session again. */
  function ReadAt(c: Call, round: Round, at: nat, delay: nat): nat {
    var asked := at + round.acquireTakes;
    asked + (if asked + delay <= c.waitStart + 40_000 then delay
             else if asked <= c.waitStart + 40_000 then c.waitStart + 40_000 - asked else 0)
    + round.oversleep + round.readTakes
  }

  /** The record is no good any more at `seen`, by the call's clock in whole seconds. */
  predicate Expiring(c: Call, x: Session, seen: nat) {
    x.accessTokenExpiresAt.Some? && seen >= c.startedAt
    && x.accessTokenExpiresAt.value <= c.baseNow + (seen - c.startedAt) / 1000 + 30
  }

  /** The lease is refused before the deadline. */
  predicate RefusedInTime(c: Call, round: Round, at: nat) {
    round.acquired == Ok(false) && at + round.acquireTakes < c.waitStart + 40_000
  }

  /** A round of the call: the instant it starts, and the delay ahead. */
  datatype Turn = Turn(at: nat, delay: nat)

  /** Refused in time, and what it reads is expiring but has a refresh token: the next round starts there. */
  ghost predicate LeadsTo(c: Call, round: Round, turn: Turn, next: Turn) {
    var seen := ReadAt(c, round, turn.at, turn.delay);
    && turn.at < c.waitStart + 40_000 && RefusedInTime(c, round, turn.at)
    && round.read.Ok? && round.read.value.Some?
    && Expiring(c, round.read.value.value, seen) && round.read.value.value.refreshToken.Some?
    && next.at == seen && next.delay == (if turn.delay + turn.delay <= 500 then turn.delay + turn.delay else 500)
  }

  /** The rounds a call goes through, from the first, which starts with its wait and 25 ms of delay ahead. */
  ghost predicate Goes(c: Call, env: Environment, turns: seq<Turn>) {
    && turns != [] && turns[0] == Turn(c.waitStart, 25)
    && forall i | 0 < i < |turns| :: LeadsTo(c, env(i - 1, turns[i - 1].at), turns[i - 1], turns[i])
  }

  /**
   * How a call that came to this round may end there: with the lease; with the token of a record that is good
   * when it is read; asking for a new login over no record or an expiring one without a refresh token; or
   * closed, by a store error or the deadline.
   */
  ghost predicate EndsHere(c: Call, round: Round, at: nat, delay: nat, ending: Ending) {
    var seen := ReadAt(c, round, at, delay);
    match ending
    case Owner(attemptAt) => attemptAt == at < c.waitStart + 40_000 && round.acquired == Ok(true)
    case Finished(Ready(token)) =>
      && at < c.waitStart + 40_000 && RefusedInTime(c, round, at)
      && exists x :: round.read == Ok(Some(x)) && !Expiring(c, x, seen) && x.accessToken == token
    case Finished(ReauthenticationRequired) =>
      && at < c.waitStart + 40_000 && RefusedInTime(c, round, at)
      && (round.read == Ok(None)
          || exists x :: round.read == Ok(Some(x)) && Expiring(c, x, seen) && x.refreshToken.None?)
    case Finished(TemporarilyUnavailable) =>
      || at >= c.waitStart + 40_000
      || round.acquired.Err?
      || (round.acquired == Ok(false) && at + round.acquireTakes >= c.waitStart + 40_000)
      || (RefusedInTime(c, round, at) && round.read.Err?)
  }

  ghost predicate EndsAt(c: Call, env: Environment, turns: seq<Turn>, ending: Ending) {
    turns != [] &&
    var last := turns[|turns| - 1];
    EndsHere(c, env(|turns| - 1, last.at), last.at, last.delay, ending)
  }

  lemma ReadAtIsNext(c: Call, round: Round, at: nat, delay: nat)
    requires at + round.acquireTakes < c.Deadline()
    ensures ReadAt(c, round, at, delay) == NextInstant(c, round, at, delay)
  {
  }

  lemma ExpiringExactly(c: Call, x: Session, seen: nat)
    requires c.startedAt <= seen
    ensures Expiring(c, x, seen) <==>
            !SufficientlyValid(x.accessTokenExpiresAt, EffectiveNowFromElapsed(c.baseNow, seen - c.startedAt))
  {
  }

  lemma RoundMeans(c: Call, round: Round, at: nat, delay: nat)
    requires c.startedAt <= at
    ensures at >= c.Deadline() ==> EndsHere(c, round, at, delay, Finished(Lease.TemporarilyUnavailable))
    ensures at < c.Deadline() && RoundEnds(c, round, at, delay).Some? ==>
              EndsHere(c, round, at, delay, RoundEnds(c, round, at, delay).value)
    ensures at < c.Deadline() && RoundEnds(c, round, at, delay).None? ==>
              && RefusedInTime(c, round, at) && round.read.Ok? && round.read.value.Some?
              && Expiring(c, round.read.value.value, ReadAt(c, round, at, delay))
              && round.read.value.value.refreshToken.Some?
  {
    if at + round.acquireTakes < c.Deadline() {
      ReadAtIsNext(c, round, at, delay);
      var seen := NextInstant(c, round, at, delay);
      if round.read.Ok? && round.read.value.Some? {
        ExpiringExactly(c, round.read.value.value, seen);
      }
    }
  }

  lemma GoesFurther(c: Call, env: Environment, turns: seq<Turn>, next: Turn)
    requires Goes(c, env, turns)
    requires LeadsTo(c, env(|turns| - 1, turns[|turns| - 1].at), turns[|turns| - 1], next)
    ensures Goes(c, env, turns + [next])
  {
  }

  lemma RoundLeads(c: Call, round: Round, turn: Turn)
    requires c.startedAt <= turn.at && GoesOn(c, round, turn.at, turn.delay)
    ensures LeadsTo(c, round, turn, Turn(NextInstant(c, round, turn.at, turn.delay), NextDelay(turn.delay)))
  {
    RoundMeans(c, round, turn.at, turn.delay);
    ReadAtIsNext(c, round, turn.at, turn.delay);
  }

  lemma {:induction false} EndingFrom(c: Call, env: Environment, before: seq<Turn>) returns (turns: seq<Turn>)
    requires c.Valid() && Goes(c, env, before)
    requires var turn := before[|before| - 1]; c.startedAt <= turn.at && turn.delay > 0
    ensures Goes(c, env, turns)
    ensures var turn, last := before[|before| - 1], turns[|turns| - 1];
            EndsHere(c, env(|turns| - 1, last.at), last.at, last.delay,
                     Waits(c, env, |before| - 1, turn.at, turn.delay).0)
    decreases if before[|before| - 1].at < c.Deadline() then c.Deadline() - before[|before| - 1].at else 0
  {
    var k, turn := |before| - 1, before[|before| - 1];
    WaitsUnfold(c, env, k, turn.at, turn.delay);
    if GoesOn(c, env(k, turn.at), turn.at, turn.delay) {
      var next := Turn(NextInstant(c, env(k, turn.at), turn.at, turn.delay), NextDelay(turn.delay));
      RoundLeads(c, env(k, turn.at), turn);
      GoesFurther(c, env, before, next);
      turns := EndingFrom(c, env, before + [next]);
    } else {
      RoundMeans(c, env(k, turn.at), turn.at, turn.delay);
      turns := before;
    }
  }

  /** What the loop answers, from the rounds alone: it goes through some, and ends as the last of them says. */
  lemma EndingMeans(c: Call, env: Environment) returns (turns: seq<Turn>)
    requires c.Valid()
    ensures Goes(c, env, turns)
    ensures EndsAt(c, env, turns, Waits(c, env, 0, c.waitStart, REFRESH_WAIT_INITIAL_DELAY).0)
  {
    turns := EndingFrom(c, env, [Turn(c.waitStart, REFRESH_WAIT_INITIAL_DELAY)]);
  }

  // ---- how often it asks -----------------------------------------------------------------------

  /** The delay after attempt `k`: 25, 50, 100, 200, 400, 500, 500, ... */
  function DelayAt(k: nat): nat {
    if k == 0 then REFRESH_WAIT_INITIAL_DELAY else NextDelay(DelayAt(k - 1))
  }

  /** The least time from the wait's start to attempt `k`. */
  function Backoff(k: nat): nat {
    if k == 0 then 0 else Backoff(k - 1) + DelayAt(k - 1)
  }

  lemma {:induction false} BackoffClosed(k: nat)
    ensures 0 < DelayAt(k) <= REFRESH_WAIT_MAX_DELAY
    ensures k >= 5 ==> DelayAt(k) == REFRESH_WAIT_MAX_DELAY && Backoff(k) == 775 + 500 * (k - 5)
  {
    if k == 5 {
      assert DelayAt(1) == 50 && DelayAt(2) == 100 && DelayAt(3) == 200 && DelayAt(4) == 400;
      assert Backoff(1) == 25 && Backoff(2) == 75 && Backoff(3) == 175 && Backoff(4) == 375;
    }
    if k > 0 {
      BackoffClosed(k - 1);
    }
  }

  const MAX_ATTEMPTS := 84

  ghost predicate Spaced(c: Call, k: nat, attempts: seq<nat>) {
    forall i | 0 <= i < |attempts| :: c.waitStart + Backoff(k + i) <= attempts[i] < c.Deadline()
  }

  lemma SpacedCons(c: Call, k: nat, at: nat, rest: seq<nat>)
    requires c.waitStart + Backoff(k) <= at < c.Deadline() && Spaced(c, k + 1, rest)
    ensures Spaced(c, k, [at] + rest)
  {
    forall i | 0 < i < |rest| + 1 ensures c.waitStart + Backoff(k + i) <= ([at] + rest)[i] < c.Deadline() {
      assert ([at] + rest)[i] == rest[i - 1] && k + i == k + 1 + (i - 1);
    }
  }

  lemma {:induction false} AttemptsFrom(c: Call, env: Environment, k: nat, at: nat)
    requires c.Valid() && (c.waitStart + Backoff(k) <= at || c.Deadline() <= at) && c.startedAt <= at
    requires DelayAt(k) > 0
    ensures var attempts := Waits(c, env, k, at, DelayAt(k)).1;
            |attempts| <= (if k < MAX_ATTEMPTS then MAX_ATTEMPTS - k else 0) && Spaced(c, k, attempts)
    decreases if at < c.Deadline() then c.Deadline() - at else 0
  {
    BackoffClosed(k);
    WaitsUnfold(c, env, k, at, DelayAt(k));
    if GoesOn(c, env(k, at), at, DelayAt(k)) {
      var next := NextInstant(c, env(k, at), at, DelayAt(k));
      BackoffClosed(k + 1);
      AttemptsFrom(c, env, k + 1, next);
      SpacedCons(c, k, at, Waits(c, env, k + 1, next, DelayAt(k + 1)).1);
    }
  }

  /** Under every store behaviour the loop ends, after at most 84 attempts, none at or past the deadline. */
  lemma AttemptsBounded(c: Call, env: Environment)
    requires c.Valid()
    ensures var attempts := Waits(c, env, 0, c.waitStart, REFRESH_WAIT_INITIAL_DELAY).1;
            && |attempts| <= 84
            && forall i | 0 <= i < |attempts| :: c.waitStart + Backoff(i) <= attempts[i] < c.Deadline()
  {
    assert DelayAt(0) == REFRESH_WAIT_INITIAL_DELAY && Backoff(0) == 0;
    AttemptsFrom(c, env, 0, c.waitStart);
    var attempts := Waits(c, env, 0, c.waitStart, REFRESH_WAIT_INITIAL_DELAY).1;
    forall i | 0 <= i < |attempts| ensures c.waitStart + Backoff(i) <= attempts[i] < c.Deadline() {
      assert 0 + i == i;
    }
  }

  // ---- the bound is reached ------------------------------------------------------------------------

  /** A store that answers at once, keeps the lease taken, and shows an expired token with a refresh token. */
  ghost predicate Busy(env: Environment) {
    forall k, at :: env(k, at) ==
      Round(Ok(false), 0, 0, Ok(Some(Session("", Some("r"), Some(0), Identity("i", "s", None, None)))), 0)
  }

  lemma BusyRound(c: Call, env: Environment, k: nat, at: nat, delay: nat)
    requires c.startedAt <= at < c.Deadline() && Busy(env)
    ensures GoesOn(c, env(k, at), at, delay)
    ensures NextInstant(c, env(k, at), at, delay) == Min(at + delay, c.Deadline())
  {
  }

  lemma {:induction false} BusyFrom(c: Call, env: Environment, k: nat, at: nat)
    requires c.Valid() && Busy(env) && k <= MAX_ATTEMPTS && DelayAt(k) > 0
    requires at == Min(c.waitStart + Backoff(k), c.Deadline())
    ensures |Waits(c, env, k, at, DelayAt(k)).1| == MAX_ATTEMPTS - k
    decreases MAX_ATTEMPTS - k
  {
    WaitsUnfold(c, env, k, at, DelayAt(k));
    BackoffClosed(k);
    if k < MAX_ATTEMPTS {
      BeforeLast(k);
      BackoffClosed(k + 1);
      BusyRound(c, env, k, at, DelayAt(k));
      assert Backoff(k + 1) == Backoff(k) + DelayAt(k) && DelayAt(k + 1) == NextDelay(DelayAt(k));
      BusyFrom(c, env, k + 1, NextInstant(c, env(k, at), at, DelayAt(k)));
    }
  }

  lemma BeforeLast(k: nat)
    requires k < MAX_ATTEMPTS
    ensures Backoff(k) < REFRESH_WAIT_TIMEOUT
  {
    BackoffClosed(MAX_ATTEMPTS - 1);
    BackoffMonotone(k, MAX_ATTEMPTS - 1);
  }

  lemma {:induction false} BackoffMonotone(k: nat, m: nat)
    requires k <= m
    ensures Backoff(k) <= Backoff(m)
  {
    if k < m {
      BackoffMonotone(k, m - 1);
    }
  }

  /** And 84 attempts do happen. */
  lemma AttemptsReached(c: Call, env: Environment)
    requires c.Valid() && Busy(env)
    ensures |Waits(c, env, 0, c.waitStart, REFRESH_WAIT_INITIAL_DELAY).1| == 84
  {
    assert DelayAt(0) == REFRESH_WAIT_INITIAL_DELAY && Backoff(0) == 0;
    BusyFrom(c, env, 0, c.waitStart);
  }

  // ---- an abandoned lease -----------------------------------------------------------------------------

  /** Every answer comes within the response timeout, and no wake-up is late by more than half a second. */
  ghost predicate Prompt(env: Environment) {
    forall k, at ::
      && env(k, at).acquireTakes <= 2_000
      && env(k, at).readTakes <= 2_000
      && env(k, at).oversleep <= 500
  }

  /** A lease that ends at `leaseEnd`, is not released or retaken, over a session that keeps needing a refresh. */
  ghost predicate Abandoned(c: Call, env: Environment, leaseEnd: nat) {
    && (forall k: nat, at: nat :: env(k, at).acquired.Ok? && (at >= leaseEnd ==> env(k, at).acquired.value))
    && (forall k: nat, at: nat, seen: nat | c.startedAt <= seen :: Verdict(c, seen, env(k, at).read).None?)
  }

  lemma {:induction false} AbandonedFrom(c: Call, env: Environment, leaseEnd: nat, k: nat, at: nat, delay: nat)
    requires c.Valid() && Prompt(env) && Abandoned(c, env, leaseEnd)
    requires leaseEnd <= c.waitStart + REFRESH_LOCK_LEASE && 0 < delay <= REFRESH_WAIT_MAX_DELAY
    requires c.waitStart <= at < leaseEnd + REFRESH_WAIT_MARGIN
    ensures var ending := Waits(c, env, k, at, delay).0;
            ending.Owner? && at <= ending.attemptAt < leaseEnd + REFRESH_WAIT_MARGIN
    decreases if at < leaseEnd then leaseEnd - at else 0
  {
    var round := env(k, at);
    WaitsUnfold(c, env, k, at, delay);
    if !round.acquired.value {
      var next := NextInstant(c, round, at, delay);
      assert next <= at + 5000;
      AbandonedFrom(c, env, leaseEnd, k + 1, next, NextDelay(delay));
    }
  }

  /**
   * A waiter facing a lease nobody gives back gets it, by an attempt before its own deadline; and after the
   * lease ended, if requests made before were refused.
   */
  lemma AbandonedLeaseIsTaken(c: Call, env: Environment, leaseEnd: nat)
    requires c.Valid() && Prompt(env) && Abandoned(c, env, leaseEnd)
    requires c.waitStart < leaseEnd <= c.waitStart + REFRESH_LOCK_LEASE
    ensures var ending := Waits(c, env, 0, c.waitStart, REFRESH_WAIT_INITIAL_DELAY).0;
            && ending.Owner? && ending.attemptAt < c.Deadline()
            && (RefusedBefore(env, leaseEnd) ==> leaseEnd <= ending.attemptAt)
  {
    AbandonedFrom(c, env, leaseEnd, 0, c.waitStart, REFRESH_WAIT_INITIAL_DELAY);
    OwnerWasGranted(c, env, 0, c.waitStart, REFRESH_WAIT_INITIAL_DELAY);
  }

  ghost predicate RefusedBefore(env: Environment, leaseEnd: nat) {
    forall k: nat, at: nat | at < leaseEnd :: env(k, at).acquired == Ok(false)
  }

  /** An owner is one to whom some round granted the lease, at the instant it reports. */
  lemma {:induction false} OwnerWasGranted(c: Call, env: Environment, k: nat, at: nat, delay: nat)
    requires c.startedAt <= at && delay > 0 && Waits(c, env, k, at, delay).0.Owner?
    ensures exists m: nat :: env(m, Waits(c, env, k, at, delay).0.attemptAt).acquired == Ok(true)
    decreases if at < c.Deadline() then c.Deadline() - at else 0
  {
    WaitsUnfold(c, env, k, at, delay);
    if GoesOn(c, env(k, at), at, delay) {
      OwnerWasGranted(c, env, k + 1, NextInstant(c, env(k, at), at, delay), NextDelay(delay));
    } else {
      assert env(k, at).acquired == Ok(true);
    }
  }

  /**
   * The store executes each attempt at some instant while its caller waits, and nobody else touches the lock.
   */
  ghost predicate AnswersFrom(env: Environment, st: Store, sid: string, owner: string) {
    forall k, at :: ExecutedIn(env(k, at), st, at, sid, owner)
  }

  ghost predicate ExecutedIn(round: Round, st: Store, at: nat, sid: string, owner: string) {
    exists ran: nat ::
      at <= ran <= at + round.acquireTakes
      && round.acquired == TryAcquire(st, ran, sid, owner, REFRESH_LOCK_LEASE).1
  }

  lemma LockEndsInTime(states: seq<Lease.State>, steps: seq<Lease.Step>, i: nat, sid: string)
    requires Lease.Run(states, steps) && i < |states| && sid in states[i].store.locks
    ensures states[i].store.locks[sid].expiresAt <= states[i].now + REFRESH_LOCK_LEASE
  {
    LeaseInvariant.RunInv(states, steps, i);
    var s := states[i];
    assert LeaseInvariant.LockOk(s, sid) && LeaseInvariant.ResolverOk(s, s.store.locks[sid].owner);
  }

  /** The attempt that began at `at` was executed, and granted the lease, once the lock had ended. */
  ghost predicate GrantedAfter(env: Environment, st: Store, at: nat, sid: string, owner: string, end: nat) {
    exists k: nat, ran: nat ::
      && at <= ran <= at + env(k, at).acquireTakes && end <= ran
      && env(k, at).acquired == Ok(true) == TryAcquire(st, ran, sid, owner, REFRESH_LOCK_LEASE).1
  }

  lemma AbandonedAnswers(c: Call, env: Environment, st: Store, sid: string, owner: string)
    requires sid in st.locks && AnswersFrom(env, st, sid, owner)
    requires forall k: nat, at: nat, seen: nat | c.startedAt <= seen :: Verdict(c, seen, env(k, at).read).None?
    ensures Abandoned(c, env, st.locks[sid].expiresAt)
    ensures forall k: nat, at: nat :: env(k, at).acquired == Ok(true) ==>
              GrantedAfter(env, st, at, sid, owner, st.locks[sid].expiresAt)
  {
    forall k: nat, at: nat
      ensures env(k, at).acquired.Ok?
      ensures at >= st.locks[sid].expiresAt ==> env(k, at).acquired.value
      ensures env(k, at).acquired == Ok(true) ==> GrantedAfter(env, st, at, sid, owner, st.locks[sid].expiresAt)
    {
      assert ExecutedIn(env(k, at), st, at, sid, owner);
    }
  }

  /**
   * In any state of a run: a call that begins to wait on a live lock which its owner never gives back, over a
   * session that keeps needing a refresh, asks for the lease before its own deadline and is granted it, by an
   * execution that falls after the lock ended.
   */
  lemma AbandonedLockIsTaken(
      states: seq<Lease.State>, steps: seq<Lease.Step>, i: nat, sid: string, owner: string, c: Call, env: Environment)
    requires Lease.Run(states, steps) && i < |states| && Locked(states[i].store, states[i].now, sid)
    requires c.Valid() && c.waitStart == states[i].now
    requires Prompt(env) && AnswersFrom(env, states[i].store, sid, owner)
    requires forall k: nat, at: nat, seen: nat | c.startedAt <= seen :: Verdict(c, seen, env(k, at).read).None?
    ensures var ending, st := Waits(c, env, 0, c.waitStart, REFRESH_WAIT_INITIAL_DELAY).0, states[i].store;
            && ending.Owner? && ending.attemptAt < c.Deadline()
            && GrantedAfter(env, st, ending.attemptAt, sid, owner, st.locks[sid].expiresAt)
  {
    LockEndsInTime(states, steps, i, sid);
    AbandonedAnswers(c, env, states[i].store, sid, owner);
    AbandonedLeaseIsTaken(c, env, states[i].store.locks[sid].expiresAt);
    OwnerWasGranted(c, env, 0, c.waitStart, REFRESH_WAIT_INITIAL_DELAY);
  }

  // ---- the loop --------------------------------------------------------------------------------------

  /** What the loop still has to do completes `attempts` to the whole. */
  ghost predicate Tracks(
      c: Call, env: Environment, k: nat, at: nat, delay: nat, attempts: seq<nat>, whole: (Ending, seq<nat>))
    requires c.startedAt <= at && delay > 0
  {
    && whole.0 == Waits(c, env, k, at, delay).0
    && whole.1 == attempts + Waits(c, env, k, at, delay).1
    && (whole.0.Owner? ==> whole.0.attemptAt < c.Deadline())
  }

  lemma RoundTracks(
      c: Call, env: Environment, k: nat, at: nat, delay: nat, attempts: seq<nat>, whole: (Ending, seq<nat>))
    requires c.startedAt <= at && delay > 0 && Tracks(c, env, k, at, delay, attempts, whole)
    ensures if at >= c.Deadline() then whole == (Finished(Lease.TemporarilyUnavailable), attempts)
            else match RoundEnds(c, env(k, at), at, delay)
                 case Some(end) => whole == (end, attempts + [at])
                 case None =>
                   var next := NextInstant(c, env(k, at), at, delay);
                   && at < next && NextDelay(delay) > 0
                   && Tracks(c, env, k + 1, next, NextDelay(delay), attempts + [at], whole)
  {
    WaitsUnfold(c, env, k, at, delay);
    assert attempts + [] == attempts;
  }

  lemma StartTracks(c: Call, env: Environment, whole: (Ending, seq<nat>))
    requires c.Valid() && whole == Waits(c, env, 0, c.waitStart, REFRESH_WAIT_INITIAL_DELAY)
    ensures Tracks(c, env, 0, c.waitStart, REFRESH_WAIT_INITIAL_DELAY, [], whole)
    ensures |whole.1| <= MAX_ATTEMPTS
  {
    AttemptsBounded(c, env);
    OwnerInTime(c, env, 0, c.waitStart, REFRESH_WAIT_INITIAL_DELAY);
  }

  lemma {:induction false} OwnerInTime(c: Call, env: Environment, k: nat, at: nat, delay: nat)
    requires c.startedAt <= at && delay > 0
    ensures var ending := Waits(c, env, k, at, delay).0;
            ending.Owner? ==> ending.attemptAt < c.Deadline()
    decreases if at < c.Deadline() then c.Deadline() - at else 0
  {
    WaitsUnfold(c, env, k, at, delay);
    if GoesOn(c, env(k, at), at, delay) {
      OwnerInTime(c, env, k + 1, NextInstant(c, env(k, at), at, delay), NextDelay(delay));
    }
  }

  /** The loop as it runs; `attempts` lists when it asked for the lease. */
  method WaitForAccessToken(c: Call, env: Environment) returns (ending: Ending, attempts: seq<nat>)
    requires c.Valid()
    ensures (ending, attempts) == Waits(c, env, 0, c.waitStart, REFRESH_WAIT_INITIAL_DELAY)
    ensures |attempts| <= MAX_ATTEMPTS
    ensures ending.Owner? ==> ending.attemptAt < c.Deadline()
    ensures exists turns :: Goes(c, env, turns) && EndsAt(c, env, turns, ending)
  {
    ghost var turns := EndingMeans(c, env);
    assert EndsAt(c, env, turns, Waits(c, env, 0, c.waitStart, REFRESH_WAIT_INITIAL_DELAY).0);
    ghost var whole := Waits(c, env, 0, c.waitStart, REFRESH_WAIT_INITIAL_DELAY);
    StartTracks(c, env, whole);
    attempts := [];
    var k, instant, waitDelay := 0, c.waitStart, REFRESH_WAIT_INITIAL_DELAY;
    while true
      invariant c.startedAt <= instant && 0 < waitDelay
      invariant Tracks(c, env, k, instant, waitDelay, attempts, whole)
      decreases if instant < c.Deadline() then c.Deadline() - instant else 0
    {
      RoundTracks(c, env, k, instant, waitDelay, attempts, whole);
      if instant >= c.Deadline() {
        return Finished(Lease.TemporarilyUnavailable), attempts;
      }
      var round := env(k, instant);
      attempts := attempts + [instant];
      if round.acquired.Err? {
        return Finished(Lease.TemporarilyUnavailable), attempts;
      }
      if round.acquired.value {
        return Owner(instant), attempts;
      }
      var asked := instant + round.acquireTakes;
      if asked >= c.Deadline() {
        return Finished(Lease.TemporarilyUnavailable), attempts;
      }
      var woken := asked + Min(waitDelay, c.Deadline() - asked) + round.oversleep + round.readTakes;
      var verdict := Verdict(c, woken, round.read);
      if verdict.Some? {
        return Finished(verdict.value), attempts;
      }
      instant, k, waitDelay := woken, k + 1, Min(waitDelay + waitDelay, REFRESH_WAIT_MAX_DELAY);
    }
  }
}
