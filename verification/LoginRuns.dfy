/** Logins and callbacks of many browsers, interleaved: every run, one critical section a step. */
module LoginRuns {
  import opened Prelude
  import opened SessionStore
  import opened PendingLogins
  import RedisStore

  /** A callback that consumed a transaction; `session` once it stored one. */
  datatype Consumption = Consumption(
    key: string, presented: string, takenAt: nat, transaction: AuthorizationTransaction, code: Option<string>,
    session: Option<string>)

  /** A session in the store: the callback that put it there, and the provider's answers it was made from. */
  datatype Record = Record(maker: nat, session: Session, provider: Provider)

  /** `started`, `consumed` and `sessions` are history: they only grow. */
  datatype State = State(
    now: nat,
    pending: PendingMap,
    started: PendingMap,
    consumed: map<nat, Consumption>,
    sessions: map<string, Record>)

  datatype Step =
    | Tick(to: nat)
    | Login(key: string, transaction: AuthorizationTransaction)
    | Callback(id: nat, request: CallbackRequest)
    | Store(id: nat, sessionId: string, provider: Provider)

  /** What the provider's answers make of the callback's transaction and code. */
  ghost function Made(c: Consumption, p: Provider): (s: Option<Session>)
    ensures forall x :: s == Some(x) ==> c.code.Some? && Vouches(p, c.transaction, c.code.value, x)
  {
    if x :| c.code.Some? && Vouches(p, c.transaction, c.code.value, x) then Some(x) else None
  }

  /** State keys and session ids are fresh; the transaction is created inside the critical section. */
  ghost predicate Enabled(s: State, step: Step) {
    match step
    case Tick(to) => s.now <= to
    case Login(key, t) => key !in s.started && t.createdAt == s.now
    case Callback(id, _) => id !in s.consumed
    case Store(id, sid, _) => id in s.consumed && s.consumed[id].session.None? && sid !in s.sessions
  }

  ghost function Apply(s: State, step: Step): State
    requires Enabled(s, step)
  {
    match step
    case Tick(to) => s.(now := to)
    case Login(key, t) =>
      s.(pending := Admitted(s.pending, s.now, key, t),
         started := if HasRoom(s.pending, s.now, t.clientIp) then s.started[key := t] else s.started)
    case Callback(id, r) =>
      if !WellFormed(r) then s
      else
        var key, presented := r.state.value, r.presented.value;
        s.(pending := Taken(s.pending, s.now, key, presented),
           consumed := if Takes(s.pending, s.now, key, presented)
                       then s.consumed[id := Consumption(key, presented, s.now, s.pending[key], r.code, None)]
                       else s.consumed)
    case Store(id, sid, p) =>
      var made := Made(s.consumed[id], p);
      if made.None? then s
      else
        s.(sessions := s.sessions[sid := Record(id, made.value, p)],
           consumed := s.consumed[id := s.consumed[id].(session := Some(sid))])
  }

  ghost predicate Init(s: State) {
    s.pending == map[] && s.started == map[] && s.consumed == map[] && s.sessions == map[]
  }

  ghost predicate Run(states: seq<State>, steps: seq<Step>) {
    && |states| == |steps| + 1
    && Init(states[0])
    && forall i {:trigger steps[i]} | 0 <= i < |steps| ::
         Enabled(states[i], steps[i]) && states[i + 1] == Apply(states[i], steps[i])
  }

  // ---- the invariant --------------------------------------------------------------------------

  ghost predicate IsConsumed(s: State, key: string) {
    exists id :: id in s.consumed && s.consumed[id].key == key
  }

  ghost predicate KeyOk(s: State, key: string) {
    && (key in s.pending ==> key in s.started && s.pending[key] == s.started[key] && !IsConsumed(s, key))
    && (key in s.started ==>
          s.started[key].createdAt <= s.now
          && (Age(s.started[key], s.now) < LOGIN_TTL && !IsConsumed(s, key) ==> key in s.pending))
    && (IsConsumed(s, key) ==> key in s.started)
  }

  ghost predicate PendingOk(s: State) {
    Bounded(s.pending) && forall key :: KeyOk(s, key)
  }

  ghost predicate ConsumptionOk(s: State, c: Consumption) {
    && c.key in s.started && c.takenAt <= s.now
    && c.presented == s.started[c.key].browserBindingHash
    && c.transaction == s.started[c.key]
    && s.started[c.key].createdAt <= c.takenAt < s.started[c.key].createdAt + LOGIN_TTL
  }

  ghost predicate ConsumedOk(s: State) {
    && (forall id | id in s.consumed :: ConsumptionOk(s, s.consumed[id]))
    && (forall a, b | a in s.consumed && b in s.consumed :: s.consumed[a].key == s.consumed[b].key ==> a == b)
  }

  ghost predicate SessionsOk(s: State) {
    forall sid | sid in s.sessions ::
      && s.sessions[sid].maker in s.consumed
      && var c := s.consumed[s.sessions[sid].maker];
         && c.session == Some(sid) && c.code.Some?
         && Vouches(s.sessions[sid].provider, c.transaction, c.code.value, s.sessions[sid].session)
  }

  ghost predicate Inv(s: State) {
    PendingOk(s) && ConsumedOk(s) && SessionsOk(s)
  }

  lemma StepBounded(s: State, step: Step)
    requires Bounded(s.pending) && Enabled(s, step)
    ensures Bounded(Apply(s, step).pending)
  {
    match step {
      case Login(key, t) => AdmittedBounded(s.pending, s.now, key, t);
      case Callback(_, r) =>
        if WellFormed(r) { TakenBounded(s.pending, s.now, r.state.value, r.presented.value); }
      case _ =>
    }
  }

  /** What a callback newly consumes. */
  lemma ConsumedAfter(s: State, step: Step, key: string)
    requires Enabled(s, step)
    ensures IsConsumed(Apply(s, step), key) <==>
              IsConsumed(s, key)
              || (step.Callback? && Consumes(s.pending, s.now, step.request) && key == step.request.state.value)
  {
    var s' := Apply(s, step);
    if a :| a in s.consumed && s.consumed[a].key == key {
      assert a in s'.consumed && s'.consumed[a].key == key;
    }
    if step.Callback? && Consumes(s.pending, s.now, step.request) {
      assert step.id in s'.consumed && s'.consumed[step.id].key == step.request.state.value;
    }
    if b :| b in s'.consumed && s'.consumed[b].key == key {
      assert b in s.consumed ==> s.consumed[b].key == key;
    }
  }

  lemma StepKeepsKey(s: State, step: Step, key: string)
    requires KeyOk(s, key) && Enabled(s, step)
    ensures KeyOk(Apply(s, step), key)
  {
    ConsumedAfter(s, step, key);
  }

  lemma StepKeepsConsumption(s: State, step: Step, id: nat)
    requires Enabled(s, step) && id in Apply(s, step).consumed
    requires id in s.consumed ==> ConsumptionOk(s, s.consumed[id])
    requires forall key :: KeyOk(s, key)
    ensures ConsumptionOk(Apply(s, step), Apply(s, step).consumed[id])
  {
    if step.Callback? && id == step.id {
      assert KeyOk(s, step.request.state.value);
    }
  }

  lemma StepKeepsUnique(s: State, step: Step, a: nat, b: nat)
    requires Enabled(s, step) && forall key :: KeyOk(s, key)
    requires a in Apply(s, step).consumed && b in Apply(s, step).consumed
    requires Apply(s, step).consumed[a].key == Apply(s, step).consumed[b].key
    requires a in s.consumed && b in s.consumed && s.consumed[a].key == s.consumed[b].key ==> a == b
    ensures a == b
  {
    if step.Callback? && WellFormed(step.request) {
      assert KeyOk(s, step.request.state.value);
    }
  }

  lemma StepKeepsSessions(s: State, step: Step)
    requires SessionsOk(s) && Enabled(s, step)
    ensures SessionsOk(Apply(s, step))
  {
  }

  lemma StepKeepsInv(s: State, step: Step)
    requires Inv(s) && Enabled(s, step)
    ensures Inv(Apply(s, step))
  {
    var s' := Apply(s, step);
    StepBounded(s, step);
    forall key ensures KeyOk(s', key) {
      assert KeyOk(s, key);
      StepKeepsKey(s, step, key);
    }
    forall id | id in s'.consumed ensures ConsumptionOk(s', s'.consumed[id]) {
      StepKeepsConsumption(s, step, id);
    }
    forall a, b | a in s'.consumed && b in s'.consumed && s'.consumed[a].key == s'.consumed[b].key ensures a == b {
      StepKeepsUnique(s, step, a, b);
    }
    StepKeepsSessions(s, step);
  }

  lemma {:induction false} RunInv(states: seq<State>, steps: seq<Step>, i: nat)
    requires Run(states, steps) && i < |states|
    ensures Inv(states[i])
  {
    if i == 0 {
      assert forall ip :: OfClient(states[0].pending, ip) == {};
    } else {
      RunInv(states, steps, i - 1);
      StepKeepsInv(states[i - 1], steps[i - 1]);
    }
  }

  // ---- what holds in every run -----------------------------------------------------------------------

  /** At most 128 logins are under way, at most 8 of one client. */
  lemma AlwaysBounded(states: seq<State>, steps: seq<Step>, i: nat, ip: string)
    requires Run(states, steps) && i < |states|
    ensures |states[i].pending| <= 128
    ensures |OfClient(states[i].pending, ip)| <= 8
  {
    RunInv(states, steps, i);
  }

  ghost predicate IsPending(s: State, key: string) {
    key in s.pending && s.now < s.pending[key].createdAt + 300_000
  }

  ghost predicate IsExpired(s: State, key: string) {
    key in s.started && s.now >= s.started[key].createdAt + 300_000 && !IsConsumed(s, key)
  }

  /** Each started login is exactly one of pending, consumed and expired. */
  lemma ExactlyOne(states: seq<State>, steps: seq<Step>, i: nat, key: string)
    requires Run(states, steps) && i < |states| && key in states[i].started
    ensures var s := states[i];
            && (IsPending(s, key) || IsConsumed(s, key) || IsExpired(s, key))
            && !(IsPending(s, key) && IsConsumed(s, key))
            && !(IsPending(s, key) && IsExpired(s, key))
            && !(IsConsumed(s, key) && IsExpired(s, key))
  {
    RunInv(states, steps, i);
    assert KeyOk(states[i], key);
  }

  /** It is consumed at most once, by a browser that showed its binding, within five minutes of its start. */
  lemma ConsumedOnce(states: seq<State>, steps: seq<Step>, i: nat, a: nat, b: nat)
    requires Run(states, steps) && i < |states| && a in states[i].consumed && b in states[i].consumed
    ensures states[i].consumed[a].key == states[i].consumed[b].key ==> a == b
    ensures var s, c := states[i], states[i].consumed[a];
            && c.key in s.started && c.presented == s.started[c.key].browserBindingHash
            && s.started[c.key].createdAt <= c.takenAt < s.started[c.key].createdAt + 300_000
  {
    RunInv(states, steps, i);
    assert ConsumptionOk(states[i], states[i].consumed[a]);
  }

  /** Consumption and expiry are final, and a started login is never forgotten or replaced. */
  lemma {:induction false} FinalStates(states: seq<State>, steps: seq<Step>, i: nat, j: nat, key: string)
    requires Run(states, steps) && i <= j < |states| && key in states[i].started
    ensures key in states[j].started && states[j].started[key] == states[i].started[key]
    ensures states[i].now <= states[j].now
    ensures IsConsumed(states[i], key) ==> IsConsumed(states[j], key)
    ensures IsExpired(states[i], key) ==> IsExpired(states[j], key)
  {
    if i < j {
      FinalStates(states, steps, i, j - 1, key);
      RunInv(states, steps, j - 1);
      FinalStep(states[j - 1], steps[j - 1], key);
    }
  }

  lemma FinalStep(s: State, step: Step, key: string)
    requires Inv(s) && Enabled(s, step) && key in s.started
    ensures var s' := Apply(s, step);
            && key in s'.started && s'.started[key] == s.started[key] && s.now <= s'.now
            && (IsConsumed(s, key) ==> IsConsumed(s', key))
            && (IsExpired(s, key) ==> IsExpired(s', key))
  {
    ConsumedAfter(s, step, key);
    assert KeyOk(s, key);
  }

  /**
   * Every stored session is what the provider vouched for, with the verifier and the nonce of a login that was
   * started here, and consumed by the callback of the browser that showed its binding, in time.
   */
  lemma SessionsAreVouchedFor(states: seq<State>, steps: seq<Step>, i: nat, sid: string)
    requires Run(states, steps) && i < |states| && sid in states[i].sessions
    ensures states[i].sessions[sid].maker in states[i].consumed
    ensures var s, c := states[i], states[i].consumed[states[i].sessions[sid].maker];
            && c.key in s.started && c.code.Some?
            && Vouches(s.sessions[sid].provider, s.started[c.key], c.code.value, s.sessions[sid].session)
            && c.presented == s.started[c.key].browserBindingHash
            && c.takenAt < s.started[c.key].createdAt + 300_000
  {
    RunInv(states, steps, i);
    assert ConsumptionOk(states[i], states[i].consumed[states[i].sessions[sid].maker]);
  }

  /** An admitted login is there to be taken for five minutes, once. */
  lemma AdmittedIsTaken(s: State, key: string, t: AuthorizationTransaction, later: nat)
    requires t.createdAt == s.now && s.now <= later < s.now + 300_000
    requires |Recent(s.pending, s.now, Some(t.clientIp))| < 8 && |Recent(s.pending, s.now, None)| < 128
    ensures var after := Admitted(s.pending, s.now, key, t);
            && Takes(after, later, key, t.browserBindingHash) && after[key] == t
            && key !in Taken(after, later, key, t.browserBindingHash)
  {
    RoomExactly(s.pending, s.now, t.clientIp);
  }

  /**
   * A login that is admitted, and answered within five minutes by the browser that began it, with a code the
   * provider vouches for, ends in the session the provider vouches for; a repeated callback consumes nothing.
   */
  lemma LoginEndsInSession(
      s: State, key: string, t: AuthorizationTransaction, later: nat, id: nat, code: string, sid: string, p: Provider,
      x: Session, again: nat)
    requires Enabled(s, Login(key, t)) && id !in s.consumed && sid !in s.sessions && again !in s.consumed && again != id
    requires |Recent(s.pending, s.now, Some(t.clientIp))| < 8 && |Recent(s.pending, s.now, None)| < 128
    requires s.now <= later < s.now + 300_000 && Vouches(p, t, code, x)
    ensures var request := CallbackRequest(Some(key), false, Some(code), Some(t.browserBindingHash));
            var begun := Apply(s, Login(key, t));
            Enabled(begun, Tick(later)) &&
            var waited := Apply(begun, Tick(later));
            Enabled(waited, Callback(id, request)) &&
            var called := Apply(waited, Callback(id, request));
            && Enabled(called, Step.Store(id, sid, p)) && Enabled(called, Callback(again, request))
            && key !in called.pending
            && Apply(called, Step.Store(id, sid, p)).sessions == s.sessions[sid := Record(id, x, p)]
            && Apply(called, Callback(again, request)).consumed == called.consumed
  {
    var request := CallbackRequest(Some(key), false, Some(code), Some(t.browserBindingHash));
    AdmittedIsTaken(s, key, t, later);
    var called := Apply(Apply(Apply(s, Login(key, t)), Tick(later)), Callback(id, request));
    assert called.consumed[id] == Consumption(key, t.browserBindingHash, later, t, Some(code), None);
    assert Made(called.consumed[id], p) == Some(x);
  }

  /**
   * What a provider vouches for, unless it sends empty texts or an expiry of zero, comes back from Redis as it was
   * stored; in particular it has no verified flag without an e-mail address.
   */
  lemma VouchedReadsBack(p: Provider, t: AuthorizationTransaction, code: string, x: Session)
    requires Vouches(p, t, code, x) && p.issuer != "" && x.identity.subject != ""
    requires x.refreshToken != Some("") && x.accessTokenExpiresAt != Some(0) && x.identity.email != Some("")
    ensures RedisStore.Decode(RedisStore.Encode(x)) == Ok(Some(x))
  {
    RedisStore.DecodeEncodeIdentity(x);
  }

  /** Sessions never outnumber consumed transactions, and those never outnumber the logins started. */
  lemma SessionsFromLogins(states: seq<State>, steps: seq<Step>, i: nat)
    requires Run(states, steps) && i < |states|
    ensures |states[i].sessions| <= |states[i].consumed| <= |states[i].started|
  {
    var s := states[i];
    RunInv(states, steps, i);
    Injection(s.sessions.Keys, s.consumed.Keys, map sid | sid in s.sessions :: s.sessions[sid].maker);
    Injection(s.consumed.Keys, s.started.Keys, map id | id in s.consumed :: s.consumed[id].key);
  }

  lemma {:induction false} Injection<A, B>(from: set<A>, to: set<B>, f: map<A, B>)
    requires from <= f.Keys
    requires forall a | a in from :: f[a] in to
    requires forall a, b | a in from && b in from :: f[a] == f[b] ==> a == b
    ensures |from| <= |to|
  {
    if a :| a in from {
      Injection(from - {a}, to - {f[a]}, f);
    }
  }
}
