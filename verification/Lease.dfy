/**
 * The refresh-lease protocol as a step relation. Any number of resolvers race over any number of sessions
 * in one shared store; requests and replies may be slow, lost, or take effect after their sender gave up.
 */
module Lease {
  import opened Prelude
  import opened Timing
  import opened SessionStore
  import RedisStore

  datatype Outcome = Ready(token: string) | ReauthenticationRequired | TemporarilyUnavailable

  /** What the token endpoint answers to a refresh request. */
  datatype TokenReply =
    | Tokens(access: string, refresh: Option<string>, expiresIn: Option<U64>)
    | InvalidGrant
    | Failed

  datatype Phase = Initial | Polling | Owning

  /** Where a resolver is. A request that is under way and its answer are separate places. */
  datatype Pc =
    | Reading(phase: Phase)
    | Judging(phase: Phase, found: Option<Session>)
    | Discovering
    | Attempting
    | Granted
    | Refused
    | Sleeping
    | Exchanging(read: Session)
    | Responded(read: Session, reply: TokenReply)
    | Updating(read: Session, renewed: Session)
    | Updated(token: string, outcome: OwnedMutation)
    | Invalidating
    | Invalidated(outcome: OwnedMutation)
    | Releasing(result: Outcome)
    | Freed(result: Outcome, owned: bool)
    | Done(result: Outcome, viaLock: bool)
    | Gone

  /** Requests that change the store. */
  datatype Request = AcquireRequest | UpdateRequest(renewed: Session) | InvalidateRequest | ReleaseRequest

  /**
   * One call of the resolver, identified by its owner id. From `acquired` on the fields only record history:
   * whether its acquisition took effect, where in the log and when, where its release stands, whether the
   * token endpoint rejected its grant, and when its exchange was sent and answered.
   */
  datatype Resolver = Resolver(
    sid: string, watch: Stopwatch, waitStart: nat, attemptAt: nat, pc: Pc,
    acquired: bool, mark: nat, grantedAt: nat, freedMark: nat, rejected: bool, sentAt: nat, issuedAt: nat)

  /** Every change the store underwent, in order. */
  datatype Event =
    | Created(sid: string, session: Session)
    | Acquired(sid: string, who: string, at: nat)
    | Released(sid: string, who: string, at: nat)
    | Wrote(sid: string, who: string, session: Session)
    | Dropped(sid: string, who: string)

  /**
   * `grants` is the refresh token the endpoint would accept for each session, `unanswered` the tokens presented in
   * exchanges whose answer did not reach their call, which the endpoint may execute late or have executed.
   */
  datatype State = State(
    now: nat,
    epoch: nat,
    ttl: nat,
    store: Store,
    created: map<string, Entry>,
    resolvers: map<string, Resolver>,
    late: set<(string, Request)>,
    grants: map<string, Option<string>>,
    unanswered: set<(string, Option<string>)>,
    log: seq<Event>)

  datatype Step =
    | Tick(to: nat)
    | Login(sid: string, session: Session)
    | Start(owner: string, sid: string, gap: nat)
    | Answer(owner: string)
    | Observe(owner: string)
    | Respond(owner: string, reply: TokenReply, grant: Option<string>)
    | Fail(owner: string)
    | Cancel(owner: string)
    | Abandon(owner: string)
    | Late(owner: string, request: Request)
    | Drift(sid: string, grant: Option<string>)

  // ---- places -----------------------------------------------------------------------

  predicate OwnerWork(pc: Pc) {
    || (pc.Reading? && pc.phase.Owning?) || (pc.Judging? && pc.phase.Owning?)
    || pc.Exchanging? || pc.Responded? || pc.Updating? || pc.Updated? || pc.Invalidating? || pc.Invalidated?
  }

  /** From the acquisition taking effect to the release taking effect. */
  predicate InSection(pc: Pc) {
    pc.Granted? || OwnerWork(pc) || pc.Releasing?
  }

  predicate BeforeLock(pc: Pc) {
    || (pc.Reading? && !pc.phase.Owning?) || (pc.Judging? && !pc.phase.Owning?)
    || pc.Discovering? || pc.Attempting? || pc.Refused? || pc.Sleeping?
  }

  predicate Over(pc: Pc) {
    pc.Done? || pc.Gone?
  }

  function Outstanding(pc: Pc): Option<Request> {
    match pc
    case Attempting => Some(AcquireRequest)
    case Updating(_, x) => Some(UpdateRequest(x))
    case Invalidating => Some(InvalidateRequest)
    case Releasing(_) => Some(ReleaseRequest)
    case _ => None
  }

  predicate Answerable(pc: Pc) {
    pc.Reading? || Outstanding(pc).Some?
  }

  predicate Observable(pc: Pc) {
    || pc.Judging? || pc.Discovering? || pc.Granted? || pc.Refused? || pc.Sleeping? || pc.Responded?
    || pc.Updated? || pc.Invalidated? || pc.Freed?
  }

  /** A call can fail while its request, or its reply, is under way. */
  predicate Failable(pc: Pc) {
    Answerable(pc) || pc.Judging? || pc.Discovering? || pc.Granted? || pc.Refused? || pc.Updated? || pc.Invalidated?
    || pc.Freed?
  }

  function AfterFailure(pc: Pc): Pc {
    if OwnerWork(pc) then Releasing(TemporarilyUnavailable)
    else Done(TemporarilyUnavailable, pc.Releasing? || pc.Freed?)
  }

  // ---- effects on the store -----------------------------------------------------------

  function Moved(s: State, o: string, r: Resolver): State {
    s.(resolvers := s.resolvers[o := r])
  }

  function Acquire(s: State, o: string): (State, bool)
    requires o in s.resolvers
  {
    var r := s.resolvers[o];
    var (store, granted) := TryAcquire(s.store, s.now, r.sid, o, REFRESH_LOCK_LEASE);
    if granted == Ok(true) then
      (Moved(s, o, r.(acquired := true, mark := |s.log|, grantedAt := s.now))
         .(store := store, log := s.log + [Acquired(r.sid, o, s.now)]), true)
    else (s, false)
  }

  function Free(s: State, o: string): (State, bool)
    requires o in s.resolvers
  {
    var r := s.resolvers[o];
    var (store, owned) := Release(s.store, s.now, r.sid, o);
    if owned then
      (Moved(s, o, r.(freedMark := |s.log|)).(store := store, log := s.log + [Released(r.sid, o, s.now)]), true)
    else (s, false)
  }

  function Write(s: State, o: string, renewed: Session): (State, OwnedMutation)
    requires o in s.resolvers
  {
    var sid := s.resolvers[o].sid;
    var (store, outcome) := Update(s.store, s.now, sid, o, RedisStore.Normalised(renewed));
    if outcome.Applied? && sid in store.sessions then
      (s.(store := store, log := s.log + [Wrote(sid, o, store.sessions[sid].session)]), outcome)
    else (s, outcome)
  }

  function Drop(s: State, o: string): (State, OwnedMutation)
    requires o in s.resolvers
  {
    var sid := s.resolvers[o].sid;
    var (store, outcome) := Invalidate(s.store, s.now, sid, o);
    if outcome.Applied? then (s.(store := store, log := s.log + [Dropped(sid, o)]), outcome)
    else (s, outcome)
  }

  function WithPc(s: State, o: string, pc: Pc): State {
    if o in s.resolvers then Moved(s, o, s.resolvers[o].(pc := pc)) else s
  }

  // ---- what the client does next --------------------------------------------------------

  ghost function EffectiveNow(s: State, r: Resolver): U64 {
    if r.watch.Valid() && r.watch.entry + r.watch.gap <= s.epoch + s.now
    then r.watch.EffectiveAt(s.epoch + s.now) else 0
  }

  ghost predicate Usable(s: State, r: Resolver, x: Session) {
    SufficientlyValid(x.accessTokenExpiresAt, EffectiveNow(s, r))
  }

  function Renewed(read: Session, reply: TokenReply, responseNow: U64): Session
    requires reply.Tokens?
  {
    Session(reply.access, if reply.refresh.Some? then reply.refresh else read.refreshToken,
            RefreshedExpiry(responseNow, reply.expiresIn), read.identity)
  }

  /** The loop head: give up at the wait deadline, otherwise start the owner budget and ask for the lease. */
  function NextAttempt(s: State, r: Resolver): Resolver {
    if s.now >= r.waitStart + REFRESH_WAIT_TIMEOUT then r.(pc := Done(TemporarilyUnavailable, false))
    else r.(attemptAt := s.now, pc := Attempting)
  }

  ghost function Judged(s: State, r: Resolver): Resolver
    requires r.pc.Judging?
  {
    var owning := r.pc.phase.Owning?;
    if r.pc.found.None? then
      r.(pc := if owning then Releasing(ReauthenticationRequired) else Done(ReauthenticationRequired, false))
    else
      var x := r.pc.found.value;
      if Usable(s, r, x) then
        r.(pc := if owning then Releasing(Ready(x.accessToken)) else Done(Ready(x.accessToken), false))
      else if x.refreshToken.None? then
        r.(pc := if owning then Releasing(ReauthenticationRequired) else Done(ReauthenticationRequired, false))
      else
        match r.pc.phase
        case Initial => r.(pc := Discovering)
        case Polling => NextAttempt(s, r)
        case Owning => r.(pc := Exchanging(x), sentAt := s.now)
  }

  function AfterUpdate(token: string, outcome: OwnedMutation): Outcome {
    match outcome
    case Applied => Ready(token)
    case SessionMissing => ReauthenticationRequired
    case OwnershipLost => TemporarilyUnavailable
  }

  function AfterInvalidation(outcome: OwnedMutation): Outcome {
    if outcome.OwnershipLost? then TemporarilyUnavailable else ReauthenticationRequired
  }

  ghost function Continued(s: State, r: Resolver): Resolver
    requires Observable(r.pc)
  {
    match r.pc
    case Judging(_, _) => Judged(s, r)
    case Discovering => NextAttempt(s, r.(waitStart := s.now))
    case Granted =>
      r.(pc := if s.now >= OwnerDeadline(r.attemptAt) then Releasing(TemporarilyUnavailable) else Reading(Owning))
    case Refused =>
      r.(pc := if s.now >= r.waitStart + REFRESH_WAIT_TIMEOUT then Done(TemporarilyUnavailable, false) else Sleeping)
    case Sleeping => r.(pc := Reading(Polling))
    case Responded(read, reply) =>
      (match reply
       case Tokens(_, _, _) => r.(pc := Updating(read, Renewed(read, reply, EffectiveNow(s, r))))
       case InvalidGrant => r.(pc := Invalidating, rejected := true)
       case Failed => r.(pc := Releasing(TemporarilyUnavailable)))
    case Updated(token, outcome) => r.(pc := Releasing(AfterUpdate(token, outcome)))
    case Invalidated(outcome) => r.(pc := Releasing(AfterInvalidation(outcome)))
    case Freed(result, owned) => r.(pc := Done(if owned then result else TemporarilyUnavailable, true))
  }

  // ---- steps --------------------------------------------------------------------------------

  /** The store executes the request that `o` has under way. */
  function Answered(s: State, o: string): State
    requires o in s.resolvers && Answerable(s.resolvers[o].pc)
  {
    match s.resolvers[o].pc
    case Reading(phase) => WithPc(s, o, Judging(phase, Get(s.store, s.now, s.resolvers[o].sid)))
    case Attempting => var (t, granted) := Acquire(s, o); WithPc(t, o, if granted then Granted else Refused)
    case Updating(_, x) => var (t, outcome) := Write(s, o, x); WithPc(t, o, Updated(x.accessToken, outcome))
    case Invalidating => var (t, outcome) := Drop(s, o); WithPc(t, o, Invalidated(outcome))
    case Releasing(result) => var (t, owned) := Free(s, o); WithPc(t, o, Freed(result, owned))
  }

  /** What an exchanging resolver has sent to the token endpoint. */
  function Presented(r: Resolver): set<(string, Option<string>)> {
    if r.pc.Exchanging? then {(r.sid, r.pc.read.refreshToken)} else {}
  }

  /** The client stops waiting; a request not yet executed may still be, later. */
  function LeftBehind(s: State, o: string, pc: Pc): State
    requires o in s.resolvers
  {
    var request := Outstanding(s.resolvers[o].pc);
    WithPc(s, o, pc).(late := if request.Some? then s.late + {(o, request.value)} else s.late,
                      unanswered := s.unanswered + Presented(s.resolvers[o]))
  }

  /** The store executes a request of `o`, wherever its sender is. */
  function Executed(t: State, o: string, request: Request): State
    requires o in t.resolvers
  {
    match request
    case AcquireRequest => Acquire(t, o).0
    case UpdateRequest(x) => Write(t, o, x).0
    case InvalidateRequest => Drop(t, o).0
    case ReleaseRequest => Free(t, o).0
  }

  function ExecutedLate(s: State, o: string, request: Request): State
    requires o in s.resolvers
  {
    Executed(s.(late := s.late - {(o, request)}), o, request)
  }

  ghost predicate Enabled(s: State, step: Step) {
    match step
    case Tick(to) => s.now <= to
    case Login(sid, x) => sid !in s.created && RedisStore.Identified(x)
    case Start(o, _, gap) => o !in s.resolvers && gap <= s.epoch + s.now && (s.epoch + s.now - gap) / 1000 <= U64_MAX
    case Answer(o) => o in s.resolvers && Answerable(s.resolvers[o].pc)
    case Observe(o) => o in s.resolvers && Observable(s.resolvers[o].pc)
    case Respond(o, _, _) => o in s.resolvers && s.resolvers[o].pc.Exchanging?
    case Fail(o) => o in s.resolvers && Failable(s.resolvers[o].pc)
    case Cancel(o) =>
      o in s.resolvers && OwnerWork(s.resolvers[o].pc) && OwnerDeadline(s.resolvers[o].attemptAt) <= s.now
    case Abandon(o) => o in s.resolvers && !Over(s.resolvers[o].pc)
    case Late(o, request) => (o, request) in s.late && o in s.resolvers
    case Drift(_, _) => true
  }

  ghost function Apply(s: State, step: Step): State
    requires Enabled(s, step)
  {
    match step
    case Tick(to) => s.(now := to)
    case Login(sid, x) =>
      var y := RedisStore.Normalised(x);
      s.(store := Put(s.store, s.now, sid, y, s.ttl), created := s.created[sid := Entry(y, s.now + s.ttl)],
         grants := s.grants[sid := y.refreshToken], log := s.log + [Created(sid, y)])
    case Start(o, sid, gap) =>
      Moved(s, o, Resolver(sid, Stopwatch(s.epoch + s.now - gap, gap), 0, 0, Reading(Initial),
                           false, 0, 0, 0, false, 0, 0))
    case Answer(o) => Answered(s, o)
    case Observe(o) => Moved(s, o, Continued(s, s.resolvers[o]))
    case Respond(o, reply, grant) =>
      var r := s.resolvers[o];
      Moved(s, o, r.(pc := Responded(r.pc.read, reply), issuedAt := s.now))
        .(grants := s.grants[r.sid := grant],
          unanswered := if reply.Failed? then s.unanswered + Presented(r) else s.unanswered)
    case Fail(o) => LeftBehind(s, o, AfterFailure(s.resolvers[o].pc))
    case Cancel(o) => LeftBehind(s, o, Releasing(TemporarilyUnavailable))
    case Abandon(o) => LeftBehind(s, o, Gone)
    case Late(o, request) => ExecutedLate(s, o, request)
    case Drift(sid, grant) => s.(grants := s.grants[sid := grant])
  }

  ghost predicate Init(s: State) {
    && s.store == Store(map[], map[]) && s.created == map[] && s.resolvers == map[] && s.late == {}
    && s.grants == map[] && s.unanswered == {} && s.log == []
  }

  /** Consecutive states, one step apart. */
  ghost predicate Path(states: seq<State>, steps: seq<Step>) {
    && |states| == |steps| + 1
    && forall i {:trigger steps[i]} | 0 <= i < |steps| ::
         Enabled(states[i], steps[i]) && states[i + 1] == Apply(states[i], steps[i])
  }

  ghost predicate Run(states: seq<State>, steps: seq<Step>) {
    Path(states, steps) && Init(states[0])
  }
}
