/**
 * Agreement with a token endpoint that accepts only its current refresh token and may replace it at each
 * exchange (section 6 of RFC 6749).
 */
module Rotation {
  import opened Prelude
  import opened SessionStore
  import opened Lease
  import opened LeaseInvariant
  import opened LeaseSafety
  import opened Convergence
  import RedisStore

  /**
   * The endpoint's rule for a grant whose current refresh token is `current`. A failure that the client sees may
   * hide that the endpoint accepted the token and replaced it, its answer being lost or late or unreadable.
   */
  predicate ServerAnswers(current: Option<string>, presented: Option<string>, reply: TokenReply, next: Option<string>) {
    match reply
    case Tokens(_, refresh, _) =>
      presented == current && refresh != Some("") && next == (if refresh.Some? then refresh else current)
    case InvalidGrant => presented != current && next == current
    case Failed => next == current || (presented == current && next.Some? && next != Some(""))
  }

  /** A token that replaces the current one is new: no call that went unanswered has presented it. */
  ghost predicate IsNew(s: State, sid: string, next: Option<string>) {
    (sid, next) !in s.unanswered
  }

  /**
   * The endpoint answers by its rule. On its own it changes a grant only by executing, late, an exchange whose
   * call is not waiting any more, and by the same rule.
   */
  ghost predicate KeepsRule(s: State, step: Step) {
    match step
    case Respond(o, reply, next) =>
      && o in s.resolvers && s.resolvers[o].pc.Exchanging? && s.resolvers[o].sid in s.grants
      && var sid := s.resolvers[o].sid;
         && ServerAnswers(s.grants[sid], s.resolvers[o].pc.read.refreshToken, reply, next)
         && (next != s.grants[sid] ==> IsNew(s, sid, next))
    case Drift(sid, next) =>
      && sid in s.grants
      && (next != s.grants[sid] ==>
            (sid, s.grants[sid]) in s.unanswered && next.Some? && next != Some("") && IsNew(s, sid, next))
    case _ => true
  }

  /** The client of `o` gives up: a failed call, the deadline, or the request being dropped. */
  predicate Leaves(step: Step, o: string) {
    step in {Fail(o), Cancel(o), Abandon(o)}
  }

  /** The owner has new tokens that are not stored yet. */
  predicate InFlight(pc: Pc) {
    (pc.Responded? && pc.reply.Tokens?) || pc.Updating?
  }

  /**
   * New tokens may get lost here: an answer with tokens is left behind, or taken for a failure, or an exchange is
   * executed when nobody waits for it.
   */
  ghost predicate LosesTokens(s: State, step: Step) {
    match step
    case Respond(o, reply, next) =>
      && o in s.resolvers && s.resolvers[o].sid in s.grants
      && reply.Failed? && next != s.grants[s.resolvers[o].sid]
    case Drift(sid, next) => sid in s.grants && next != s.grants[sid]
    case Fail(o) => o in s.resolvers && InFlight(s.resolvers[o].pc)
    case Cancel(o) => o in s.resolvers && InFlight(s.resolvers[o].pc)
    case Abandon(o) => o in s.resolvers && InFlight(s.resolvers[o].pc)
    case _ => false
  }

  /** The endpoint keeps its rule, and none of its tokens is lost. Any other call may fail or be left behind. */
  ghost predicate Benign(s: State, step: Step) {
    KeepsRule(s, step) && !LosesTokens(s, step)
  }

  ghost predicate Pending(s: State, sid: string) {
    exists o :: o in s.resolvers && s.resolvers[o].sid == sid && InFlight(s.resolvers[o].pc)
  }

  // ---- the invariant ----------------------------------------------------------------------------

  ghost predicate SessionAgrees(s: State, sid: string) {
    && sid in s.grants && sid in s.store.sessions
    && s.store.sessions[sid].session.refreshToken != Some("")
    && (Readable(s.store, s.now, sid) && !Pending(s, sid) ==>
          s.store.sessions[sid].session.refreshToken == s.grants[sid])
  }

  predicate PlaceAgrees(pc: Pc, grant: Option<string>) {
    match pc
    case Judging(phase, found) =>
      phase.Owning? && found.Some? ==> found.value.refreshToken == grant && grant != Some("")
    case Exchanging(x) => x.refreshToken == grant && grant != Some("")
    case Responded(x, reply) =>
      (reply.Tokens? ==> grant == (if reply.refresh.Some? then reply.refresh else x.refreshToken) && grant != Some(""))
      && !reply.InvalidGrant?
    case Updating(_, x) => x.refreshToken == grant && grant != Some("")
    case Invalidating => false
    case Invalidated(_) => false
    case _ => true
  }

  ghost predicate ResolverAgrees(s: State, o: string)
    requires o in s.resolvers
  {
    var r := s.resolvers[o];
    && !r.rejected
    && (OwnerWork(r.pc) ==> r.sid in s.grants && PlaceAgrees(r.pc, s.grants[r.sid]))
    && (InFlight(r.pc) && r.pc.read.refreshToken != s.grants[r.sid] ==> IsNew(s, r.sid, s.grants[r.sid]))
  }

  ghost predicate Agreement(s: State) {
    && (forall sid | sid in s.created :: SessionAgrees(s, sid))
    && (forall o | o in s.resolvers :: ResolverAgrees(s, o))
    && (forall p | p in s.late :: !IsMutation(p.1))
  }

  ghost predicate AllOnTime(s: State) {
    forall sid :: OnTime(s, sid)
  }

  // ---- one step ------------------------------------------------------------------------------------

  /** While an owner works in time, nobody else on the session has tokens in flight. */
  lemma Alone(s: State, o: string, q: string)
    requires Inv(s) && AllOnTime(s) && o in s.resolvers && q in s.resolvers
    requires s.resolvers[o].sid == s.resolvers[q].sid
    requires OwnerWork(s.resolvers[o].pc) && OwnerWork(s.resolvers[q].pc)
    ensures o == q
  {
    assert OnTime(s, s.resolvers[o].sid);
    OwnerKnows(s, o);
    OwnerKnows(s, q);
  }

  /** A grant changes only when its session is created, or for the owner that is exchanging. */
  lemma GrantChange(s: State, step: Step, sid: string)
    requires Enabled(s, step) && Benign(s, step) && sid in s.grants
    ensures sid in Apply(s, step).grants
    ensures Apply(s, step).grants[sid] != s.grants[sid] ==>
              || (step.Login? && step.sid == sid)
              || (step.Respond? && s.resolvers[step.owner].sid == sid)
  {
    match step {
      case Answer(o) => AnswerFrame(s, o);
      case Late(o, request) => LateFrame(s, o, request);
      case _ =>
    }
  }

  lemma AnswerAgrees(s: State, o: string)
    requires Inv(s) && Agreement(s) && AllOnTime(s) && Enabled(s, Answer(o))
    ensures o in Apply(s, Answer(o)).resolvers && ResolverAgrees(Apply(s, Answer(o)), o)
  {
    AnswerFrame(s, o);
    AnswerPlace(s, o);
    assert ResolverAgrees(s, o);
    if s.resolvers[o].pc == Reading(Owning) {
      WorkerIsCreated(s, o);
      assert SessionAgrees(s, s.resolvers[o].sid);
      forall q | q in s.resolvers && s.resolvers[q].sid == s.resolvers[o].sid ensures !InFlight(s.resolvers[q].pc) {
        if InFlight(s.resolvers[q].pc) { Alone(s, o, q); }
      }
    }
  }

  lemma GrantKnown(s: State, o: string)
    requires Inv(s) && Agreement(s) && o in s.resolvers && s.resolvers[o].pc.Granted?
    ensures s.resolvers[o].sid in s.grants
  {
    assert ResolverOk(s, o) && SessionAgrees(s, s.resolvers[o].sid);
  }

  lemma ObserveAgrees(s: State, o: string)
    requires Enabled(s, Observe(o)) && ResolverAgrees(s, o)
    requires s.resolvers[o].pc.Granted? ==> s.resolvers[o].sid in s.grants
    ensures ResolverAgrees(Apply(s, Observe(o)), o)
  {
    var r := s.resolvers[o];
    var r' := Continued(s, r);
    ContinuedFrame(s, r);
    assert Apply(s, Observe(o)).resolvers[o] == r' && Apply(s, Observe(o)).grants == s.grants;
    if OwnerWork(r.pc) {
      ContinuedAgrees(s, r, s.grants[r.sid]);
    }
  }

  lemma ContinuedAgrees(s: State, r: Resolver, grant: Option<string>)
    requires Observable(r.pc) && OwnerWork(r.pc) && PlaceAgrees(r.pc, grant) && !r.rejected
    ensures PlaceAgrees(Continued(s, r).pc, grant) && !Continued(s, r).rejected
    ensures InFlight(Continued(s, r).pc) ==> InFlight(r.pc) && Continued(s, r).pc.read == r.pc.read
  {
  }

  lemma RespondAgrees(s: State, o: string, reply: TokenReply, next: Option<string>)
    requires Enabled(s, Respond(o, reply, next)) && Benign(s, Respond(o, reply, next)) && ResolverAgrees(s, o)
    ensures ResolverAgrees(Apply(s, Respond(o, reply, next)), o)
  {
  }

  lemma LeaveAgrees(s: State, o: string, pc: Pc)
    requires o in s.resolvers && ResolverAgrees(s, o) && !OwnerWork(pc)
    ensures ResolverAgrees(LeftBehind(s, o, pc), o)
  {
  }

  /** The step of `o` itself. */
  predicate TakenBy(step: Step, o: string) {
    match step
    case Tick(_) => false
    case Login(_, _) => false
    case Drift(_, _) => false
    case _ => step.owner == o
  }

  lemma OwnStepAgrees(s: State, step: Step, o: string)
    requires Inv(s) && Agreement(s) && AllOnTime(s) && Enabled(s, step) && Benign(s, step)
    requires TakenBy(step, o) && o in s.resolvers
    ensures o in Apply(s, step).resolvers && ResolverAgrees(Apply(s, step), o)
  {
    assert ResolverAgrees(s, o);
    match step {
      case Answer(_) => AnswerAgrees(s, o);
      case Late(_, request) => LateFrame(s, o, request);
      case Observe(_) =>
        if s.resolvers[o].pc.Granted? { GrantKnown(s, o); }
        ObserveAgrees(s, o);
      case Respond(_, reply, next) => RespondAgrees(s, o, reply, next);
      case Fail(_) => LeaveAgrees(s, o, AfterFailure(s.resolvers[o].pc));
      case Cancel(_) => LeaveAgrees(s, o, Releasing(TemporarilyUnavailable));
      case Abandon(_) => LeaveAgrees(s, o, Gone);
    }
  }

  /** A step moves only the resolver that takes it. */
  lemma OthersStay(s: State, step: Step, o: string)
    requires Enabled(s, step) && !TakenBy(step, o)
    ensures o in Apply(s, step).resolvers <==> o in s.resolvers
    ensures o in s.resolvers ==> Apply(s, step).resolvers[o] == s.resolvers[o]
  {
    match step {
      case Answer(q) => AnswerFrame(s, q);
      case Late(q, request) => LateFrame(s, q, request);
      case _ =>
    }
  }

  lemma OtherAgrees(s: State, step: Step, o: string)
    requires Inv(s) && Agreement(s) && AllOnTime(s) && Enabled(s, step) && Benign(s, step)
    requires !TakenBy(step, o) && o in s.resolvers
    ensures o in Apply(s, step).resolvers && ResolverAgrees(Apply(s, step), o)
  {
    OthersStay(s, step, o);
    assert ResolverAgrees(s, o);
    if OwnerWork(s.resolvers[o].pc) {
      GrantChange(s, step, s.resolvers[o].sid);
      WorkerIsCreated(s, o);
      if step.Respond? && s.resolvers[step.owner].sid == s.resolvers[o].sid {
        Alone(s, o, step.owner);
      }
      if InFlight(s.resolvers[o].pc) {
        StaysNew(s, step, o);
      }
    }
  }

  /** A token becomes unanswered only for an owner that was exchanging it. */
  lemma NewlyUnanswered(s: State, step: Step, u: (string, Option<string>))
    requires Enabled(s, step) && u in Apply(s, step).unanswered && u !in s.unanswered
    ensures (step.Respond? && step.reply.Failed?) || step.Fail? || step.Cancel? || step.Abandon?
    ensures step.owner in s.resolvers && u in Presented(s.resolvers[step.owner])
  {
    match step {
      case Answer(o) => AnswerFrame(s, o);
      case Late(o, request) => LateFrame(s, o, request);
      case _ =>
    }
  }

  /** While an owner has tokens in flight nobody else presents any. */
  lemma StaysNew(s: State, step: Step, o: string)
    requires Inv(s) && AllOnTime(s) && Enabled(s, step) && !TakenBy(step, o)
    requires o in s.resolvers && InFlight(s.resolvers[o].pc) && s.resolvers[o].sid in s.grants
    requires IsNew(s, s.resolvers[o].sid, s.grants[s.resolvers[o].sid])
          || s.resolvers[o].pc.read.refreshToken == s.grants[s.resolvers[o].sid]
    ensures IsNew(Apply(s, step), s.resolvers[o].sid, s.grants[s.resolvers[o].sid])
         || s.resolvers[o].pc.read.refreshToken == s.grants[s.resolvers[o].sid]
  {
    var u := (s.resolvers[o].sid, s.grants[s.resolvers[o].sid]);
    if u in Apply(s, step).unanswered && u !in s.unanswered {
      NewlyUnanswered(s, step, u);
      Alone(s, o, step.owner);
    }
  }

  // ---- the stored token over one step ---------------------------------------------------------------

  lemma HolderStores(s: State, sid: string, o: string)
    requires o in s.resolvers && s.resolvers[o].sid == sid && s.resolvers[o].pc.Updating?
    requires HeldBy(s.store, s.now, sid, o) && Readable(s.store, s.now, sid)
    ensures sid in Apply(s, Answer(o)).store.sessions
    ensures Apply(s, Answer(o)).store.sessions[sid].session.refreshToken
         == RedisStore.Normalised(s.resolvers[o].pc.renewed).refreshToken
  {
  }

  /** The only benign way out of being in flight is the store's answer to the update. */
  lemma InFlightMoves(s: State, step: Step, o: string)
    requires Enabled(s, step) && Benign(s, step) && o in s.resolvers && InFlight(s.resolvers[o].pc)
    ensures o in Apply(s, step).resolvers && Apply(s, step).resolvers[o].sid == s.resolvers[o].sid
    ensures InFlight(Apply(s, step).resolvers[o].pc) || (step == Answer(o) && s.resolvers[o].pc.Updating?)
  {
    StepResolver(s, step, o);
    if !TakenBy(step, o) {
      OthersStay(s, step, o);
    } else if step.Late? {
      LateFrame(s, o, step.request);
    }
  }

  /** Tokens in flight stay so until they are stored. */
  lemma InFlightEnds(s: State, step: Step, sid: string)
    requires Inv(s) && AllOnTime(s) && Enabled(s, step) && Benign(s, step)
    requires Pending(s, sid) && !Pending(Apply(s, step), sid)
    requires Readable(s.store, s.now, sid)
    ensures step.Answer? && step.owner in s.resolvers && s.resolvers[step.owner].sid == sid
    ensures s.resolvers[step.owner].pc.Updating?
    ensures sid in Apply(s, step).store.sessions
    ensures Apply(s, step).store.sessions[sid].session.refreshToken
         == RedisStore.Normalised(s.resolvers[step.owner].pc.renewed).refreshToken
  {
    var o :| o in s.resolvers && s.resolvers[o].sid == sid && InFlight(s.resolvers[o].pc);
    InFlightMoves(s, step, o);
    assert OnTime(s, sid);
    OwnerKnows(s, o);
    HolderStores(s, sid, o);
  }

  /** What is stored changes only by the write of an owner with tokens in flight. */
  lemma StoredChange(s: State, step: Step, s': State, sid: string)
    requires Enabled(s, step) && Accounted(s, step, s') && sid in s.created
    requires sid in s.store.sessions && s.store.sessions[sid].session.refreshToken != Some("")
    requires forall o | o in s.resolvers :: !s.resolvers[o].rejected
    requires forall p | p in s.late :: !IsMutation(p.1)
    ensures sid in s'.store.sessions && s'.store.sessions[sid].session.refreshToken != Some("")
    ensures s'.store.sessions[sid].session.refreshToken != s.store.sessions[sid].session.refreshToken ==>
              Pending(s, sid)
  {
    if s'.log != s.log && s'.log[|s'.log| - 1].Wrote? {
      var e := s'.log[|s'.log| - 1];
      var x :| Runs(s, step, e.who, UpdateRequest(x)) && Readable(s.store, s.now, e.sid)
               && e.session == Refreshed(s.store.sessions[e.sid].session, RedisStore.Normalised(x));
      RedisStore.NormalisedExact(x);
      assert step == Answer(e.who) && InFlight(s.resolvers[e.who].pc);
    }
  }

  lemma SessionChange(s: State, step: Step, sid: string)
    requires Inv(s) && Agreement(s) && Enabled(s, step) && sid in s.created
    ensures var s' := Apply(s, step);
            && sid in s'.store.sessions && s'.store.sessions[sid].session.refreshToken != Some("")
            && (s'.store.sessions[sid].session.refreshToken != s.store.sessions[sid].session.refreshToken ==>
                  Pending(s, sid))
  {
    assert SessionAgrees(s, sid);
    assert forall o | o in s.resolvers :: ResolverAgrees(s, o) && !s.resolvers[o].rejected;
    StepAccounted(s, step);
    StoredChange(s, step, Apply(s, step), sid);
  }

  lemma NewSessionAgrees(s: State, step: Step, sid: string)
    requires Enabled(s, step) && sid !in s.created && sid in Apply(s, step).created
    ensures SessionAgrees(Apply(s, step), sid)
  {
    match step {
      case Login(_, x) => RedisStore.NormalisedExact(x);
      case Answer(o) => AnswerFrame(s, o);
      case Late(o, request) => LateFrame(s, o, request);
      case _ =>
    }
  }

  lemma ReadableBefore(s: State, step: Step, sid: string)
    requires Inv(s) && Enabled(s, step) && sid in s.created
    requires Readable(Apply(s, step).store, Apply(s, step).now, sid)
    ensures Readable(s.store, s.now, sid)
  {
    StepAccounted(s, step);
    StepHistory(s, step);
    if !Readable(s.store, s.now, sid) {
      StaysUnreadable(s, step, Apply(s, step), sid);
    }
  }

  lemma WrittenAgrees(s: State, step: Step, sid: string)
    requires Inv(s) && Agreement(s) && AllOnTime(s) && Enabled(s, step) && Benign(s, step) && sid in s.created
    requires Readable(s.store, s.now, sid) && Pending(s, sid) && !Pending(Apply(s, step), sid)
    ensures sid in Apply(s, step).store.sessions && sid in Apply(s, step).grants
    ensures Apply(s, step).store.sessions[sid].session.refreshToken == Apply(s, step).grants[sid]
  {
    assert SessionAgrees(s, sid);
    GrantChange(s, step, sid);
    InFlightEnds(s, step, sid);
    assert ResolverAgrees(s, step.owner);
    RedisStore.NormalisedExact(s.resolvers[step.owner].pc.renewed);
  }

  lemma StoredAgrees(s: State, step: Step, sid: string)
    requires Inv(s) && Agreement(s) && AllOnTime(s) && Enabled(s, step) && Benign(s, step) && sid in s.created
    requires sid in Apply(s, step).store.sessions && sid in Apply(s, step).grants
    requires Readable(Apply(s, step).store, Apply(s, step).now, sid) && !Pending(Apply(s, step), sid)
    ensures Apply(s, step).store.sessions[sid].session.refreshToken == Apply(s, step).grants[sid]
  {
    ReadableBefore(s, step, sid);
    if Pending(s, sid) {
      WrittenAgrees(s, step, sid);
    } else {
      assert SessionAgrees(s, sid);
      GrantChange(s, step, sid);
      SessionChange(s, step, sid);
      if step.Respond? && s.resolvers[step.owner].sid == sid {
        var s' := Apply(s, step);
        assert InFlight(s'.resolvers[step.owner].pc) || s'.grants[sid] == s.grants[sid];
      }
    }
  }

  lemma SessionStepAgrees(s: State, step: Step, sid: string)
    requires Inv(s) && Agreement(s) && AllOnTime(s) && Enabled(s, step) && Benign(s, step)
    requires sid in Apply(s, step).created
    ensures SessionAgrees(Apply(s, step), sid)
  {
    if sid !in s.created {
      NewSessionAgrees(s, step, sid);
    } else {
      assert SessionAgrees(s, sid);
      SessionChange(s, step, sid);
      GrantChange(s, step, sid);
      if Readable(Apply(s, step).store, Apply(s, step).now, sid) && !Pending(Apply(s, step), sid) {
        StoredAgrees(s, step, sid);
      }
    }
  }

  lemma LateAgrees(s: State, step: Step, p: (string, Request))
    requires Agreement(s) && Enabled(s, step) && Benign(s, step) && p in Apply(s, step).late
    ensures !IsMutation(p.1)
  {
    if p !in s.late {
      LeftLate(s, step, p);
      LeavesOwnRequest(s, step, p);
      NoInvalidation(s, p.0);
    }
  }

  lemma NoInvalidation(s: State, o: string)
    requires Agreement(s) && o in s.resolvers
    ensures !s.resolvers[o].pc.Invalidating?
  {
    assert ResolverAgrees(s, o);
  }

  lemma LeavesOwnRequest(s: State, step: Step, p: (string, Request))
    requires Enabled(s, step) && Benign(s, step) && p in Apply(s, step).late && p !in s.late
    ensures p.0 in s.resolvers && !InFlight(s.resolvers[p.0].pc)
  {
    match step {
      case Answer(o) => AnswerLate(s, o);
      case Late(o, request) => LateFrame(s, o, request);
      case _ =>
    }
  }

  lemma StepKeepsAgreement(s: State, step: Step)
    requires Inv(s) && Agreement(s) && AllOnTime(s) && Enabled(s, step) && Benign(s, step)
    ensures Agreement(Apply(s, step))
  {
    var s' := Apply(s, step);
    forall sid | sid in s'.created ensures SessionAgrees(s', sid) {
      SessionStepAgrees(s, step, sid);
    }
    forall o | o in s'.resolvers ensures ResolverAgrees(s', o) {
      if o !in s.resolvers {
        Newcomer(s, step, o);
      } else if TakenBy(step, o) {
        OwnStepAgrees(s, step, o);
      } else {
        OtherAgrees(s, step, o);
      }
    }
    forall p | p in s'.late ensures !IsMutation(p.1) {
      LateAgrees(s, step, p);
    }
  }

  // ---- whole runs -----------------------------------------------------------------------------------

  ghost predicate BenignRun(states: seq<State>, steps: seq<Step>) {
    && Run(states, steps)
    && (forall i | 0 <= i < |steps| :: Benign(states[i], steps[i]))
    && (forall i | 0 <= i < |steps| :: AllOnTime(states[i]))
  }

  lemma {:induction false} RunAgrees(states: seq<State>, steps: seq<Step>, i: nat)
    requires BenignRun(states, steps) && i < |states|
    ensures Agreement(states[i])
  {
    if i > 0 {
      RunAgrees(states, steps, i - 1);
      RunInv(states, steps, i - 1);
      StepKeepsAgreement(states[i - 1], steps[i - 1]);
    }
  }

  /**
   * Whenever no owner is between its exchange and its write, the refresh token of a live session is the one
   * the endpoint accepts.
   */
  lemma RotationAgreement(states: seq<State>, steps: seq<Step>, i: nat, sid: string)
    requires BenignRun(states, steps) && i < |states|
    requires Readable(states[i].store, states[i].now, sid) && !Pending(states[i], sid)
    ensures sid in states[i].grants && states[i].store.sessions[sid].session.refreshToken == states[i].grants[sid]
  {
    RunAgrees(states, steps, i);
    RunInv(states, steps, i);
    assert SessionOk(states[i], sid) && SessionAgrees(states[i], sid);
  }

  /** Racing resolvers never make the endpoint reject a grant, and no session is lost before its time. */
  lemma NeverRejected(states: seq<State>, steps: seq<Step>, i: nat, sid: string)
    requires BenignRun(states, steps) && i < |states|
    ensures forall k | 0 <= k < i :: !(steps[k].Respond? && steps[k].reply == InvalidGrant)
    ensures sid in states[i].created && states[i].now < states[i].created[sid].expiresAt ==>
              Readable(states[i].store, states[i].now, sid)
  {
    forall k | 0 <= k < i ensures !(steps[k].Respond? && steps[k].reply == InvalidGrant) {
      RunAgrees(states, steps, k);
      if steps[k].Respond? {
        assert ResolverAgrees(states[k], steps[k].owner);
      }
    }
    RunAgrees(states, steps, i);
    RunInv(states, steps, i);
    assert SessionOk(states[i], sid);
    if sid in states[i].created {
      assert SessionAgrees(states[i], sid);
    }
  }
}
