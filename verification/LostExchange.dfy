/** Exactly when a lost exchange breaks the agreement with a rotating endpoint, and that it stays broken. */
module LostExchange {
  import opened Prelude
  import opened SessionStore
  import opened Lease
  import opened LeaseInvariant
  import opened LeaseSafety
  import opened Convergence
  import opened Rotation
  import RedisStore

  /** The reply brings no other refresh token than the one that was presented. */
  predicate SameToken(read: Session, reply: TokenReply) {
    reply.Tokens? && (reply.refresh.None? || reply.refresh == read.refreshToken)
  }

  ghost predicate StoredAgreesNow(s: State, sid: string) {
    sid in s.store.sessions && sid in s.grants && s.store.sessions[sid].session.refreshToken == s.grants[sid]
  }

  // ---- the losing step --------------------------------------------------------------------------

  /** What an owner at work carries, is stored; and where it stands, the endpoint's token is known. */
  lemma CarriedIsStored(s: State, o: string)
    requires Inv(s) && Agreement(s) && AllOnTime(s) && o in s.resolvers
    requires s.resolvers[o].pc.Exchanging? || s.resolvers[o].pc.Responded? || s.resolvers[o].pc.Updating?
    ensures var sid := s.resolvers[o].sid;
            && sid in s.created && sid in s.store.sessions && sid in s.grants
            && s.store.sessions[sid].session == s.resolvers[o].pc.read
            && PlaceAgrees(s.resolvers[o].pc, s.grants[sid])
  {
    var sid := s.resolvers[o].sid;
    assert OnTime(s, sid);
    OwnerKnows(s, o);
    WorkerIsCreated(s, o);
    assert SessionOk(s, sid) && SessionAgrees(s, sid) && ResolverAgrees(s, o);
  }

  /** A client leaving with an answer in hand loses the agreement exactly if the endpoint rotated. */
  lemma LeavingAnswerExactly(s: State, step: Step, o: string)
    requires Inv(s) && Agreement(s) && AllOnTime(s) && Enabled(s, step) && Leaves(step, o) && o in s.resolvers
    requires s.resolvers[o].pc.Responded? && s.resolvers[o].pc.reply.Tokens?
    ensures StoredAgreesNow(Apply(s, step), s.resolvers[o].sid) <==>
            SameToken(s.resolvers[o].pc.read, s.resolvers[o].pc.reply)
    ensures !SameToken(s.resolvers[o].pc.read, s.resolvers[o].pc.reply) ==>
              Broken(Apply(s, step), s.resolvers[o].sid)
  {
    CarriedIsStored(s, o);
    if !SameToken(s.resolvers[o].pc.read, s.resolvers[o].pc.reply) {
      LossSetsAdrift(s, step, o);
    }
  }

  /** A client leaving with the write under way: the same, but its request may still be executed. */
  lemma LeavingUpdateExactly(s: State, step: Step, o: string)
    requires Inv(s) && Agreement(s) && AllOnTime(s) && Enabled(s, step) && Leaves(step, o) && o in s.resolvers
    requires s.resolvers[o].pc.Updating?
    ensures StoredAgreesNow(Apply(s, step), s.resolvers[o].sid) <==>
            s.resolvers[o].pc.renewed.refreshToken == s.resolvers[o].pc.read.refreshToken
    ensures (o, UpdateRequest(s.resolvers[o].pc.renewed)) in Apply(s, step).late
    ensures s.resolvers[o].sid in s.grants && CarriesGrant(s.resolvers[o].pc.renewed, s.grants[s.resolvers[o].sid])
    ensures s.resolvers[o].pc.renewed.refreshToken != s.resolvers[o].pc.read.refreshToken ==>
              Adrift(Apply(s, step), s.resolvers[o].sid)
  {
    CarriedIsStored(s, o);
    if s.resolvers[o].pc.renewed.refreshToken != s.resolvers[o].pc.read.refreshToken {
      LossSetsAdrift(s, step, o);
    }
  }

  /** A client leaving while it waits for the endpoint loses nothing yet; what it presented may be executed late. */
  lemma LeavingExchange(s: State, step: Step, o: string)
    requires Enabled(s, step) && Leaves(step, o) && o in s.resolvers && s.resolvers[o].pc.Exchanging?
    ensures Apply(s, step).store == s.store && Apply(s, step).grants == s.grants
    ensures Apply(s, step).late == s.late
    ensures (s.resolvers[o].sid, s.resolvers[o].pc.read.refreshToken) in Apply(s, step).unanswered
  {
  }

  /**
   * A failure the client sees in time, the endpoint's answer being lost: the agreement is lost exactly if the
   * endpoint rotated.
   */
  lemma LostReplyExactly(s: State, o: string, next: Option<string>)
    requires Inv(s) && Agreement(s) && AllOnTime(s) && o in s.resolvers && s.resolvers[o].pc.Exchanging?
    requires KeepsRule(s, Respond(o, Failed, next))
    ensures var sid, s' := s.resolvers[o].sid, Apply(s, Respond(o, Failed, next));
            && sid in s.grants
            && (StoredAgreesNow(s', sid) <==> next == s.grants[sid])
            && (next != s.grants[sid] ==> Broken(s', sid))
  {
    CarriedIsStored(s, o);
    var sid := s.resolvers[o].sid;
    if next != s.grants[sid] {
      forall q | q in s.resolvers && s.resolvers[q].sid == sid && q != o
        ensures Carried(s.resolvers[q].pc).None? && NewToken(s.resolvers[q].pc).None?
      {
        OthersAdrift(s, o, q);
      }
      LostReplyBreaks(s, Apply(s, Respond(o, Failed, next)), o, sid, next);
    }
  }

  lemma LostReplyBreaks(s: State, s': State, o: string, sid: string, next: Option<string>)
    requires Agreement(s) && o in s.resolvers && o in s'.resolvers && s'.resolvers == s.resolvers[o := s'.resolvers[o]]
    requires s'.resolvers[o].sid == sid && s'.resolvers[o].pc.Responded? && s'.resolvers[o].pc.reply.Failed?
    requires s'.store == s.store && s'.created == s.created && s'.late == s.late && s'.grants == s.grants[sid := next]
    requires sid in s.created && StoredAgreesNow(s, sid) && next != s.grants[sid] && IsNew(s, sid, next)
    requires s'.unanswered == s.unanswered + {(sid, s.grants[sid])}
    requires forall q | q in s.resolvers && s.resolvers[q].sid == sid && q != o ::
               Carried(s.resolvers[q].pc).None? && NewToken(s.resolvers[q].pc).None?
    ensures Broken(s', sid)
  {
    assert forall p | p in s'.late :: !IsMutation(p.1);
  }

  /** An exchange executed when its call has gone: the same, whatever the timing of anybody. */
  lemma LateExchangeExactly(s: State, sid: string, next: Option<string>)
    requires Agreement(s) && sid in s.created && StoredAgreesNow(s, sid) && KeepsRule(s, Drift(sid, next))
    ensures var s' := Apply(s, Drift(sid, next));
            && (StoredAgreesNow(s', sid) <==> next == s.grants[sid])
            && (next != s.grants[sid] ==> Broken(s', sid))
  {
    if next != s.grants[sid] {
      forall o | o in s.resolvers && s.resolvers[o].sid == sid ensures PlaceAdrift(s.resolvers[o].pc, next) {
        assert ResolverAgrees(s, o);
      }
      assert forall p | p in s.late :: !IsMutation(p.1);
    }
  }

  /** Under the rule and on time, the agreement is lost by nothing but these. */
  lemma OnlyLossesBreak(s: State, step: Step)
    requires Inv(s) && Agreement(s) && AllOnTime(s) && Enabled(s, step) && KeepsRule(s, step)
    requires !Agreement(Apply(s, step))
    ensures LosesTokens(s, step)
  {
    if Benign(s, step) {
      StepKeepsAgreement(s, step);
    }
  }

  // ---- adrift -----------------------------------------------------------------------------------------

  /** The reading a call has from under the lock, as long as it may still present its token. */
  function Carried(pc: Pc): Option<Session> {
    match pc
    case Judging(phase, found) => if phase.Owning? then found else None
    case Exchanging(read) => Some(read)
    case _ => None
  }

  /** The refresh token an owner is about to store. */
  function NewToken(pc: Pc): Option<Option<string>> {
    match pc
    case Responded(read, reply) =>
      if reply.Tokens? then Some(if reply.refresh.Some? then reply.refresh else read.refreshToken) else None
    case Updating(_, renewed) => Some(renewed.refreshToken)
    case _ => None
  }

  /** Stored, the session would have the endpoint's token. */
  predicate CarriesGrant(x: Session, grant: Option<string>) {
    RedisStore.NonEmpty(x.refreshToken) == grant
  }

  ghost predicate StoredDiffers(s: State, sid: string) {
    && sid in s.created && sid in s.grants
    && (sid in s.store.sessions ==> s.store.sessions[sid].session.refreshToken != s.grants[sid])
  }

  predicate PlaceAdrift(pc: Pc, grant: Option<string>) {
    && (Carried(pc).Some? ==> Carried(pc).value.refreshToken != grant)
    && (NewToken(pc).Some? ==> RedisStore.NonEmpty(NewToken(pc).value) != grant)
  }

  /**
   * Nothing stored, carried, about to be stored or still to be executed is the endpoint's token. All that could
   * mend it is an update that was left behind.
   */
  ghost predicate Adrift(s: State, sid: string) {
    && StoredDiffers(s, sid)
    && (forall o | o in s.resolvers && s.resolvers[o].sid == sid :: PlaceAdrift(s.resolvers[o].pc, s.grants[sid]))
    && (sid, s.grants[sid]) !in s.unanswered
  }

  ghost predicate MendsLate(s: State, sid: string, p: (string, Request))
    requires sid in s.grants
  {
    && p in s.late && p.0 in s.resolvers && s.resolvers[p.0].sid == sid
    && p.1.UpdateRequest? && CarriesGrant(p.1.renewed, s.grants[sid])
  }

  /** Adrift with nothing left that could mend it. */
  ghost predicate Broken(s: State, sid: string) {
    Adrift(s, sid) && !exists p :: MendsLate(s, sid, p)
  }

  lemma LeavesFrame(s: State, step: Step, o: string)
    requires Enabled(s, step) && Leaves(step, o) && o in s.resolvers
    ensures var s' := Apply(s, step);
            && s'.store == s.store && s'.grants == s.grants && s'.created == s.created
            && o in s'.resolvers && s'.resolvers == s.resolvers[o := s'.resolvers[o]]
            && s'.resolvers[o].sid == s.resolvers[o].sid
            && (s'.resolvers[o].pc.Releasing? || Over(s'.resolvers[o].pc))
            && s'.unanswered == s.unanswered + Presented(s.resolvers[o])
            && s'.late == (if Outstanding(s.resolvers[o].pc).Some?
                           then s.late + {(o, Outstanding(s.resolvers[o].pc).value)} else s.late)
  {
  }

  lemma OthersAdrift(s: State, o: string, q: string)
    requires Inv(s) && AllOnTime(s) && o in s.resolvers && q in s.resolvers && q != o
    requires s.resolvers[o].sid == s.resolvers[q].sid && OwnerWork(s.resolvers[o].pc)
    ensures Carried(s.resolvers[q].pc).None? && NewToken(s.resolvers[q].pc).None?
  {
    if OwnerWork(s.resolvers[q].pc) {
      Alone(s, o, q);
    }
  }

  lemma LossSetsAdrift(s: State, step: Step, o: string)
    requires Inv(s) && Agreement(s) && AllOnTime(s) && Enabled(s, step) && Leaves(step, o) && o in s.resolvers
    requires var pc := s.resolvers[o].pc;
             || (pc.Responded? && pc.reply.Tokens? && !SameToken(pc.read, pc.reply))
             || (pc.Updating? && pc.renewed.refreshToken != pc.read.refreshToken)
    ensures Adrift(Apply(s, step), s.resolvers[o].sid)
    ensures s.resolvers[o].pc.Responded? ==> Broken(Apply(s, step), s.resolvers[o].sid)
  {
    CarriedIsStored(s, o);
    LeavesFrame(s, step, o);
    assert ResolverAgrees(s, o);
    forall q | q in s.resolvers && s.resolvers[q].sid == s.resolvers[o].sid && q != o
      ensures Carried(s.resolvers[q].pc).None? && NewToken(s.resolvers[q].pc).None?
    {
      OthersAdrift(s, o, q);
    }
    assert forall p | p in s.late :: !IsMutation(p.1);
    LossAdds(s, Apply(s, step), o, s.resolvers[o].sid);
  }

  lemma LossAdds(s: State, s': State, o: string, sid: string)
    requires o in s.resolvers && s.resolvers[o].sid == sid && o in s'.resolvers
    requires sid in s.created && StoredDiffers(s, sid) && IsNew(s, sid, s.grants[sid])
    requires s'.store == s.store && s'.grants == s.grants && s'.created == s.created && s'.unanswered == s.unanswered
    requires s'.resolvers == s.resolvers[o := s'.resolvers[o]] && s'.resolvers[o].sid == sid
    requires s'.resolvers[o].pc.Releasing? || Over(s'.resolvers[o].pc)
    requires forall q | q in s.resolvers && s.resolvers[q].sid == sid && q != o ::
               Carried(s.resolvers[q].pc).None? && NewToken(s.resolvers[q].pc).None?
    requires forall p | p in s.late :: !IsMutation(p.1)
    ensures Adrift(s', sid)
    ensures s'.late == s.late ==> Broken(s', sid)
  {
  }

  // ---- drifting on --------------------------------------------------------------------------------------

  /**
   * The one thing that mends it: an update with the endpoint's token that was left behind, executed on a live
   * record while its sender holds the live lock.
   */
  ghost predicate Mends(s: State, step: Step, sid: string) {
    && step.Late? && sid in s.grants && MendsLate(s, sid, (step.owner, step.request))
    && HeldBy(s.store, s.now, sid, step.owner) && Readable(s.store, s.now, sid)
  }

  lemma StoredAdrift(s: State, step: Step, s': State, sid: string)
    requires Adrift(s, sid) && Enabled(s, step) && Accounted(s, step, s') && !Mends(s, step, sid)
    ensures sid in s'.store.sessions ==> s'.store.sessions[sid].session.refreshToken != s.grants[sid]
  {
    if s'.log != s.log && s'.log[|s'.log| - 1].Wrote? {
      var e := s'.log[|s'.log| - 1];
      var x :| Runs(s, step, e.who, UpdateRequest(x)) && Readable(s.store, s.now, e.sid)
               && e.session == Refreshed(s.store.sessions[e.sid].session, RedisStore.Normalised(x));
      assert step == Answer(e.who) ==> NewToken(s.resolvers[e.who].pc) == Some(x.refreshToken);
    }
  }

  /** The endpoint answers an exchange on the session with tokens. */
  ghost predicate Refreshes(s: State, step: Step, sid: string) {
    step.Respond? && step.owner in s.resolvers && s.resolvers[step.owner].sid == sid && step.reply.Tokens?
  }

  /** While adrift the endpoint gives no more tokens for the session, and keeps the token it has. */
  lemma NoMoreTokens(s: State, step: Step, sid: string)
    requires Adrift(s, sid) && Enabled(s, step) && KeepsRule(s, step)
    ensures !Refreshes(s, step, sid)
    ensures sid in Apply(s, step).grants && Apply(s, step).grants[sid] == s.grants[sid]
  {
    match step {
      case Answer(q) => AnswerFrame(s, q);
      case Late(q, request) => LateFrame(s, q, request);
      case Respond(q, _, _) => assert s.resolvers[q].sid == sid ==> PlaceAdrift(s.resolvers[q].pc, s.grants[sid]);
      case _ =>
    }
  }

  /** Nor is its token presented by anybody. */
  lemma NeverPresented(s: State, step: Step, sid: string)
    requires Adrift(s, sid) && Enabled(s, step)
    ensures (sid, s.grants[sid]) !in Apply(s, step).unanswered
  {
    if (sid, s.grants[sid]) in Apply(s, step).unanswered {
      NewlyUnanswered(s, step, (sid, s.grants[sid]));
    }
  }

  lemma PlaceStaysAdrift(s: State, step: Step, sid: string, o: string)
    requires StoredDiffers(s, sid) && Enabled(s, step) && !Refreshes(s, step, sid)
    requires o in Apply(s, step).resolvers && Apply(s, step).resolvers[o].sid == sid
    requires o in s.resolvers ==> s.resolvers[o].sid == sid && PlaceAdrift(s.resolvers[o].pc, s.grants[sid])
    ensures PlaceAdrift(Apply(s, step).resolvers[o].pc, s.grants[sid])
  {
    match step {
      case Answer(q) => AnswerCarries(s, q);
      case Late(q, request) => LateFrame(s, q, request);
      case Observe(q) =>
        if q == o { ContinuedAdrift(s, s.resolvers[o], s.grants[sid]); }
      case _ =>
    }
  }

  lemma ContinuedAdrift(s: State, r: Resolver, grant: Option<string>)
    requires Observable(r.pc) && PlaceAdrift(r.pc, grant)
    ensures PlaceAdrift(Continued(s, r).pc, grant)
  {
  }

  /** An answered request hands its caller a reading of the store, or nothing it carries. */
  lemma AnswerCarries(s: State, o: string)
    requires Enabled(s, Answer(o))
    ensures var s' := Apply(s, Answer(o));
            && o in s'.resolvers && s'.resolvers == s.resolvers[o := s'.resolvers[o]]
            && NewToken(s'.resolvers[o].pc).None?
            && (Carried(s'.resolvers[o].pc).Some? ==>
                  Carried(s'.resolvers[o].pc) == Get(s.store, s.now, s.resolvers[o].sid))
  {
    AnswerPlace(s, o);
  }

  lemma PlaceOfSession(s: State, step: Step, sid: string, o: string)
    requires Adrift(s, sid) && Enabled(s, step) && KeepsRule(s, step)
    requires o in Apply(s, step).resolvers && Apply(s, step).resolvers[o].sid == sid
    ensures PlaceAdrift(Apply(s, step).resolvers[o].pc, s.grants[sid])
  {
    NoMoreTokens(s, step, sid);
    if o in s.resolvers { StepResolver(s, step, o); }
    PlaceStaysAdrift(s, step, sid, o);
  }

  lemma StoredStillDiffers(s: State, step: Step, sid: string)
    requires Inv(s) && Adrift(s, sid) && Enabled(s, step) && KeepsRule(s, step) && !Mends(s, step, sid)
    ensures StoredDiffers(Apply(s, step), sid) && Apply(s, step).grants[sid] == s.grants[sid]
  {
    StepAccounted(s, step);
    StepHistory(s, step);
    StoredAdrift(s, step, Apply(s, step), sid);
    NoMoreTokens(s, step, sid);
  }

  lemma StepKeepsAdrift(s: State, step: Step, sid: string)
    requires Inv(s) && Adrift(s, sid) && Enabled(s, step) && KeepsRule(s, step) && !Mends(s, step, sid)
    ensures Adrift(Apply(s, step), sid)
  {
    var s' := Apply(s, step);
    StoredStillDiffers(s, step, sid);
    NeverPresented(s, step, sid);
    forall o | o in s'.resolvers && s'.resolvers[o].sid == sid ensures PlaceAdrift(s'.resolvers[o].pc, s'.grants[sid]) {
      PlaceOfSession(s, step, sid, o);
    }
  }

  /** No update with the endpoint's token is newly left behind. */
  lemma NothingNewMends(s: State, step: Step, sid: string, p: (string, Request))
    requires Inv(s) && Adrift(s, sid) && Enabled(s, step) && KeepsRule(s, step)
    requires sid in Apply(s, step).grants && MendsLate(Apply(s, step), sid, p)
    ensures MendsLate(s, sid, p)
  {
    NoMoreTokens(s, step, sid);
    LateSender(s, step, p);
    if p !in s.late {
      LeftLate(s, step, p);
    }
  }

  /**
   * An update left behind mends the agreement exactly if it carries the endpoint's token and its sender still holds
   * the live lock on a live record.
   */
  lemma MendsExactly(s: State, o: string, x: Session, sid: string)
    requires Inv(s) && Adrift(s, sid) && Enabled(s, Late(o, UpdateRequest(x))) && s.resolvers[o].sid == sid
    ensures StoredAgreesNow(Apply(s, Late(o, UpdateRequest(x))), sid) <==>
            && CarriesGrant(x, s.grants[sid])
            && HeldBy(s.store, s.now, sid, o) && Readable(s.store, s.now, sid)
  {
    var step := Late(o, UpdateRequest(x));
    LateFrame(s, o, UpdateRequest(x));
    if !Mends(s, step, sid) {
      StepAccounted(s, step);
      StoredAdrift(s, step, Apply(s, step), sid);
    }
  }

  lemma BrokenStep(s: State, step: Step, s': State, sid: string)
    requires Inv(s) && Broken(s, sid) && Enabled(s, step) && s' == Apply(s, step) && KeepsRule(s, step)
    ensures Broken(s', sid) && !Refreshes(s, step, sid)
  {
    NoMoreTokens(s, step, sid);
    StepKeepsAdrift(s, step, sid);
    if p :| MendsLate(s', sid, p) {
      NothingNewMends(s, step, sid, p);
    }
  }

  /** A path on which the endpoint keeps its rule. */
  ghost predicate RulePath(states: seq<State>, steps: seq<Step>) {
    Path(states, steps) && forall k {:trigger steps[k]} | 0 <= k < |steps| :: KeepsRule(states[k], steps[k])
  }

  lemma BrokenNext(states: seq<State>, steps: seq<Step>, k: nat, sid: string)
    requires RulePath(states, steps) && k < |steps| && Inv(states[0]) && Broken(states[k], sid)
    ensures Broken(states[k + 1], sid) && !Refreshes(states[k], steps[k], sid)
  {
    PathInv(states, steps, k);
    BrokenStep(states[k], steps[k], states[k + 1], sid);
  }

  lemma {:induction false} BrokenStays(states: seq<State>, steps: seq<Step>, k: nat, sid: string)
    requires RulePath(states, steps) && k < |states| && Inv(states[0]) && Broken(states[0], sid)
    ensures Broken(states[k], sid)
  {
    if k > 0 {
      BrokenStays(states, steps, k - 1, sid);
      BrokenNext(states, steps, k - 1, sid);
    }
  }

  /**
   * Once broken, broken for good: from any state of a run on, as long as the endpoint keeps its rule, and
   * however calls are timed, fail or are left behind, no exchange on the session is ever answered with tokens,
   * and no record agrees again.
   */
  lemma BrokenForGood(states: seq<State>, steps: seq<Step>, i: nat, k: nat, sid: string)
    requires Run(states, steps) && i <= k < |states| && Broken(states[i], sid)
    requires RulePath(states[i..], steps[i..])
    ensures !StoredAgreesNow(states[k], sid)
    ensures k < |steps| ==> !Refreshes(states[k], steps[k], sid)
  {
    RunInv(states, steps, i);
    BrokenStays(states[i..], steps[i..], k - i, sid);
    if k < |steps| {
      BrokenNext(states[i..], steps[i..], k - i, sid);
    }
  }
}
