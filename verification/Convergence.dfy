/** After one refresh is stored, no further exchange starts while the new token stays valid. */
module Convergence {
  import opened Prelude
  import opened Timing
  import opened SessionStore
  import opened Lease
  import opened LeaseInvariant
  import opened LeaseSafety

  /** Nobody working on the session is past its deadline by the whole margin. */
  ghost predicate OnTime(s: State, sid: string) {
    forall o | o in s.resolvers && s.resolvers[o].sid == sid && OwnerWork(s.resolvers[o].pc) ::
      WithinMargin(s, s.resolvers[o])
  }

  /** On the wall clock the expiry is more than the skew away. */
  predicate StillValid(s: State, expiresAt: Option<U64>) {
    expiresAt.Some? ==> (s.epoch + s.now) / 1000 + 30 < expiresAt.value
  }

  predicate IsMutation(request: Request) {
    request.UpdateRequest? || request.InvalidateRequest?
  }

  predicate MutationUnderWay(pc: Pc) {
    pc.Updating? || pc.Invalidating?
  }

  predicate MayMutate(pc: Pc) {
    pc.Exchanging? || pc.Responded? || MutationUnderWay(pc)
  }

  // ---- a resolver has at most one mutation under way ---------------------------------------

  ghost predicate LateSingle(s: State) {
    forall p, q | p in s.late && q in s.late :: IsMutation(p.1) && IsMutation(q.1) && p.0 == q.0 ==> p == q
  }

  /** What a step leaves behind is the request its client had under way. */
  lemma LeftLate(s: State, step: Step, p: (string, Request))
    requires Enabled(s, step) && p in Apply(s, step).late && p !in s.late
    ensures p.0 in s.resolvers && Outstanding(s.resolvers[p.0].pc) == Some(p.1)
  {
    match step {
      case Answer(q) => AnswerLate(s, q);
      case Late(q, request) => LateFrame(s, q, request);
      case _ =>
    }
  }

  lemma AnswerLate(s: State, o: string)
    requires Enabled(s, Answer(o))
    ensures Apply(s, Answer(o)).late == s.late
  {
  }

  lemma LateIsSettled(s: State, p: (string, Request))
    requires LateOk(s) && p in s.late && IsMutation(p.1)
    ensures p.0 in s.resolvers && Settled(s.resolvers[p.0].pc) && s.resolvers[p.0].acquired
  {
    assert LateFits(s, p.1, s.resolvers[p.0]);
  }

  /** A client leaves a mutation behind only from a place where it had none behind already. */
  lemma LateSingleKept(s: State, s': State)
    requires LateOk(s) && LateSingle(s)
    requires forall p | p in s'.late && p !in s.late ::
               p.0 in s.resolvers && Outstanding(s.resolvers[p.0].pc) == Some(p.1)
    ensures LateSingle(s')
  {
    forall p | p in s.late && IsMutation(p.1) ensures p.0 in s.resolvers && Settled(s.resolvers[p.0].pc) {
      LateIsSettled(s, p);
    }
  }

  lemma {:induction false} OneMutationLate(states: seq<State>, steps: seq<Step>, i: nat)
    requires Run(states, steps) && i < |states|
    ensures LateSingle(states[i])
  {
    if i > 0 {
      var s, step, s' := states[i - 1], steps[i - 1], states[i];
      OneMutationLate(states, steps, i - 1);
      RunInv(states, steps, i - 1);
      forall p | p in s'.late && p !in s.late
        ensures p.0 in s.resolvers && Outstanding(s.resolvers[p.0].pc) == Some(p.1)
      {
        LeftLate(s, step, p);
      }
      LateSingleKept(s, s');
    }
  }

  // ---- the quiet period ------------------------------------------------------------------------

  /** Whoever holds the live lock read what is stored. */
  lemma OwnerKnows(s: State, o: string)
    requires Inv(s) && o in s.resolvers && OwnerWork(s.resolvers[o].pc) && WithinMargin(s, s.resolvers[o])
    ensures HeldBy(s.store, s.now, s.resolvers[o].sid, o)
    ensures Knows(s.log, s.resolvers[o])
  {
    assert ResolverOk(s, o) && LockOk(s, s.resolvers[o].sid);
  }

  /** A token that is valid on the wall clock is valid for every call. */
  lemma ValidForAll(s: State, r: Resolver, x: Session)
    requires StillValid(s, x.accessTokenExpiresAt)
    ensures Usable(s, r, x)
  {
    if r.watch.Valid() && r.watch.entry + r.watch.gap <= s.epoch + s.now {
      EffectiveNowBounds(r.watch, s.epoch + s.now);
    }
  }

  ghost predicate StoredIs(s: State, sid: string, y: Session) {
    && sid in s.store.sessions
    && s.store.sessions[sid].session.accessToken == y.accessToken
    && s.store.sessions[sid].session.accessTokenExpiresAt == y.accessTokenExpiresAt
  }

  /** A result a call may have once `y` is stored; only when the session is gone may it ask for a new login. */
  predicate Fits(result: Outcome, y: Session, gone: bool) {
    || result == TemporarilyUnavailable
    || result == Ready(y.accessToken)
    || (gone && result == ReauthenticationRequired)
  }

  /** The call holds no reading and no result from before `y`. Waiting, reading and asking places hold none. */
  predicate NothingOlder(pc: Pc, y: Session, gone: bool) {
    match pc
    case Judging(_, found) =>
      if found.None? then gone
      else found.value.accessToken == y.accessToken && found.value.accessTokenExpiresAt == y.accessTokenExpiresAt
    case Updated(token, outcome) => Fits(AfterUpdate(token, outcome), y, gone)
    case Invalidated(outcome) => Fits(AfterInvalidation(outcome), y, gone)
    case Releasing(result) => Fits(result, y, gone)
    case Freed(result, _) => Fits(result, y, gone)
    case Done(result, _) => Fits(result, y, gone)
    case _ => true
  }

  predicate Gone(s: State, sid: string) {
    !Readable(s.store, s.now, sid)
  }

  ghost predicate Calm(s: State, sid: string, y: Session, veterans: set<string>) {
    && sid in s.created && StoredIs(s, sid, y)
    && (forall o | o in s.resolvers && s.resolvers[o].sid == sid :: !MayMutate(s.resolvers[o].pc))
    && (forall p | p in s.late && IsMutation(p.1) && p.0 in s.resolvers && s.resolvers[p.0].sid == sid :: Lost(s, p.0))
    && (forall o | o in s.resolvers && o !in veterans && s.resolvers[o].sid == sid ::
          NothingOlder(s.resolvers[o].pc, y, Gone(s, sid)))
  }

  /** The step is a write on the session by `who`, of the request `x`. */
  ghost predicate Writes(s: State, step: Step, sid: string, who: string, x: Session, y: Session) {
    && Enabled(s, step) && Runs(s, step, who, UpdateRequest(x)) && s.resolvers[who].sid == sid
    && HeldBy(s.store, s.now, sid, who) && sid in s.store.sessions
    && Apply(s, step).store ==
       s.store.(sessions := s.store.sessions[sid := s.store.sessions[sid].(session := y)])
  }

  lemma WriteFound(s: State, step: Step, sid: string, who: string, y: Session) returns (x: Session)
    requires Inv(s) && Enabled(s, step) && Apply(s, step).log == s.log + [Wrote(sid, who, y)]
    ensures Writes(s, step, sid, who, x, y)
  {
    StepAccounted(s, step);
    assert Explains(s, step, Apply(s, step), Wrote(sid, who, y));
    x :| Runs(s, step, who, UpdateRequest(x));
  }

  /** A write moves only its writer, away from the update. */
  lemma WriterMoves(s: State, step: Step, sid: string, who: string, x: Session, y: Session)
    requires LateOk(s) && Writes(s, step, sid, who, x, y)
    ensures var s' := Apply(s, step);
            && who in s'.resolvers && s'.resolvers == s.resolvers[who := s'.resolvers[who]]
            && s'.resolvers[who].sid == sid
            && (s'.resolvers[who].pc.Updated? || Settled(s'.resolvers[who].pc))
            && s'.late <= s.late
  {
    if step.Late? {
      LateIsSettled(s, (who, UpdateRequest(x)));
      LateFrame(s, who, step.request);
    } else {
      AnswerLate(s, who);
      AnswerFrame(s, who);
    }
  }

  /** It leaves the writer no further mutation. */
  lemma WriterDone(s: State, step: Step, sid: string, who: string, x: Session, y: Session, p: (string, Request))
    requires LateOk(s) && LateSingle(s) && Writes(s, step, sid, who, x, y)
    requires p in Apply(s, step).late && IsMutation(p.1)
    ensures p in s.late && p.0 != who
  {
    WriterMoves(s, step, sid, who, x, y);
    LateIsSettled(s, p);
    if step.Late? {
      LateFrame(s, who, step.request);
    }
  }

  /** While one resolver holds the live lock, no other is at work on the session in time. */
  lemma NobodyElse(s: State, sid: string, who: string, o: string)
    requires Inv(s) && OnTime(s, sid) && HeldBy(s.store, s.now, sid, who)
    requires o in s.resolvers && s.resolvers[o].sid == sid && OwnerWork(s.resolvers[o].pc)
    ensures o == who
  {
    OwnerKnows(s, o);
  }

  lemma LeftoversLost(s: State, step: Step, sid: string, who: string, x: Session, y: Session, p: (string, Request))
    requires Inv(s) && LateSingle(s) && Writes(s, step, sid, who, x, y)
    requires p in Apply(s, step).late && IsMutation(p.1) && p.0 in s.resolvers && s.resolvers[p.0].sid == sid
    ensures Lost(Apply(s, step), p.0)
  {
    WriterDone(s, step, sid, who, x, y, p);
    LateIsSettled(s, p);
    assert Lost(s, p.0);
    LostStays(s, step, p.0);
  }

  lemma WriteIsStored(s: State, step: Step, sid: string, who: string, x: Session, y: Session)
    requires SessionOk(s, sid) && Writes(s, step, sid, who, x, y)
    ensures sid in Apply(s, step).created && StoredIs(Apply(s, step), sid, y)
  {
    StepHistory(s, step);
  }

  lemma WriteLeavesNobody(s: State, s': State, sid: string, who: string, o: string)
    requires Inv(s) && OnTime(s, sid) && HeldBy(s.store, s.now, sid, who) && who in s'.resolvers
    requires s'.resolvers == s.resolvers[who := s'.resolvers[who]]
    requires s'.resolvers[who].pc.Updated? || Settled(s'.resolvers[who].pc)
    requires o in s'.resolvers && s'.resolvers[o].sid == sid
    ensures !MayMutate(s'.resolvers[o].pc)
  {
    if o != who && OwnerWork(s.resolvers[o].pc) {
      NobodyElse(s, sid, who, o);
    }
  }

  /** The calls that hold something older. */
  ghost function Veterans(s: State, y: Session): set<string> {
    set o | o in s.resolvers && !NothingOlder(s.resolvers[o].pc, y, false)
  }

  /** At the moment of a write nobody else can still mutate the session. */
  lemma WriteCalms(s: State, step: Step, sid: string, who: string, y: Session)
    requires Inv(s) && LateSingle(s) && OnTime(s, sid) && Enabled(s, step)
    requires Apply(s, step).log == s.log + [Wrote(sid, who, y)]
    ensures Calm(Apply(s, step), sid, y, Veterans(Apply(s, step), y))
  {
    var x := WriteFound(s, step, sid, who, y);
    var s' := Apply(s, step);
    WriteIsStored(s, step, sid, who, x, y);
    WriterMoves(s, step, sid, who, x, y);
    forall o | o in s'.resolvers && s'.resolvers[o].sid == sid ensures !MayMutate(s'.resolvers[o].pc) {
      WriteLeavesNobody(s, s', sid, who, o);
    }
    forall p | p in s'.late && IsMutation(p.1) && p.0 in s'.resolvers && s'.resolvers[p.0].sid == sid
      ensures Lost(s', p.0)
    {
      LeftoversLost(s, step, sid, who, x, y, p);
    }
    forall o | o in s'.resolvers && o !in Veterans(s', y) && s'.resolvers[o].sid == sid
      ensures NothingOlder(s'.resolvers[o].pc, y, Gone(s', sid))
    {
      OlderWhenGone(s'.resolvers[o].pc, y, Gone(s', sid));
    }
  }

  lemma OlderWhenGone(pc: Pc, y: Session, gone: bool)
    requires NothingOlder(pc, y, false)
    ensures NothingOlder(pc, y, gone)
  {
  }

  /** The only way into an exchange: an owner that read an expiring record under the lock. */
  lemma EntersExchange(s: State, step: Step, o: string)
    requires Enabled(s, step) && o in Apply(s, step).resolvers && MayMutate(Apply(s, step).resolvers[o].pc)
    requires o in s.resolvers ==> !MayMutate(s.resolvers[o].pc)
    ensures o in s.resolvers && step == Observe(o)
    ensures var pc := s.resolvers[o].pc;
            && pc.Judging? && pc.phase.Owning? && pc.found.Some?
            && !Usable(s, s.resolvers[o], pc.found.value)
            && Apply(s, step).resolvers[o].pc == Exchanging(pc.found.value)
  {
    match step {
      case Answer(q) => AnswerPlace(s, q);
      case Late(q, request) => LateFrame(s, q, request);
      case _ =>
    }
  }

  lemma AnswerPlace(s: State, o: string)
    requires Enabled(s, Answer(o))
    ensures var pc := s.resolvers[o].pc;
            var s' := Apply(s, Answer(o));
            && o in s'.resolvers && s'.resolvers == s.resolvers[o := s'.resolvers[o]]
            && s'.resolvers[o].sid == s.resolvers[o].sid
            && match s'.resolvers[o].pc
               case Judging(phase, found) =>
                 pc == Reading(phase) && found == Get(s.store, s.now, s.resolvers[o].sid)
               case Updated(token, _) => pc.Updating? && token == pc.renewed.accessToken
               case Freed(result, _) => pc == Releasing(result)
               case pc' => pc'.Granted? || pc'.Refused? || pc'.Invalidated?
  {
    AnswerFrame(s, o);
  }

  /** In the quiet period whoever has a mutation executed does not hold the lock. */
  lemma CalmRuns(s: State, step: Step, sid: string, y: Session, veterans: set<string>, o: string, request: Request)
    requires Calm(s, sid, y, veterans) && Enabled(s, step) && Runs(s, step, o, request) && IsMutation(request)
    requires s.resolvers[o].sid == sid
    ensures !HeldBy(s.store, s.now, sid, o)
  {
    if step.Late? {
      assert (o, request) in s.late;
    }
  }

  lemma CalmKeepsStored(s: State, step: Step, s': State, sid: string, y: Session)
    requires StoredIs(s, sid, y) && sid in s.created && Accounted(s, step, s')
    requires forall o, request | Runs(s, step, o, request) && IsMutation(request) && s.resolvers[o].sid == sid ::
               !HeldBy(s.store, s.now, sid, o)
    ensures StoredIs(s', sid, y)
  {
  }

  lemma CalmKeepsOut(s: State, step: Step, sid: string, y: Session, veterans: set<string>, o: string)
    requires Calm(s, sid, y, veterans) && Inv(s) && OnTime(s, sid) && StillValid(s, y.accessTokenExpiresAt)
    requires Enabled(s, step) && o in Apply(s, step).resolvers && Apply(s, step).resolvers[o].sid == sid
    requires o in s.resolvers ==> s.resolvers[o].sid == sid
    ensures !MayMutate(Apply(s, step).resolvers[o].pc)
  {
    if MayMutate(Apply(s, step).resolvers[o].pc) {
      EntersExchange(s, step, o);
      OwnerReadsStored(s, o);
      ValidForAll(s, s.resolvers[o], s.resolvers[o].pc.found.value);
    }
  }

  /** What an owner found under the lock is what is stored. */
  lemma OwnerReadsStored(s: State, o: string)
    requires Inv(s) && o in s.resolvers && WithinMargin(s, s.resolvers[o])
    requires var pc := s.resolvers[o].pc; pc.Judging? && pc.phase.Owning? && pc.found.Some?
    ensures var sid := s.resolvers[o].sid;
            sid in s.store.sessions && s.store.sessions[sid].session == s.resolvers[o].pc.found.value
  {
    OwnerKnows(s, o);
    assert SessionOk(s, s.resolvers[o].sid);
  }

  lemma CalmKeepsLost(s: State, step: Step, sid: string, y: Session, veterans: set<string>, p: (string, Request))
    requires Calm(s, sid, y, veterans) && Inv(s) && Enabled(s, step)
    requires p in Apply(s, step).late && IsMutation(p.1) && p.0 in s.resolvers && s.resolvers[p.0].sid == sid
    ensures Lost(Apply(s, step), p.0)
  {
    if p !in s.late {
      LeftLate(s, step, p);
    }
    LostStays(s, step, p.0);
  }

  lemma CalmKeepsNothingOlder(s: State, step: Step, sid: string, y: Session, o: string)
    requires Inv(s) && Enabled(s, step) && StoredIs(s, sid, y) && sid in s.created
    requires StillValid(s, y.accessTokenExpiresAt)
    requires o in Apply(s, step).resolvers && Apply(s, step).resolvers[o].sid == sid
    requires o in s.resolvers ==>
               s.resolvers[o].sid == sid && !MayMutate(s.resolvers[o].pc)
               && NothingOlder(s.resolvers[o].pc, y, Gone(s, sid))
    ensures NothingOlder(Apply(s, step).resolvers[o].pc, y, Gone(Apply(s, step), sid))
  {
    StepAccounted(s, step);
    StepHistory(s, step);
    if Gone(s, sid) {
      StaysUnreadable(s, step, Apply(s, step), sid);
    }
    if o in s.resolvers {
      PlaceKeepsNothingOlder(s, step, sid, y, o, Gone(s, sid));
      LaterGone(Apply(s, step).resolvers[o].pc, y, Gone(s, sid), Gone(Apply(s, step), sid));
    } else {
      Newcomer(s, step, o);
    }
  }

  lemma LaterGone(pc: Pc, y: Session, gone: bool, later: bool)
    requires NothingOlder(pc, y, gone) && (gone ==> later)
    ensures NothingOlder(pc, y, later)
  {
  }

  lemma PlaceKeepsNothingOlder(s: State, step: Step, sid: string, y: Session, o: string, gone: bool)
    requires Enabled(s, step) && StoredIs(s, sid, y) && StillValid(s, y.accessTokenExpiresAt)
    requires gone == Gone(s, sid) && o in s.resolvers && o in Apply(s, step).resolvers
    requires s.resolvers[o].sid == sid && !MayMutate(s.resolvers[o].pc) && NothingOlder(s.resolvers[o].pc, y, gone)
    ensures NothingOlder(Apply(s, step).resolvers[o].pc, y, gone)
  {
    match step {
      case Answer(q) => AnswerPlace(s, q);
      case Late(q, request) => LateFrame(s, q, request);
      case Observe(q) =>
        if q == o { JudgingKeepsNothingOlder(s, y, s.resolvers[o], gone); }
      case _ =>
    }
  }

  lemma JudgingKeepsNothingOlder(s: State, y: Session, r: Resolver, gone: bool)
    requires Observable(r.pc) && !MayMutate(r.pc) && NothingOlder(r.pc, y, gone)
    requires StillValid(s, y.accessTokenExpiresAt)
    ensures NothingOlder(Continued(s, r).pc, y, gone)
  {
    if r.pc.Judging? && r.pc.found.Some? {
      ValidForAll(s, r, r.pc.found.value);
    }
  }

  lemma LateSender(s: State, step: Step, p: (string, Request))
    requires LateOk(s) && Enabled(s, step) && p in Apply(s, step).late
    ensures p.0 in s.resolvers && p.0 in Apply(s, step).resolvers
    ensures Apply(s, step).resolvers[p.0].sid == s.resolvers[p.0].sid
  {
    if p !in s.late {
      LeftLate(s, step, p);
    }
    StepResolver(s, step, p.0);
  }

  lemma StepKeepsCalm(s: State, step: Step, sid: string, y: Session, veterans: set<string>)
    requires Calm(s, sid, y, veterans) && Inv(s) && OnTime(s, sid) && StillValid(s, y.accessTokenExpiresAt)
    requires Enabled(s, step)
    ensures Calm(Apply(s, step), sid, y, veterans)
  {
    var s' := Apply(s, step);
    StepAccounted(s, step);
    StepHistory(s, step);
    forall o, request | Runs(s, step, o, request) && IsMutation(request) && s.resolvers[o].sid == sid
      ensures !HeldBy(s.store, s.now, sid, o)
    {
      CalmRuns(s, step, sid, y, veterans, o, request);
    }
    CalmKeepsStored(s, step, s', sid, y);
    forall o | o in s'.resolvers && s'.resolvers[o].sid == sid ensures !MayMutate(s'.resolvers[o].pc) {
      if o in s.resolvers { StepResolver(s, step, o); }
      CalmKeepsOut(s, step, sid, y, veterans, o);
    }
    forall p | p in s'.late && IsMutation(p.1) && p.0 in s'.resolvers && s'.resolvers[p.0].sid == sid
      ensures Lost(s', p.0)
    {
      LateSender(s, step, p);
      CalmKeepsLost(s, step, sid, y, veterans, p);
    }
    forall o | o in s'.resolvers && o !in veterans && s'.resolvers[o].sid == sid
      ensures NothingOlder(s'.resolvers[o].pc, y, Gone(s', sid))
    {
      if o in s.resolvers { StepResolver(s, step, o); }
      CalmKeepsNothingOlder(s, step, sid, y, o);
    }
  }

  lemma {:induction false} QuietPeriod(
      states: seq<State>, steps: seq<Step>, i: nat, j: nat, sid: string, who: string, y: Session)
    requires Run(states, steps) && i < j < |states|
    requires states[i + 1].log == states[i].log + [Wrote(sid, who, y)]
    requires forall k | i <= k < j :: OnTime(states[k], sid)
    requires forall k | i < k < j :: StillValid(states[k], y.accessTokenExpiresAt)
    ensures Calm(states[j], sid, y, Veterans(states[i + 1], y))
  {
    RunInv(states, steps, j - 1);
    if j == i + 1 {
      OneMutationLate(states, steps, i);
      WriteCalms(states[i], steps[i], sid, who, y);
    } else {
      QuietPeriod(states, steps, i, j - 1, sid, who, y);
      StepKeepsCalm(states[j - 1], steps[j - 1], sid, y, Veterans(states[i + 1], y));
    }
  }

  /**
   * Once a refresh is stored, and while its expiry stays more than the skew away and no owner overruns its
   * lease, no resolver of the session exchanges a refresh token, however many there are, and the stored token
   * stays. Every call that holds nothing older at the write, be it waiting, asking, the writer itself or yet to
   * come, ends with that token or fails closed as long as the session lives.
   */
  lemma OneExchangeServesAll(
      states: seq<State>, steps: seq<Step>, i: nat, j: nat, sid: string, who: string, y: Session, o: string)
    requires Run(states, steps) && i < j < |states|
    requires states[i + 1].log == states[i].log + [Wrote(sid, who, y)]
    requires forall k | i <= k < j :: OnTime(states[k], sid)
    requires forall k | i < k < j :: StillValid(states[k], y.accessTokenExpiresAt)
    requires o in states[j].resolvers && states[j].resolvers[o].sid == sid
    ensures var s, was := states[j], states[i + 1].resolvers;
            && !s.resolvers[o].pc.Exchanging? && !s.resolvers[o].pc.Responded?
            && sid in s.created
            && (s.now < s.created[sid].expiresAt ==>
                  && Readable(s.store, s.now, sid) && s.store.sessions[sid].session.accessToken == y.accessToken
                  && ((o in was ==> NothingOlder(was[o].pc, y, false)) && s.resolvers[o].pc.Done? ==>
                        s.resolvers[o].pc.result in {Ready(y.accessToken), TemporarilyUnavailable}))
  {
    QuietPeriod(states, steps, i, j, sid, who, y);
    RunInv(states, steps, j);
    assert SessionOk(states[j], sid);
  }

  /** The writer holds nothing older: it is about to hand out what it stored, or has failed already. */
  lemma WriterHoldsNothingOlder(s: State, step: Step, sid: string, who: string, y: Session)
    requires Inv(s) && Enabled(s, step) && Apply(s, step).log == s.log + [Wrote(sid, who, y)]
    requires step.Answer?
    ensures who in Apply(s, step).resolvers && NothingOlder(Apply(s, step).resolvers[who].pc, y, false)
  {
    StepAccounted(s, step);
    assert Explains(s, step, Apply(s, step), Wrote(sid, who, y));
    AnswerPlace(s, who);
  }
}
