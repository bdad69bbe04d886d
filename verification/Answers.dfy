/** What the answer of a call means, over runs. */
module Answers {
  import opened Prelude
  import opened SessionStore
  import opened Lease
  import opened LeaseSafety

  /** The call's own clock, in seconds: its base second and the whole seconds since. */
  ghost function Clock(s: State, r: Resolver): int {
    r.watch.entry / 1000 + (s.epoch + s.now - r.watch.entry - r.watch.gap) / 1000
  }

  /** The access token is good by that clock: it has no expiry, or one more than 30 seconds ahead. */
  ghost predicate Good(s: State, r: Resolver, x: Session) {
    x.accessTokenExpiresAt.None? || Clock(s, r) + 30 < x.accessTokenExpiresAt.value
  }

  ghost predicate ClockOk(s: State, r: Resolver) {
    r.watch.Valid() && r.watch.entry + r.watch.gap <= s.epoch + s.now
  }

  lemma GoodExactly(s: State, r: Resolver, x: Session)
    requires ClockOk(s, r)
    ensures Good(s, r, x) <==> Usable(s, r, x)
  {
  }

  // ---- calls that never took the lease ---------------------------------------------------------

  /** The step that ends a call outside the lease, and the answer it gives. */
  ghost predicate Answers(s: State, step: Step, o: string, result: Outcome) {
    o in s.resolvers &&
    var r := s.resolvers[o];
    match result
    case Ready(token) =>
      && step == Observe(o) && r.pc.Judging? && !r.pc.phase.Owning? && r.pc.found.Some?
      && Good(s, r, r.pc.found.value) && r.pc.found.value.accessToken == token
    case ReauthenticationRequired =>
      && step == Observe(o) && r.pc.Judging? && !r.pc.phase.Owning?
      && (r.pc.found.Some? ==> !Good(s, r, r.pc.found.value) && r.pc.found.value.refreshToken.None?)
    case TemporarilyUnavailable =>
      || step == Fail(o)
      || (&& step == Observe(o) && s.now >= r.waitStart + 40_000
          && (|| r.pc.Refused?
              || (&& r.pc.Judging? && r.pc.phase.Polling? && r.pc.found.Some?
                  && !Good(s, r, r.pc.found.value) && r.pc.found.value.refreshToken.Some?)))
  }

  lemma EndStep(s: State, step: Step, o: string)
    requires Enabled(s, step) && o in s.resolvers && !s.resolvers[o].pc.Done? && ClockOk(s, s.resolvers[o])
    requires o in Apply(s, step).resolvers
    requires Apply(s, step).resolvers[o].pc.Done? && !Apply(s, step).resolvers[o].pc.viaLock
    ensures Answers(s, step, o, Apply(s, step).resolvers[o].pc.result)
  {
    match step {
      case Answer(q) => AnswerFrame(s, q);
      case Late(q, request) => LateFrame(s, q, request);
      case Observe(q) => EndObserve(s, s.resolvers[o]);
      case _ =>
    }
  }

  lemma EndObserve(s: State, r: Resolver)
    requires Observable(r.pc) && ClockOk(s, r)
    ensures var pc := Continued(s, r).pc;
            pc.Done? && !pc.viaLock ==>
              match pc.result
              case Ready(token) =>
                && r.pc.Judging? && !r.pc.phase.Owning? && r.pc.found.Some?
                && Good(s, r, r.pc.found.value) && r.pc.found.value.accessToken == token
              case ReauthenticationRequired =>
                && r.pc.Judging? && !r.pc.phase.Owning?
                && (r.pc.found.Some? ==> !Good(s, r, r.pc.found.value) && r.pc.found.value.refreshToken.None?)
              case TemporarilyUnavailable =>
                && s.now >= r.waitStart + 40_000
                && (|| r.pc.Refused?
                    || (&& r.pc.Judging? && r.pc.phase.Polling? && r.pc.found.Some?
                        && !Good(s, r, r.pc.found.value) && r.pc.found.value.refreshToken.Some?))
  {
    if r.pc.Judging? && r.pc.found.Some? {
      GoodExactly(s, r, r.pc.found.value);
    }
  }

  lemma DoneStays(s: State, step: Step, o: string)
    requires Enabled(s, step) && o in s.resolvers && s.resolvers[o].pc.Done?
    ensures o in Apply(s, step).resolvers && Apply(s, step).resolvers[o].pc == s.resolvers[o].pc
  {
    match step {
      case Answer(q) => AnswerFrame(s, q);
      case Late(q, request) => LateFrame(s, q, request);
      case _ =>
    }
  }

  /** The step at which a call's answer was fixed. */
  lemma {:induction false} EndingStep(states: seq<State>, steps: seq<Step>, i: nat, o: string) returns (k: nat)
    requires Run(states, steps) && i < |states| && o in states[i].resolvers && states[i].resolvers[o].pc.Done?
    ensures k < i && o in states[k].resolvers && !states[k].resolvers[o].pc.Done?
    ensures o in states[k + 1].resolvers && states[k + 1].resolvers[o].pc == states[i].resolvers[o].pc
  {
    if o !in states[i - 1].resolvers {
      Newcomer(states[i - 1], steps[i - 1], o);
    } else if states[i - 1].resolvers[o].pc.Done? {
      DoneStays(states[i - 1], steps[i - 1], o);
      k := EndingStep(states, steps, i - 1, o);
    } else {
      k := i - 1;
    }
  }

  /** At `r` the store answered the call's read, and from then to `k` the call looks at what it found. */
  ghost predicate WasRead(states: seq<State>, steps: seq<Step>, r: nat, k: nat, o: string, found: Option<Session>)
    requires r < k < |states| && k <= |steps|
  {
    && steps[r] == Answer(o) && o in states[r].resolvers && states[r].resolvers[o].pc.Reading?
    && (var st, sid := states[r].store, states[r].resolvers[o].sid;
        if sid in st.sessions && states[r].now < st.sessions[sid].expiresAt
        then found == Some(st.sessions[sid].session) else found == None)
    && forall j | r < j <= k ::
         o in states[j].resolvers && states[j].resolvers[o].pc.Judging? && states[j].resolvers[o].pc.found == found
  }

  lemma JudgingNext(s: State, step: Step, o: string)
    requires Enabled(s, step) && o in Apply(s, step).resolvers && Apply(s, step).resolvers[o].pc.Judging?
    ensures o in s.resolvers
    ensures || s.resolvers[o].pc == Apply(s, step).resolvers[o].pc
            || (&& step == Answer(o) && s.resolvers[o].pc.Reading?
                && Apply(s, step).resolvers[o].pc.found == Get(s.store, s.now, s.resolvers[o].sid))
  {
    match step {
      case Answer(q) => AnswerFrame(s, q);
      case Late(q, request) => LateFrame(s, q, request);
      case _ =>
    }
  }

  /** A reading is what the store held when it was last asked. */
  lemma {:induction false} LastRead(states: seq<State>, steps: seq<Step>, k: nat, o: string) returns (r: nat)
    requires Run(states, steps) && k < |states| && o in states[k].resolvers && states[k].resolvers[o].pc.Judging?
    ensures r < k && WasRead(states, steps, r, k, o, states[k].resolvers[o].pc.found)
  {
    JudgingNext(states[k - 1], steps[k - 1], o);
    if states[k - 1].resolvers[o].pc == states[k].resolvers[o].pc {
      r := LastRead(states, steps, k - 1, o);
    } else {
      r := k - 1;
    }
  }

  /**
   * What a call answers that never took the lease, and why: its token if and only if the last read found a record
   * with that token, good by the call's clock when it was looked at; asking for a new login if and only if that
   * read found nothing, or a record no longer good and without a refresh token; and closed only after a failure
   * of the call, or 40 seconds after its wait began.
   */
  lemma AnswerWithoutLease(states: seq<State>, steps: seq<Step>, i: nat, o: string) returns (k: nat, r: nat)
    requires Run(states, steps) && i < |states| && o in states[i].resolvers
    requires states[i].resolvers[o].pc.Done? && !states[i].resolvers[o].pc.viaLock
    ensures k < i && o in states[k].resolvers && !states[k].resolvers[o].pc.Done?
    ensures forall answer :: Answers(states[k], steps[k], o, answer) <==> answer == states[i].resolvers[o].pc.result
    ensures states[k].resolvers[o].pc.Judging? ==>
              r < k && WasRead(states, steps, r, k, o, states[k].resolvers[o].pc.found)
  {
    k := EndingStep(states, steps, i, o);
    ClockReads(states, steps, k, o);
    EndStep(states[k], steps[k], o);
    r := 0;
    if states[k].resolvers[o].pc.Judging? {
      r := LastRead(states, steps, k, o);
    }
  }

  /** A fresh token is handed out at once: three steps of the call, and nothing in the store or its history moves. */
  lemma FreshTokenIsHandedOut(s: State, o: string, sid: string, gap: nat)
    requires Enabled(s, Start(o, sid, gap)) && Readable(s.store, s.now, sid)
    requires var e := s.store.sessions[sid].session.accessTokenExpiresAt;
             e.None? || (s.epoch + s.now - gap) / 1000 + 30 < e.value
    ensures var t := Apply(s, Start(o, sid, gap));
            Enabled(t, Answer(o)) &&
            var u := Apply(t, Answer(o));
            Enabled(u, Observe(o)) &&
            var v := Apply(u, Observe(o));
            && o in v.resolvers
            && v.resolvers[o].pc == Done(Ready(s.store.sessions[sid].session.accessToken), false)
            && v.store == s.store && v.log == s.log && v.grants == s.grants
  {
  }

  /**
   * A waiter that is refused the lease in time sleeps and looks again. It hands out the token it then finds if that
   * is good; asks for the lease again if the record is past use and can be refreshed, unless the time is up.
   */
  lemma WaiterLooksAgain(s: State, o: string, later: nat)
    requires o in s.resolvers && s.resolvers[o].pc.Refused? && ClockOk(s, s.resolvers[o])
    requires s.now < s.resolvers[o].waitStart + 40_000 && s.now <= later
    requires Readable(s.store, later, s.resolvers[o].sid)
    ensures Enabled(s, Observe(o)) &&
            var asleep := Apply(s, Observe(o));
            Enabled(asleep, Tick(later)) &&
            var awake := Apply(asleep, Tick(later));
            Enabled(awake, Observe(o)) &&
            var asking := Apply(awake, Observe(o));
            Enabled(asking, Answer(o)) &&
            var told := Apply(asking, Answer(o));
            Enabled(told, Observe(o)) &&
            var after := Apply(told, Observe(o));
            o in after.resolvers && after.store == s.store && after.log == s.log
            && var x, r := s.store.sessions[s.resolvers[o].sid].session, after.resolvers[o];
               if Good(awake, s.resolvers[o], x) then r.pc == Done(Ready(x.accessToken), false)
               else if x.refreshToken.None? then r.pc == Done(ReauthenticationRequired, false)
               else if later < s.resolvers[o].waitStart + 40_000 then r.pc == Attempting && r.attemptAt == later
               else r.pc == Done(TemporarilyUnavailable, false)
  {
    var awake := Apply(Apply(s, Observe(o)), Tick(later));
    GoodExactly(awake, s.resolvers[o], s.store.sessions[s.resolvers[o].sid].session);
    var told := Apply(Apply(awake, Observe(o)), Answer(o));
    assert EffectiveNow(told, told.resolvers[o]) == EffectiveNow(awake, s.resolvers[o]);
  }

  // ---- how long a call keeps asking -------------------------------------------------------------

  predicate Waiting(pc: Pc) {
    pc.Attempting? || pc.Refused? || pc.Sleeping?
    || (pc.Reading? && pc.phase.Polling?) || (pc.Judging? && pc.phase.Polling?) || InSection(pc)
  }

  ghost predicate AskedInTime(s: State, r: Resolver) {
    Waiting(r.pc) ==> r.waitStart <= r.attemptAt < r.waitStart + 40_000 && r.attemptAt <= s.now
  }

  lemma AskedNext(s: State, step: Step, o: string)
    requires Enabled(s, step) && o in Apply(s, step).resolvers
    requires o in s.resolvers ==> AskedInTime(s, s.resolvers[o])
    ensures AskedInTime(Apply(s, step), Apply(s, step).resolvers[o])
  {
    match step {
      case Answer(q) => AnswerFrame(s, q); if q == o { AnswerWaits(s, o); }
      case Late(q, request) => LateFrame(s, q, request);
      case Observe(q) => if q == o { ContinuedWaits(s, s.resolvers[o]); }
      case _ =>
    }
  }

  lemma AnswerWaits(s: State, o: string)
    requires Enabled(s, Answer(o)) && o in Apply(s, Answer(o)).resolvers
    ensures Waiting(Apply(s, Answer(o)).resolvers[o].pc) ==> Waiting(s.resolvers[o].pc)
  {
  }

  lemma ContinuedWaits(s: State, r: Resolver)
    requires Observable(r.pc) && AskedInTime(s, r)
    ensures AskedInTime(s, Continued(s, r))
  {
  }

  lemma AskedStep(states: seq<State>, steps: seq<Step>, k: nat, o: string)
    requires Run(states, steps) && k < |steps| && o in states[k + 1].resolvers
    requires o in states[k].resolvers ==> AskedInTime(states[k], states[k].resolvers[o])
    ensures AskedInTime(states[k + 1], states[k + 1].resolvers[o])
  {
    AskedNext(states[k], steps[k], o);
  }

  /** Every attempt falls in the 40 seconds after the call's wait began. */
  lemma {:induction false} AttemptsInTime(states: seq<State>, steps: seq<Step>, i: nat, o: string)
    requires Run(states, steps) && i < |states| && o in states[i].resolvers
    ensures AskedInTime(states[i], states[i].resolvers[o])
  {
    if i > 0 {
      if o in states[i - 1].resolvers {
        AttemptsInTime(states, steps, i - 1, o);
      }
      AskedStep(states, steps, i - 1, o);
    }
  }

  // ---- owners --------------------------------------------------------------------------------------

  /** The step at which an owner makes up its mind, and its reason. */
  ghost predicate Decides(s: State, step: Step, o: string, result: Outcome) {
    o in s.resolvers &&
    var r := s.resolvers[o];
    || ((step == Fail(o) || step == Cancel(o)) && OwnerWork(r.pc) && result == TemporarilyUnavailable)
    || (&& step == Observe(o)
        && match r.pc
           case Granted => s.now >= r.attemptAt + 25_000 && result == TemporarilyUnavailable
           case Judging(phase, found) =>
             && phase.Owning?
             && (if found.None? then result == ReauthenticationRequired
                 else if Good(s, r, found.value) then result == Ready(found.value.accessToken)
                 else found.value.refreshToken.None? && result == ReauthenticationRequired)
           case Responded(_, reply) => reply == Failed && result == TemporarilyUnavailable
           case Updated(token, outcome) =>
             (match outcome
              case Applied => result == Ready(token)
              case SessionMissing => result == ReauthenticationRequired
              case OwnershipLost => result == TemporarilyUnavailable)
           case Invalidated(outcome) =>
             (match outcome
              case Applied => result == ReauthenticationRequired
              case SessionMissing => result == ReauthenticationRequired
              case OwnershipLost => result == TemporarilyUnavailable)
           case _ => false)
  }

  /**
   * A call may fail wherever it waits for the store or for discovery, and right after: not while it sleeps, and not
   * at the token endpoint, whose failure is an answer. An owner at work releases then, and any other call is over.
   */
  lemma FailureExactly(s: State, o: string)
    requires o in s.resolvers
    ensures var pc := s.resolvers[o].pc;
            Enabled(s, Fail(o)) <==>
            !(pc.Sleeping? || pc.Exchanging? || pc.Responded? || pc.Done? || pc.Gone?)
    ensures Enabled(s, Fail(o)) ==>
              var pc, s' := s.resolvers[o].pc, Apply(s, Fail(o));
              && o in s'.resolvers && s'.store == s.store
              && s'.resolvers[o].pc ==
                 if OwnerWork(pc) then Releasing(TemporarilyUnavailable)
                 else Done(TemporarilyUnavailable, pc.Releasing? || pc.Freed?)
  {
  }

  /** From its deadline on, 25 seconds after it asked, and not before, an owner at work can be cut off. */
  lemma OwnerIsCutOff(s: State, o: string)
    requires o in s.resolvers && OwnerWork(s.resolvers[o].pc)
    ensures Enabled(s, Cancel(o)) <==> s.now >= s.resolvers[o].attemptAt + 25_000
    ensures Enabled(s, Cancel(o)) ==>
              var s' := Apply(s, Cancel(o));
              && o in s'.resolvers && s'.resolvers[o].pc == Releasing(TemporarilyUnavailable) && s'.store == s.store
              && (s.resolvers[o].pc == Invalidating ==> (o, InvalidateRequest) in s'.late)
              && (forall read, x :: s.resolvers[o].pc == Updating(read, x) ==> (o, UpdateRequest(x)) in s'.late)
  {
  }

  lemma DecidesObserve(s: State, o: string)
    requires Enabled(s, Observe(o)) && ClockOk(s, s.resolvers[o])
    requires Continued(s, s.resolvers[o]).pc.Releasing?
    ensures Decides(s, Observe(o), o, Continued(s, s.resolvers[o]).pc.result)
  {
    var r := s.resolvers[o];
    if r.pc.Judging? && r.pc.found.Some? {
      GoodExactly(s, r, r.pc.found.value);
    }
  }

  lemma DecidesStep(s: State, step: Step, o: string)
    requires Enabled(s, step) && o in Apply(s, step).resolvers && Apply(s, step).resolvers[o].pc.Releasing?
    requires o in s.resolvers ==> ClockOk(s, s.resolvers[o])
    ensures o in s.resolvers
    ensures s.resolvers[o].pc == Apply(s, step).resolvers[o].pc
         || Decides(s, step, o, Apply(s, step).resolvers[o].pc.result)
  {
    match step {
      case Answer(q) => AnswerFrame(s, q);
      case Late(q, request) => LateFrame(s, q, request);
      case Observe(q) => if q == o { DecidesObserve(s, o); }
      case _ =>
    }
  }

  ghost predicate Decided(states: seq<State>, steps: seq<Step>, k: nat, o: string, result: Outcome) {
    k < |steps| && k < |states| && Decides(states[k], steps[k], o, result)
  }

  lemma {:induction false} ReleasingHow(states: seq<State>, steps: seq<Step>, i: nat, o: string) returns (k: nat)
    requires Run(states, steps) && i < |states| && o in states[i].resolvers && states[i].resolvers[o].pc.Releasing?
    ensures k < i && Decided(states, steps, k, o, states[i].resolvers[o].pc.result)
  {
    if o in states[i - 1].resolvers {
      ClockReads(states, steps, i - 1, o);
    }
    DecidesStep(states[i - 1], steps[i - 1], o);
    if states[i - 1].resolvers[o].pc == states[i].resolvers[o].pc {
      k := ReleasingHow(states, steps, i - 1, o);
    } else {
      k := i - 1;
    }
  }

  /** The store executes the release of an owner that had decided on `result`; whether it owned the lock then. */
  ghost predicate ReleasedAt(states: seq<State>, steps: seq<Step>, m: nat, o: string, result: Outcome, owned: bool) {
    && m < |steps| && m < |states| && steps[m] == Answer(o) && o in states[m].resolvers
    && states[m].resolvers[o].pc == Releasing(result)
    && owned == HeldBy(states[m].store, states[m].now, states[m].resolvers[o].sid, o)
  }

  lemma FreedStep(s: State, step: Step, o: string)
    requires Enabled(s, step) && o in Apply(s, step).resolvers && Apply(s, step).resolvers[o].pc.Freed?
    ensures o in s.resolvers
    ensures var pc := Apply(s, step).resolvers[o].pc;
            || s.resolvers[o].pc == pc
            || (&& step == Answer(o) && s.resolvers[o].pc == Releasing(pc.result)
                && pc.owned == HeldBy(s.store, s.now, s.resolvers[o].sid, o))
  {
    match step {
      case Answer(q) => AnswerFrame(s, q);
      case Late(q, request) => LateFrame(s, q, request);
      case _ =>
    }
  }

  lemma {:induction false} FreedHow(states: seq<State>, steps: seq<Step>, i: nat, o: string) returns (k: nat, m: nat)
    requires Run(states, steps) && i < |states| && o in states[i].resolvers && states[i].resolvers[o].pc.Freed?
    ensures var pc := states[i].resolvers[o].pc;
            k < m < i && Decided(states, steps, k, o, pc.result) && ReleasedAt(states, steps, m, o, pc.result, pc.owned)
  {
    FreedStep(states[i - 1], steps[i - 1], o);
    if states[i - 1].resolvers[o].pc == states[i].resolvers[o].pc {
      k, m := FreedHow(states, steps, i - 1, o);
    } else {
      m := i - 1;
      k := ReleasingHow(states, steps, m, o);
    }
  }

  lemma EndsWithLease(s: State, step: Step, o: string)
    requires Enabled(s, step) && o in s.resolvers && !s.resolvers[o].pc.Done? && o in Apply(s, step).resolvers
    requires Apply(s, step).resolvers[o].pc.Done? && Apply(s, step).resolvers[o].pc.viaLock
    ensures var pc, result := s.resolvers[o].pc, Apply(s, step).resolvers[o].pc.result;
            || (step == Fail(o) && (pc.Releasing? || pc.Freed?) && result == TemporarilyUnavailable)
            || (step == Observe(o) && pc.Freed? && result == if pc.owned then pc.result else TemporarilyUnavailable)
  {
    match step {
      case Answer(q) => AnswerFrame(s, q);
      case Late(q, request) => LateFrame(s, q, request);
      case _ =>
    }
  }

  /**
   * What an owner answers, and why: what it had decided on, if and only if its release found the lock still its
   * own and was answered; and otherwise closed.
   */
  lemma AnswerWithLease(states: seq<State>, steps: seq<Step>, i: nat, o: string)
      returns (k: nat, m: nat, e: nat, decided: Outcome)
    requires Run(states, steps) && i < |states| && o in states[i].resolvers
    requires states[i].resolvers[o].pc.Done? && states[i].resolvers[o].pc.viaLock
    ensures k <= e < i && Decided(states, steps, k, o, decided)
    ensures var result := states[i].resolvers[o].pc.result;
            || (steps[e] == Fail(o) && result == TemporarilyUnavailable)
            || (&& steps[e] == Observe(o) && k < m < e
                && exists owned :: ReleasedAt(states, steps, m, o, decided, owned)
                                   && result == if owned then decided else TemporarilyUnavailable)
  {
    e := EndingStep(states, steps, i, o);
    EndsWithLease(states[e], steps[e], o);
    decided := states[e].resolvers[o].pc.result;
    m := 0;
    if states[e].resolvers[o].pc.Freed? {
      k, m := FreedHow(states, steps, e, o);
    } else {
      k := ReleasingHow(states, steps, e, o);
    }
  }

  // ---- a call whose grant was rejected ---------------------------------------------------------

  /** Between the two steps the call neither fails, nor is cut off, nor goes away. */
  ghost predicate Undisturbed(steps: seq<Step>, k: nat, i: nat, o: string)
    requires i <= |steps|
  {
    forall j | k <= j < i :: steps[j] != Fail(o) && steps[j] != Cancel(o) && steps[j] != Abandon(o)
  }

  /** Told by the store that its invalidation found it the owner, and not yet answered about its release. */
  predicate Rejected(pc: Pc) {
    || (pc.Invalidated? && !pc.outcome.OwnershipLost?)
    || pc == Releasing(ReauthenticationRequired)
    || (pc.Freed? && pc.result == ReauthenticationRequired)
  }

  lemma RejectedNext(s: State, step: Step, o: string)
    requires Enabled(s, step) && o in s.resolvers && Rejected(s.resolvers[o].pc)
    requires step != Fail(o) && step != Cancel(o) && step != Abandon(o)
    ensures o in Apply(s, step).resolvers
    ensures var pc, pc' := s.resolvers[o].pc, Apply(s, step).resolvers[o].pc;
            || Rejected(pc')
            || (pc.Freed? && pc' == Done(if pc.owned then ReauthenticationRequired else TemporarilyUnavailable, true))
  {
    match step {
      case Answer(q) => AnswerFrame(s, q);
      case Late(q, request) => LateFrame(s, q, request);
      case _ =>
    }
  }

  lemma InvalidationAnswered(s: State, o: string)
    requires Enabled(s, Answer(o)) && s.resolvers[o].pc.Invalidating?
    requires HeldBy(s.store, s.now, s.resolvers[o].sid, o)
    ensures o in Apply(s, Answer(o)).resolvers && Rejected(Apply(s, Answer(o)).resolvers[o].pc)
  {
  }

  /** What became of the call by `i`: still on its way to the release, or released, or done. */
  ghost predicate Fate(states: seq<State>, steps: seq<Step>, k: nat, i: nat, o: string, m: nat, owned: bool)
    requires i < |states|
  {
    && o in states[i].resolvers
    && var pc := states[i].resolvers[o].pc;
       && (Rejected(pc) || pc == Done(if owned then ReauthenticationRequired else TemporarilyUnavailable, true))
       && (pc.Freed? ==> pc.owned == owned)
       && (pc.Freed? || pc.Done? ==>
             k < m < i && ReleasedAt(states, steps, m, o, ReauthenticationRequired, owned))
  }

  lemma FateNext(states: seq<State>, steps: seq<Step>, k: nat, i: nat, o: string, m: nat, owned: bool)
      returns (m': nat, owned': bool)
    requires Run(states, steps) && k < i < |steps| && Fate(states, steps, k, i, o, m, owned)
    requires Undisturbed(steps, k, i + 1, o)
    ensures Fate(states, steps, k, i + 1, o, m', owned')
  {
    m', owned' := m, owned;
    var pc := states[i].resolvers[o].pc;
    if pc.Done? {
      DoneStays(states[i], steps[i], o);
    } else {
      RejectedNext(states[i], steps[i], o);
      var pc' := states[i + 1].resolvers[o].pc;
      if pc'.Freed? && pc' != pc {
        FreedStep(states[i], steps[i], o);
        m', owned' := i, pc'.owned;
      }
      if pc'.Done? {
        assert pc.Freed?;
      }
    }
  }

  lemma {:induction false} FateFound(states: seq<State>, steps: seq<Step>, k: nat, i: nat, o: string)
      returns (m: nat, owned: bool)
    requires Run(states, steps) && k < i < |states| && o in states[k].resolvers
    requires steps[k] == Answer(o) && states[k].resolvers[o].pc.Invalidating?
    requires HeldBy(states[k].store, states[k].now, states[k].resolvers[o].sid, o)
    requires Undisturbed(steps, k, i, o)
    ensures Fate(states, steps, k, i, o, m, owned)
  {
    if i == k + 1 {
      InvalidationAnswered(states[k], o);
      m, owned := 0, false;
    } else {
      m, owned := FateFound(states, steps, k, i - 1, o);
      m, owned := FateNext(states, steps, k, i - 1, o, m, owned);
    }
  }

  /**
   * A call whose invalidation found it the owner, and which is not disturbed afterwards, asks for a new login if
   * its release finds the lock still its own, and otherwise fails closed.
   */
  lemma RejectedCallAsksForLogin(states: seq<State>, steps: seq<Step>, k: nat, i: nat, o: string)
      returns (m: nat, owned: bool)
    requires Run(states, steps) && k < i < |states| && o in states[k].resolvers
    requires steps[k] == Answer(o) && states[k].resolvers[o].pc.Invalidating?
    requires HeldBy(states[k].store, states[k].now, states[k].resolvers[o].sid, o)
    requires Undisturbed(steps, k, i, o) && o in states[i].resolvers && states[i].resolvers[o].pc.Done?
    ensures k < m < i && ReleasedAt(states, steps, m, o, ReauthenticationRequired, owned)
    ensures states[i].resolvers[o].pc == Done(if owned then ReauthenticationRequired else TemporarilyUnavailable, true)
  {
    m, owned := FateFound(states, steps, k, i, o);
  }
}
