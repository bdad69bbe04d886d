/** What a rejected grant does to the session, and exactly when it ends it. */
module Rejection {
  import opened SessionStore
  import opened Lease
  import opened LeaseInvariant
  import opened LeaseSafety

  // ---- exactly when a session ends early ----------------------------------------------------------

  /** The invalidation of `q` reaches the store while `q` holds the live lock of the session. */
  ghost predicate Invalidates(s: State, step: Step, q: string, sid: string) {
    && Runs(s, step, q, InvalidateRequest) && s.resolvers[q].sid == sid
    && HeldBy(s.store, s.now, sid, q)
  }

  ghost predicate Invalidated(states: seq<State>, steps: seq<Step>, i: nat, j: nat, sid: string)
    requires i <= j <= |steps| < |states|
  {
    exists k, q :: i <= k < j && Invalidates(states[k], steps[k], q, sid)
  }

  lemma InvalidationDrops(s: State, step: Step, q: string, sid: string)
    requires Enabled(s, step) && Invalidates(s, step, q, sid)
    ensures !Readable(Apply(s, step).store, Apply(s, step).now, sid)
  {
    if step.Late? {
      LateFrame(s, q, InvalidateRequest);
    } else {
      AnswerFrame(s, q);
    }
  }

  /** A session that ends at a step before its deadline ends by an invalidation. */
  lemma EndsByInvalidation(s: State, step: Step, sid: string)
    requires Inv(s) && Enabled(s, step) && Readable(s.store, s.now, sid)
    requires !Readable(Apply(s, step).store, Apply(s, step).now, sid)
    requires Apply(s, step).now < s.store.sessions[sid].expiresAt
    ensures exists q :: Invalidates(s, step, q, sid)
  {
    StepAccounted(s, step);
    assert SessionOk(s, sid);
    EndOfSession(s, step, Apply(s, step), sid);
    var e := Apply(s, step).log[|s.log|];
    assert Invalidates(s, step, e.who, sid);
  }

  lemma EndNext(states: seq<State>, steps: seq<Step>, k: nat, sid: string)
    requires Run(states, steps) && k < |steps| && Readable(states[k].store, states[k].now, sid)
    requires sid in states[k + 1].created && states[k + 1].now < states[k + 1].created[sid].expiresAt
    requires !Readable(states[k + 1].store, states[k + 1].now, sid)
    ensures exists q :: Invalidates(states[k], steps[k], q, sid)
  {
    SessionAsCreated(states, steps, k, sid);
    StepHistory(states[k], steps[k]);
    RunInv(states, steps, k);
    EndsByInvalidation(states[k], steps[k], sid);
  }

  lemma ClockNext(states: seq<State>, steps: seq<Step>, k: nat)
    requires Run(states, steps) && k < |steps|
    ensures states[k].now <= states[k + 1].now
  {
    StepHistory(states[k], steps[k]);
  }

  lemma {:induction false} EarlyEndIsInvalidation(states: seq<State>, steps: seq<Step>, i: nat, j: nat, sid: string)
    requires Run(states, steps) && i <= j < |states| && Readable(states[i].store, states[i].now, sid)
    requires sid in states[i].created && states[j].now < states[i].created[sid].expiresAt
    requires !Readable(states[j].store, states[j].now, sid)
    ensures Invalidated(states, steps, i, j, sid)
  {
    if i < j {
      ClockNext(states, steps, j - 1);
      if Readable(states[j - 1].store, states[j - 1].now, sid) {
        GoneForGood(states, steps, i, j, sid);
        EndNext(states, steps, j - 1, sid);
      } else {
        EarlyEndIsInvalidation(states, steps, i, j - 1, sid);
      }
    }
  }

  lemma InvalidationEnds(states: seq<State>, steps: seq<Step>, i: nat, j: nat, k: nat, q: string, sid: string)
    requires Run(states, steps) && i <= k < j < |states| && sid in states[i].created
    requires Invalidates(states[k], steps[k], q, sid)
    ensures !Readable(states[j].store, states[j].now, sid)
  {
    InvalidationDrops(states[k], steps[k], q, sid);
    GoneForGood(states, steps, i, k + 1, sid);
    GoneForGood(states, steps, k + 1, j, sid);
  }

  /**
   * Before its deadline a live session ends if and only if an invalidation reached the store while the call that
   * sent it held the live lock.
   */
  lemma EndsEarlyExactly(states: seq<State>, steps: seq<Step>, i: nat, j: nat, sid: string)
    requires Run(states, steps) && i <= j < |states| && Readable(states[i].store, states[i].now, sid)
    ensures sid in states[i].created
    ensures states[j].now < states[i].created[sid].expiresAt ==>
              (!Readable(states[j].store, states[j].now, sid) <==> Invalidated(states, steps, i, j, sid))
  {
    SessionAsCreated(states, steps, i, sid);
    if states[j].now < states[i].created[sid].expiresAt && !Readable(states[j].store, states[j].now, sid) {
      EarlyEndIsInvalidation(states, steps, i, j, sid);
    }
    if Invalidated(states, steps, i, j, sid) {
      var k, q :| i <= k < j && Invalidates(states[k], steps[k], q, sid);
      InvalidationEnds(states, steps, i, j, k, q, sid);
    }
  }

  /**
   * So for the call whose grant was rejected: as long as it holds the live lock, the session is gone if and only
   * if its invalidation was executed.
   */
  lemma RejectedGrantExactly(states: seq<State>, steps: seq<Step>, i: nat, j: nat, o: string)
    requires Run(states, steps) && i <= j < |states| && o in states[i].resolvers && o in states[j].resolvers
    requires var s, r := states[i], states[i].resolvers[o];
             r.pc.Responded? && r.pc.reply == InvalidGrant && Readable(s.store, s.now, r.sid)
    requires HeldBy(states[j].store, states[j].now, states[i].resolvers[o].sid, o)
    ensures var sid := states[i].resolvers[o].sid;
            && sid in states[i].created
            && (states[j].now < states[i].created[sid].expiresAt ==>
                  (!Readable(states[j].store, states[j].now, sid) <==>
                   exists k | i <= k < j :: Runs(states[k], steps[k], o, InvalidateRequest)))
  {
    var sid := states[i].resolvers[o].sid;
    EndsEarlyExactly(states, steps, i, j, sid);
    RunInv(states, steps, i);
    forall k | i <= k < j
      ensures o in states[k].resolvers && states[k].resolvers[o].sid == sid
      ensures HeldBy(states[k].store, states[k].now, sid, o)
    {
      HeldThroughout(states, steps, i, k, j, o);
    }
    if k :| i <= k < j && Runs(states[k], steps[k], o, InvalidateRequest) {
      assert Invalidates(states[k], steps[k], o, sid);
    }
    if Invalidated(states, steps, i, j, sid) {
      var k, q :| i <= k < j && Invalidates(states[k], steps[k], q, sid);
      assert q == o;
    }
  }

  /** A lock held at the end of a stretch was held all along it, by a call that had it before. */
  lemma HeldThroughout(states: seq<State>, steps: seq<Step>, i: nat, k: nat, j: nat, o: string)
    requires Run(states, steps) && i <= k <= j < |states| && o in states[i].resolvers
    requires InSection(states[i].resolvers[o].pc)
    requires HeldBy(states[j].store, states[j].now, states[i].resolvers[o].sid, o)
    ensures o in states[k].resolvers && states[k].resolvers[o].sid == states[i].resolvers[o].sid
    ensures HeldBy(states[k].store, states[k].now, states[i].resolvers[o].sid, o)
  {
    StaysAcquired(states, steps, i, k, o);
    StaysAcquired(states, steps, i, j, o);
    if !HeldBy(states[k].store, states[k].now, states[i].resolvers[o].sid, o) {
      LostForGood(states, steps, k, j, o);
    }
  }

  lemma AcquiredNext(states: seq<State>, steps: seq<Step>, k: nat, o: string)
    requires Run(states, steps) && k < |steps| && o in states[k].resolvers && states[k].resolvers[o].acquired
    ensures o in states[k + 1].resolvers && states[k + 1].resolvers[o].acquired
    ensures states[k + 1].resolvers[o].sid == states[k].resolvers[o].sid
  {
    StepResolver(states[k], steps[k], o);
  }

  lemma {:induction false} StaysAcquired(states: seq<State>, steps: seq<Step>, i: nat, k: nat, o: string)
    requires Run(states, steps) && i <= k < |states| && o in states[i].resolvers
    requires InSection(states[i].resolvers[o].pc)
    ensures o in states[k].resolvers && states[k].resolvers[o].acquired
    ensures states[k].resolvers[o].sid == states[i].resolvers[o].sid
  {
    if i == k {
      RunInv(states, steps, i);
      assert ResolverOk(states[i], o);
    } else {
      StaysAcquired(states, steps, i, k - 1, o);
      AcquiredNext(states, steps, k - 1, o);
    }
  }

  // ---- asking for a new login ---------------------------------------------------------------------------

  /** A call that met a rejected grant and is about to ask, or asked, for a new login. */
  ghost predicate SawRejection(r: Resolver) {
    r.rejected &&
    match r.pc
    case Invalidated(outcome) => !outcome.OwnershipLost?
    case Releasing(result) => result == ReauthenticationRequired
    case Freed(result, _) => result == ReauthenticationRequired
    case Done(result, _) => result == ReauthenticationRequired
    case _ => false
  }

  /** But a lost invalidation leaves a session whose grant was rejected: the call fails closed, the record stays. */
  lemma LostInvalidationKeepsSession(s: State, o: string)
    requires o in s.resolvers && s.resolvers[o].pc.Invalidating? && Readable(s.store, s.now, s.resolvers[o].sid)
    ensures Enabled(s, Fail(o))
    ensures var s' := Apply(s, Fail(o));
            && Readable(s'.store, s'.now, s.resolvers[o].sid)
            && s'.resolvers[o].pc == Releasing(TemporarilyUnavailable)
            && (o, InvalidateRequest) in s'.late
  {
  }

  predicate RejectedPlace(pc: Pc) {
    pc.Invalidating? || pc.Invalidated? || pc.Releasing? || pc.Freed? || Over(pc)
  }

  ghost predicate RejectionOk(s: State, o: string)
    requires o in s.resolvers
  {
    var r := s.resolvers[o];
    && (r.rejected ==> RejectedPlace(r.pc))
    && (SawRejection(r) ==> r.sid in s.created && !Readable(s.store, s.now, r.sid))
  }

  /** A resolver comes to have seen a rejection only by the store's answer to its invalidation. */
  lemma RejectionStep(s: State, step: Step, o: string)
    requires Enabled(s, step) && o in s.resolvers && o in Apply(s, step).resolvers
    requires s.resolvers[o].rejected ==> RejectedPlace(s.resolvers[o].pc)
    ensures Apply(s, step).resolvers[o].rejected ==> RejectedPlace(Apply(s, step).resolvers[o].pc)
    ensures SawRejection(Apply(s, step).resolvers[o]) ==>
              SawRejection(s.resolvers[o]) || (step == Answer(o) && s.resolvers[o].pc.Invalidating?)
  {
    match step {
      case Answer(q) => AnswerFrame(s, q);
      case Late(q, request) => LateFrame(s, q, request);
      case _ =>
    }
  }

  lemma InvalidationStep(s: State, o: string)
    requires o in s.resolvers && s.resolvers[o].pc.Invalidating?
    ensures var s' := Apply(s, Answer(o));
            && s'.resolvers[o].pc.Invalidated?
            && (!s'.resolvers[o].pc.outcome.OwnershipLost? ==> !Readable(s'.store, s'.now, s.resolvers[o].sid))
  {
  }

  lemma RejectionKept(s: State, step: Step, o: string)
    requires Inv(s) && Enabled(s, step) && o in s.resolvers && RejectionOk(s, o)
    ensures o in Apply(s, step).resolvers && RejectionOk(Apply(s, step), o)
  {
    StepResolver(s, step, o);
    StepHistory(s, step);
    RejectionStep(s, step, o);
    if SawRejection(s.resolvers[o]) {
      StepAccounted(s, step);
      StaysUnreadable(s, step, Apply(s, step), s.resolvers[o].sid);
    } else if step == Answer(o) && s.resolvers[o].pc.Invalidating? {
      WorkerIsCreated(s, o);
      InvalidationStep(s, o);
    }
  }

  lemma {:induction false} RejectionInv(states: seq<State>, steps: seq<Step>, i: nat, o: string)
    requires Run(states, steps) && i < |states| && o in states[i].resolvers
    ensures RejectionOk(states[i], o)
  {
    if i > 0 {
      if o in states[i - 1].resolvers {
        RejectionInv(states, steps, i - 1, o);
        RunInv(states, steps, i - 1);
        RejectionKept(states[i - 1], steps[i - 1], o);
      } else {
        Newcomer(states[i - 1], steps[i - 1], o);
      }
    }
  }

  /** When a rejected grant makes a call ask for a new login, the session is unreadable from then on. */
  lemma RejectedSessionIsGone(states: seq<State>, steps: seq<Step>, i: nat, j: nat, o: string)
    requires Run(states, steps) && i <= j < |states| && o in states[i].resolvers && SawRejection(states[i].resolvers[o])
    ensures !Readable(states[j].store, states[j].now, states[i].resolvers[o].sid)
  {
    RejectionInv(states, steps, i, o);
    GoneForGood(states, steps, i, j, states[i].resolvers[o].sid);
  }
}
