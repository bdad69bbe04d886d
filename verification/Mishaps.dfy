/** Runs from the beginning on which an exchange or an invalidation is lost. */
module Mishaps {
  import opened Prelude
  import opened Timing
  import opened SessionStore
  import opened Lease
  import opened LeaseInvariant
  import opened LeaseSafety
  import opened Lifetime
  import opened Rotation
  import opened LostExchange
  import opened LoneRefresh

  lemma EarlyIsOnTime(s: State)
    requires s.now == 0
    ensures AllOnTime(s)
  {
  }

  lemma NextUnanswered(states: seq<State>, steps: seq<Step>, k: nat)
    requires Smooth(states, steps) && k < |steps|
    ensures states[k + 1].unanswered == states[k].unanswered
  {
    if steps[k].Answer? {
      AnswerFrame(states[k], steps[k].owner);
    }
  }

  /** On a smooth run every exchange is answered. */
  lemma {:induction false} AllAnswered(states: seq<State>, steps: seq<Step>, k: nat)
    requires Run(states, steps) && Smooth(states, steps) && k < |states|
    ensures states[k].unanswered == {}
  {
    if k > 0 {
      AllAnswered(states, steps, k - 1);
      NextUnanswered(states, steps, k - 1);
    }
  }

  /** A smooth run at the very beginning is benign, so agreement holds to its end. */
  lemma SmoothAgrees(states: seq<State>, steps: seq<Step>)
    requires Run(states, steps) && Smooth(states, steps) && states[0].now == 0
    ensures RulePath(states, steps)
    ensures Inv(Last(states)) && Agreement(Last(states)) && AllOnTime(Last(states))
    ensures Last(states).unanswered == {}
  {
    AllAnswered(states, steps, |steps|);
    forall i | 0 <= i < |steps| ensures Benign(states[i], steps[i]) && AllOnTime(states[i]) {
      EarlyIsOnTime(states[i]);
    }
    EarlyIsOnTime(Last(states));
    RunAgrees(states, steps, |steps|);
    RunInv(states, steps, |steps|);
  }

  /** A lone owner waits for the endpoint, and all is in order. */
  ghost predicate Poised(s: State, c: Scene, o: string) {
    && Inv(s) && Agreement(s) && AllOnTime(s) && s.unanswered == {} && s.now == 0
    && c.sid == "session" && c.entry.session == SESSION && AtWork(s, c, o, Exchanging(SESSION))
  }

  /** Nobody fails, is cut off or goes away. */
  ghost predicate NobodyLeaves(steps: seq<Step>) {
    forall k | 0 <= k < |steps| :: !steps[k].Fail? && !steps[k].Cancel? && !steps[k].Abandon?
  }

  lemma ReachesPoise(o: string) returns (states: seq<State>, steps: seq<Step>, c: Scene)
    ensures Run(states, steps) && RulePath(states, steps) && NobodyLeaves(steps) && Poised(Last(states), c, o)
  {
    c := SceneOf(Tokens("new", None, None), None);
    states, steps := RunReachesExchange(c, o);
    SmoothAgrees(states, steps);
  }

  lemma PoisedGrant(s: State, c: Scene, o: string)
    requires Poised(s, c, o)
    ensures c.sid in s.grants && s.grants[c.sid] == Some("first") != Some("second")
    ensures c.sid in s.created && StoredAgreesNow(s, c.sid)
  {
    assert ResolverAgrees(s, o) && SessionOk(s, c.sid);
    assert "first"[0] != "second"[0];
  }

  lemma RuleThen(states: seq<State>, steps: seq<Step>, step: Step) returns (states': seq<State>, steps': seq<Step>)
    requires RulePath(states, steps) && Enabled(Last(states), step) && KeepsRule(Last(states), step)
    ensures RulePath(states', steps') && states'[0] == states[0] && Last(states') == Apply(Last(states), step)
    ensures steps' == steps + [step]
  {
    states', steps' := Then(states, steps, step);
    forall k | 0 <= k < |steps'| ensures KeepsRule(states'[k], steps'[k]) {
      if k < |steps| {
        assert steps'[k] == steps[k];
      }
    }
  }

  lemma MayRotate(s: State, c: Scene, o: string, reply: TokenReply)
    requires Poised(s, c, o) && reply == Tokens("new", Some("second"), None)
    ensures var step := Respond(o, reply, reply.refresh);
            Enabled(s, step) && KeepsRule(s, step) && Benign(s, step)
  {
    PoisedGrant(s, c, o);
  }

  lemma Rotates(s: State, c: Scene, o: string, reply: TokenReply)
    requires Poised(s, c, o) && reply == Tokens("new", Some("second"), None)
    ensures var step := Respond(o, reply, reply.refresh);
            Enabled(s, step) && KeepsRule(s, step) &&
            var t := Apply(s, step);
            && Inv(t) && Agreement(t) && AllOnTime(t) && t.store == s.store && t.now == s.now
            && o in t.resolvers && t.resolvers[o].sid == c.sid && t.resolvers[o].pc == Responded(SESSION, reply)
  {
    var step := Respond(o, reply, reply.refresh);
    MayRotate(s, c, o, reply);
    StepKeepsInv(s, step);
    StepKeepsAgreement(s, step);
    EarlyIsOnTime(Apply(s, step));
  }

  lemma LeavesRotated(t: State, c: Scene, o: string, reply: TokenReply)
    requires Inv(t) && Agreement(t) && AllOnTime(t) && reply == Tokens("new", Some("second"), None)
    requires o in t.resolvers && t.resolvers[o].sid == c.sid && t.resolvers[o].pc == Responded(SESSION, reply)
    ensures Enabled(t, Abandon(o))
    ensures var u := Apply(t, Abandon(o)); Broken(u, c.sid) && u.store == t.store && u.now == t.now
  {
    assert "first"[0] != "second"[0];
    LeavingAnswerExactly(t, Abandon(o), o);
    LeavesFrame(t, Abandon(o), o);
  }

  /**
   * The loss happens: one call, one rotation, and the client going away. From there the session is broken while
   * its record lives on.
   */
  lemma ExchangeIsLost(o: string) returns (states: seq<State>, steps: seq<Step>)
    ensures Run(states, steps) && RulePath(states, steps)
    ensures Broken(Last(states), "session")
    ensures Readable(Last(states).store, Last(states).now, "session")
  {
    var c: Scene;
    var reply := Tokens("new", Some("second"), None);
    states, steps, c := ReachesPoise(o);
    Rotates(Last(states), c, o, reply);
    states, steps := RuleThen(states, steps, Respond(o, reply, reply.refresh));
    LeavesRotated(Last(states), c, o, reply);
    states, steps := RuleThen(states, steps, Abandon(o));
  }

  lemma FailsRotating(s: State, c: Scene, o: string)
    requires Poised(s, c, o)
    ensures var step := Respond(o, Failed, Some("second"));
            Enabled(s, step) && KeepsRule(s, step) &&
            var t := Apply(s, step);
            Broken(t, c.sid) && Readable(t.store, t.now, c.sid)
  {
    PoisedGrant(s, c, o);
    LostReplyExactly(s, o, Some("second"));
  }

  /**
   * The ordinary loss: the endpoint rotates, its answer does not arrive, and the call reports a failure in time.
   * Nobody left, no call of the store failed, and the session is broken.
   */
  lemma ReplyIsLost(o: string) returns (states: seq<State>, steps: seq<Step>)
    ensures Run(states, steps) && RulePath(states, steps)
    ensures NobodyLeaves(steps)
    ensures Broken(Last(states), "session")
    ensures Readable(Last(states).store, Last(states).now, "session")
  {
    var c: Scene;
    states, steps, c := ReachesPoise(o);
    FailsRotating(Last(states), c, o);
    states, steps := RuleThen(states, steps, Respond(o, Failed, Some("second")));
  }

  lemma LeavesAndIsExecuted(s: State, c: Scene, o: string)
    requires Poised(s, c, o)
    ensures Enabled(s, Abandon(o)) && KeepsRule(s, Abandon(o)) &&
            var t, step := Apply(s, Abandon(o)), Drift(c.sid, Some("second"));
            Enabled(t, step) && KeepsRule(t, step) &&
            var u := Apply(t, step);
            Broken(u, c.sid) && Readable(u.store, u.now, c.sid)
  {
    PoisedGrant(s, c, o);
    LeavingExchange(s, Abandon(o), o);
    StepKeepsAgreement(s, Abandon(o));
    LateExchangeExactly(Apply(s, Abandon(o)), c.sid, Some("second"));
  }

  /** The exchange is sent, the client goes away, and the endpoint executes it afterwards. */
  lemma ExchangeIsExecutedLate(o: string) returns (states: seq<State>, steps: seq<Step>)
    ensures Run(states, steps) && RulePath(states, steps)
    ensures Broken(Last(states), "session")
    ensures Readable(Last(states).store, Last(states).now, "session")
  {
    var c: Scene;
    states, steps, c := ReachesPoise(o);
    LeavesAndIsExecuted(Last(states), c, o);
    states, steps := RuleThen(states, steps, Abandon(o));
    states, steps := RuleThen(states, steps, Drift(c.sid, Some("second")));
  }

  lemma RejectedThenFails(s: State, c: Scene, o: string)
    requires AtWork(s, c, o, Exchanging(c.entry.session))
    ensures var t := Apply(s, Drift(c.sid, None));
            Enabled(t, Respond(o, InvalidGrant, None)) &&
            var u := Apply(t, Respond(o, InvalidGrant, None));
            Enabled(u, Observe(o)) &&
            var v := Apply(u, Observe(o));
            Enabled(v, Fail(o)) &&
            var w := Apply(v, Fail(o));
            && Readable(w.store, w.now, c.sid) && o in w.resolvers && w.resolvers[o].rejected
            && w.resolvers[o].pc == Releasing(TemporarilyUnavailable)
  {
  }

  /** A revoked grant, an invalidation that does not get through: the call fails closed, the session is still there. */
  lemma InvalidationIsLost(o: string) returns (states: seq<State>, steps: seq<Step>)
    ensures Run(states, steps) && WasTold(steps, |steps|, o, InvalidGrant)
    ensures var s := Last(states);
            && Readable(s.store, s.now, "session")
            && o in s.resolvers && s.resolvers[o].rejected && s.resolvers[o].pc == Releasing(TemporarilyUnavailable)
  {
    var c := SceneOf(Tokens("new", None, None), None);
    states, steps := RunReachesExchange(c, o);
    RejectedThenFails(Last(states), c, o);
    states, steps := Then(states, steps, Drift(c.sid, None));
    states, steps := Then(states, steps, Respond(o, InvalidGrant, None));
    var told := |steps| - 1;
    states, steps := Then(states, steps, Observe(o));
    states, steps := Then(states, steps, Fail(o));
    assert steps[told] == Respond(o, InvalidGrant, None);
  }

  // ---- two owners at once ------------------------------------------------------------------------------

  /** A second call comes, asks while the first holds the lease, and is answered when the lease has run out. */
  lemma SecondStarts(s: State, c: Scene, o: string, q: string)
    requires At(s, c, o, Exchanging(c.entry.session)) && o != q && q !in s.resolvers && s.epoch == 0 && s.now == 0
    requires c.entry.session.accessTokenExpiresAt == Some(1)
    ensures Enabled(s, Start(q, c.sid, 0))
    ensures var t := Apply(s, Start(q, c.sid, 0));
            && t.now == s.now && t.store == s.store && t.resolvers == s.resolvers[q := t.resolvers[q]]
            && At(t, c, q, Reading(Initial))
  {
  }

  /** The wait of the second call, up to the point where it asks, and past the first one's lease. */
  lemma SecondIsGranted(s: State, c: Scene, o: string, q: string, to: nat)
    requires Inv(s) && o != q && s.now == 0 && c.now == 0 && to == REFRESH_LOCK_LEASE
    requires o in s.resolvers && s.resolvers[o].sid == c.sid && InSection(s.resolvers[o].pc)
    requires s.resolvers[o].attemptAt == 0 && HeldBy(s.store, s.now, c.sid, o)
    requires At(s, c, q, Attempting)
    ensures var t := Apply(s, Tick(to));
            Enabled(t, Answer(q)) &&
            var u := Apply(t, Answer(q));
            && o in u.resolvers && q in u.resolvers && u.resolvers[o].sid == u.resolvers[q].sid == c.sid
            && InSection(u.resolvers[o].pc) && InSection(u.resolvers[q].pc)
            && u.now == OwnerDeadline(u.resolvers[o].attemptAt) + REFRESH_LOCK_MARGIN
  {
    assert ResolverOk(s, o);
    var t := Apply(s, Tick(to));
    TickKeepsInv(s, to);
    ExpiredLeaseIsShared(t, o, q);
    AnswerFrame(t, q);
  }

  /**
   * Two owners of one session between acquisition and release, on a run from the beginning: the first is
   * scheduled again only ten seconds after its deadline.
   */
  lemma TwoOwners(o: string, q: string) returns (states: seq<State>, steps: seq<Step>)
    requires o != q
    ensures Run(states, steps)
    ensures var s := Last(states);
            && o in s.resolvers && q in s.resolvers && s.resolvers[o].sid == s.resolvers[q].sid == "session"
            && InSection(s.resolvers[o].pc) && InSection(s.resolvers[q].pc)
            && s.now == OwnerDeadline(s.resolvers[o].attemptAt) + REFRESH_LOCK_MARGIN
  {
    var c := SceneOf(Tokens("new", None, None), None);
    states, steps := RunReachesExchange(c, o);
    EpochsAgree(states, steps, 0, |steps|);
    SecondStarts(Last(states), c, o, q);
    states, steps := ThenSmoothly(states, steps, Start(q, c.sid, 0));
    states, steps := ReachesAttempt(Last(states), c, q, states, steps);
    RunInv(states, steps, |steps|);
    SecondIsGranted(Last(states), c, o, q, REFRESH_LOCK_LEASE);
    states, steps := Then(states, steps, Tick(REFRESH_LOCK_LEASE));
    states, steps := Then(states, steps, Answer(q));
  }
}
