/** From the endpoint's lifetime through the stored expiry to the call that judges it, over runs. */
module Lifetime {
  import opened Prelude
  import opened Timing
  import opened SessionStore
  import opened Lease
  import opened LeaseInvariant
  import opened LeaseSafety
  import opened Convergence
  import opened Provenance
  import RedisStore

  /** At this step `o` turns the endpoint's answer into tokens to store, with the expiry they will have there. */
  ghost predicate Makes(s: State, step: Step, o: string, token: string, expiresAt: Option<U64>) {
    && step == Observe(o) && o in s.resolvers
    && s.resolvers[o].pc.Responded? && s.resolvers[o].pc.reply.Tokens?
    && s.resolvers[o].pc.reply.access == token
    && var lifetime := s.resolvers[o].pc.reply.expiresIn;
       RedisStore.NonZero(RefreshedExpiry(EffectiveNow(s, s.resolvers[o]), lifetime)) == expiresAt
  }

  ghost predicate Made(states: seq<State>, steps: seq<Step>, i: nat, o: string, token: string, expiresAt: Option<U64>)
    requires i <= |steps| < |states|
  {
    exists m | 0 <= m < i :: Makes(states[m], steps[m], o, token, expiresAt)
  }

  ghost predicate MadeSession(states: seq<State>, steps: seq<Step>, i: nat, o: string, x: Session)
    requires i <= |steps| < |states|
  {
    Made(states, steps, i, o, x.accessToken, RedisStore.NonZero(x.accessTokenExpiresAt))
  }

  // ---- what is written was made -----------------------------------------------------------------

  lemma EntersUpdate(s: State, step: Step, o: string)
    requires Enabled(s, step) && o in Apply(s, step).resolvers && Apply(s, step).resolvers[o].pc.Updating?
    ensures o in s.resolvers
    ensures var x := Apply(s, step).resolvers[o].pc.renewed;
            || s.resolvers[o].pc == Apply(s, step).resolvers[o].pc
            || Makes(s, step, o, x.accessToken, RedisStore.NonZero(x.accessTokenExpiresAt))
  {
    match step {
      case Answer(q) => AnswerPlace(s, q);
      case Late(q, request) => LateFrame(s, q, request);
      case _ =>
    }
  }

  lemma {:induction false} UpdateIsMade(states: seq<State>, steps: seq<Step>, i: nat, o: string)
    requires Run(states, steps) && i < |states| && o in states[i].resolvers && states[i].resolvers[o].pc.Updating?
    ensures MadeSession(states, steps, i, o, states[i].resolvers[o].pc.renewed)
  {
    if i > 0 {
      EntersUpdate(states[i - 1], steps[i - 1], o);
      if states[i - 1].resolvers[o].pc == states[i].resolvers[o].pc {
        UpdateIsMade(states, steps, i - 1, o);
      }
    }
  }

  lemma {:induction false} LateIsMade(states: seq<State>, steps: seq<Step>, i: nat, o: string, x: Session)
    requires Run(states, steps) && i < |states| && (o, UpdateRequest(x)) in states[i].late
    ensures MadeSession(states, steps, i, o, x)
  {
    if i > 0 {
      if (o, UpdateRequest(x)) in states[i - 1].late {
        LateIsMade(states, steps, i - 1, o, x);
      } else {
        LeftLate(states[i - 1], steps[i - 1], (o, UpdateRequest(x)));
        UpdateIsMade(states, steps, i - 1, o);
      }
    }
  }

  lemma RequestIsMade(states: seq<State>, steps: seq<Step>, i: nat, o: string, x: Session)
    requires Run(states, steps) && i < |steps| && Runs(states[i], steps[i], o, UpdateRequest(x))
    ensures MadeSession(states, steps, i, o, x)
  {
    if steps[i].Late? {
      LateIsMade(states, steps, i, o, x);
    } else {
      UpdateIsMade(states, steps, i, o);
    }
  }

  lemma LogGrows(states: seq<State>, steps: seq<Step>, i: nat)
    requires Run(states, steps) && i < |steps|
    ensures states[i].log <= states[i + 1].log
    ensures |states[i + 1].log| <= |states[i].log| + 1
  {
    RunInv(states, steps, i);
    StepAccounted(states[i], steps[i]);
  }

  lemma NewWriteRuns(states: seq<State>, steps: seq<Step>, i: nat, e: Event) returns (x: Session)
    requires Run(states, steps) && i < |steps| && e.Wrote? && states[i + 1].log == states[i].log + [e]
    ensures Runs(states[i], steps[i], e.who, UpdateRequest(x))
    ensures e.session.accessToken == x.accessToken
    ensures e.session.accessTokenExpiresAt == RedisStore.NonZero(x.accessTokenExpiresAt)
  {
    var s := states[i];
    RunInv(states, steps, i);
    StepAccounted(s, steps[i]);
    x :| Runs(s, steps[i], e.who, UpdateRequest(x)) && Readable(s.store, s.now, e.sid)
         && e.session == Refreshed(s.store.sessions[e.sid].session, RedisStore.Normalised(x));
  }

  lemma NewWriteIsMade(states: seq<State>, steps: seq<Step>, i: nat, e: Event)
    requires Run(states, steps) && i < |steps| && e.Wrote? && states[i + 1].log == states[i].log + [e]
    ensures EventMade(states, steps, i, e)
  {
    var x := NewWriteRuns(states, steps, i, e);
    RequestIsMade(states, steps, i, e.who, x);
  }

  ghost predicate EventMade(states: seq<State>, steps: seq<Step>, i: nat, e: Event)
    requires i <= |steps| < |states|
  {
    e.Wrote? ==> Made(states, steps, i, e.who, e.session.accessToken, e.session.accessTokenExpiresAt)
  }

  lemma WriteNext(states: seq<State>, steps: seq<Step>, k: nat, n: nat)
    requires Run(states, steps) && k < |steps| && n < |states[k + 1].log|
    requires n < |states[k].log| ==> EventMade(states, steps, k, states[k].log[n])
    ensures EventMade(states, steps, k + 1, states[k + 1].log[n])
  {
    LogGrows(states, steps, k);
    var e := states[k + 1].log[n];
    if n < |states[k].log| {
      assert e == states[k].log[n];
    } else if e.Wrote? {
      assert states[k + 1].log == states[k].log + [e];
      NewWriteIsMade(states, steps, k, e);
    }
  }

  /** Every write in the history, on time or late, stores what its own call computed from the endpoint's answer. */
  lemma {:induction false} WriteIsMade(states: seq<State>, steps: seq<Step>, i: nat, n: nat)
    requires Run(states, steps) && i < |states| && n < |states[i].log|
    ensures EventMade(states, steps, i, states[i].log[n])
  {
    if i > 0 {
      if n < |states[i - 1].log| {
        WriteIsMade(states, steps, i - 1, n);
      }
      WriteNext(states, steps, i - 1, n);
    }
  }

  // ---- what is read was recorded ------------------------------------------------------------------

  ghost predicate Recorded(log: seq<Event>, n: nat, sid: string, x: Session)
    requires n < |log|
  {
    log[n] == Created(sid, x) || (log[n].Wrote? && log[n].sid == sid && log[n].session == x)
  }

  ghost predicate OnRecord(log: seq<Event>, sid: string, x: Session) {
    exists n | 0 <= n < |log| :: Recorded(log, n, sid, x)
  }

  lemma {:induction false} ReplayOnRecord(log: seq<Event>, sid: string)
    requires Replay(log, sid).Some?
    ensures OnRecord(log, sid, Replay(log, sid).value)
  {
    if log != [] {
      var before := log[..|log| - 1];
      var e := log[|log| - 1];
      if e.sid == sid && (e.Created? || e.Wrote?) {
        assert Recorded(log, |log| - 1, sid, e.session);
      } else {
        ReplayOnRecord(before, sid);
        var n :| 0 <= n < |before| && Recorded(before, n, sid, Replay(before, sid).value);
        assert Recorded(log, n, sid, Replay(before, sid).value);
      }
    }
  }

  lemma OnRecordLater(log: seq<Event>, log': seq<Event>, sid: string, x: Session)
    requires log <= log' && OnRecord(log, sid, x)
    ensures OnRecord(log', sid, x)
  {
    var n :| 0 <= n < |log| && Recorded(log, n, sid, x);
    assert Recorded(log', n, sid, x);
  }

  lemma EntersJudging(s: State, step: Step, o: string)
    requires Enabled(s, step) && o in Apply(s, step).resolvers && Apply(s, step).resolvers[o].pc.Judging?
    ensures o in s.resolvers && Apply(s, step).resolvers[o].sid == s.resolvers[o].sid
    ensures || s.resolvers[o].pc == Apply(s, step).resolvers[o].pc
            || Apply(s, step).resolvers[o].pc.found == Get(s.store, s.now, s.resolvers[o].sid)
  {
    match step {
      case Answer(q) => AnswerPlace(s, q);
      case Late(q, request) => LateFrame(s, q, request);
      case _ =>
    }
  }

  ghost predicate ReadingRecorded(s: State, o: string)
    requires o in s.resolvers
  {
    var r := s.resolvers[o];
    r.pc.Judging? && r.pc.found.Some? ==> OnRecord(s.log, r.sid, r.pc.found.value)
  }

  lemma ReadingNext(states: seq<State>, steps: seq<Step>, k: nat, o: string)
    requires Run(states, steps) && k < |steps| && o in states[k + 1].resolvers
    requires o in states[k].resolvers ==> ReadingRecorded(states[k], o)
    ensures ReadingRecorded(states[k + 1], o)
  {
    var s, r' := states[k], states[k + 1].resolvers[o];
    if r'.pc.Judging? && r'.pc.found.Some? {
      EntersJudging(s, steps[k], o);
      LogGrows(states, steps, k);
      if s.resolvers[o].pc != r'.pc {
        StoredOnRecord(states, steps, k, r'.sid);
      }
      OnRecordLater(s.log, states[k + 1].log, r'.sid, r'.pc.found.value);
    }
  }

  /** Every reading a call judges was at some time recorded for its session, by the login or by a refresh. */
  lemma {:induction false} ReadingOnRecord(states: seq<State>, steps: seq<Step>, i: nat, o: string)
    requires Run(states, steps) && i < |states| && o in states[i].resolvers
    ensures ReadingRecorded(states[i], o)
  {
    if i > 0 {
      if o in states[i - 1].resolvers {
        ReadingOnRecord(states, steps, i - 1, o);
      }
      ReadingNext(states, steps, i - 1, o);
    }
  }

  lemma StoredOnRecord(states: seq<State>, steps: seq<Step>, i: nat, sid: string)
    requires Run(states, steps) && i < |states| && sid in states[i].store.sessions
    ensures OnRecord(states[i].log, sid, states[i].store.sessions[sid].session)
  {
    RunInv(states, steps, i);
    assert SessionOk(states[i], sid);
    ReplayOnRecord(states[i].log, sid);
  }

  // ---- what is left of the lifetime -------------------------------------------------------------------

  ghost predicate TimesOk(s: State, r: Resolver) {
    && (r.pc.Exchanging? ==> r.sentAt <= s.now)
    && (r.pc.Responded? ==> r.sentAt <= r.issuedAt <= s.now)
  }

  lemma StepKeepsTimes(s: State, step: Step, o: string)
    requires Enabled(s, step) && o in s.resolvers && TimesOk(s, s.resolvers[o]) && o in Apply(s, step).resolvers
    ensures TimesOk(Apply(s, step), Apply(s, step).resolvers[o])
  {
    match step {
      case Answer(q) => AnswerPlace(s, q);
      case Late(q, request) => LateFrame(s, q, request);
      case Observe(q) =>
        if q == o { ContinuedTimes(s, s.resolvers[o]); }
      case _ =>
    }
  }

  lemma ContinuedTimes(s: State, r: Resolver)
    requires Observable(r.pc)
    ensures TimesOk(s, Continued(s, r))
  {
  }

  lemma TimesNext(states: seq<State>, steps: seq<Step>, k: nat, o: string)
    requires Run(states, steps) && k < |steps| && o in states[k + 1].resolvers
    requires o in states[k].resolvers ==> TimesOk(states[k], states[k].resolvers[o])
    ensures TimesOk(states[k + 1], states[k + 1].resolvers[o])
  {
    if o in states[k].resolvers {
      StepKeepsTimes(states[k], steps[k], o);
    } else {
      Newcomer(states[k], steps[k], o);
    }
  }

  /** An exchange is sent before it is answered, and answered before the answer is seen. */
  lemma {:induction false} ExchangeTimes(states: seq<State>, steps: seq<Step>, i: nat, o: string)
    requires Run(states, steps) && i < |states| && o in states[i].resolvers
    ensures TimesOk(states[i], states[i].resolvers[o])
  {
    if i > 0 {
      if o in states[i - 1].resolvers {
        ExchangeTimes(states, steps, i - 1, o);
      }
      TimesNext(states, steps, i - 1, o);
    }
  }

  /** The answer that `o` is looking at arrived within the request timeout. */
  ghost predicate AnsweredInTime(s: State, o: string)
    requires o in s.resolvers
  {
    s.now <= s.resolvers[o].sentAt + 15_000
  }

  /** At `judged` at least 14.002 s of the lifetime the endpoint gave are left, less the judging call's gap. */
  ghost predicate Outlasts(s: State, o: string, judged: State, gap: nat)
    requires o in s.resolvers && s.resolvers[o].pc.Responded? && s.resolvers[o].pc.reply.Tokens?
  {
    var r := s.resolvers[o];
    r.pc.reply.expiresIn.Some? && r.issuedAt + 1000 * r.pc.reply.expiresIn.value + gap >= judged.now + 14_002
  }

  /**
   * End to end: when a call judges a reading sufficiently valid that a refresh had written, with an expiry, the
   * answer it was made from is found in the run; and if that answer came within the request timeout, the
   * issuer's lifetime has at least 14.002 s left, less the judging call's gap.
   */
  lemma JudgedTokenOutlasts(states: seq<State>, steps: seq<Step>, j: nat, o: string, n: nat) returns (m: nat)
    requires Run(states, steps) && j < |steps| && o in states[j].resolvers
    requires states[j].resolvers[o].pc.Judging? && states[j].resolvers[o].pc.found.Some?
    requires var x := states[j].resolvers[o].pc.found.value;
             && JudgedGood(states[j], steps[j], o, x.accessToken) && x.accessTokenExpiresAt.Some?
             && n < |states[j].log| && states[j].log[n].Wrote? && states[j].log[n].session == x
    ensures m < j
    ensures var x, who := states[j].resolvers[o].pc.found.value, states[j].log[n].who;
            && Makes(states[m], steps[m], who, x.accessToken, x.accessTokenExpiresAt)
            && (AnsweredInTime(states[m], who) ==>
                  Outlasts(states[m], who, states[j], states[j].resolvers[o].watch.gap))
  {
    var x, who := states[j].resolvers[o].pc.found.value, states[j].log[n].who;
    WriteIsMade(states, steps, j, n);
    m :| 0 <= m < j && Makes(states[m], steps[m], who, x.accessToken, x.accessTokenExpiresAt);
    ExchangeTimes(states, steps, m, who);
    ClockReads(states, steps, m, who);
    ClockReads(states, steps, j, o);
    EpochsAgree(states, steps, m, j);
    if AnsweredInTime(states[m], who) {
      LifetimeLeft(states[m], who, states[j], o, x.accessTokenExpiresAt.value);
    }
  }

  lemma EpochNext(states: seq<State>, steps: seq<Step>, k: nat)
    requires Run(states, steps) && k < |steps|
    ensures states[k + 1].epoch == states[k].epoch
  {
    StepHistory(states[k], steps[k]);
  }

  lemma {:induction false} EpochsAgree(states: seq<State>, steps: seq<Step>, i: nat, j: nat)
    requires Run(states, steps) && i <= j < |states|
    ensures states[i].epoch == states[j].epoch
  {
    if i < j {
      EpochsAgree(states, steps, i, j - 1);
      EpochNext(states, steps, j - 1);
    }
  }

  lemma LifetimeLeft(s: State, who: string, t: State, o: string, expiresAt: U64)
    requires who in s.resolvers && o in t.resolvers && s.epoch == t.epoch
    requires var r := s.resolvers[who];
             && r.pc.Responded? && r.pc.reply.Tokens? && TimesOk(s, r) && AnsweredInTime(s, who)
             && r.watch.Valid() && r.watch.entry + r.watch.gap <= s.epoch + s.now
             && EffectiveNow(s, r) == r.watch.EffectiveAt(s.epoch + s.now)
             && RedisStore.NonZero(RefreshedExpiry(EffectiveNow(s, r), r.pc.reply.expiresIn)) == Some(expiresAt)
    requires var q := t.resolvers[o];
             && q.watch.Valid() && q.watch.entry + q.watch.gap <= t.epoch + t.now
             && EffectiveNow(t, q) == q.watch.EffectiveAt(t.epoch + t.now)
             && SufficientlyValid(Some(expiresAt), EffectiveNow(t, q))
    ensures Outlasts(s, who, t, t.resolvers[o].watch.gap)
  {
    var r, q := s.resolvers[who], t.resolvers[o];
    RemainingLifetime(r.watch, s.epoch + r.sentAt, s.epoch + r.issuedAt, s.epoch + s.now,
                      r.pc.reply.expiresIn.value, q.watch, t.epoch + t.now);
  }
}
