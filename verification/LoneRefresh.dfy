/** Progress: a call that finds the lease free and is answered by everyone completes its refresh. */
module LoneRefresh {
  import opened Prelude
  import opened SessionStore
  import opened Lease
  import RedisStore

  ghost function Last(states: seq<State>): State
    requires states != []
  {
    states[|states| - 1]
  }

  /** Steps in which nobody fails, leaves or is late, and no time passes. */
  ghost predicate Smooth(states: seq<State>, steps: seq<Step>) {
    && Path(states, steps)
    && (forall i {:trigger steps[i]} | 0 <= i < |steps| ::
          steps[i].Login? || steps[i].Start? || steps[i].Answer? || steps[i].Observe?)
    && (forall i | 0 <= i < |states| :: states[i].now == states[0].now)
  }

  lemma Then(states: seq<State>, steps: seq<Step>, step: Step) returns (states': seq<State>, steps': seq<Step>)
    requires Path(states, steps) && Enabled(Last(states), step)
    ensures Path(states', steps') && states'[0] == states[0] && Last(states') == Apply(Last(states), step)
    ensures steps' == steps + [step] && states <= states' && |states'| == |states| + 1
  {
    states', steps' := states + [Apply(Last(states), step)], steps + [step];
    forall i | 0 <= i < |steps'|
      ensures Enabled(states'[i], steps'[i]) && states'[i + 1] == Apply(states'[i], steps'[i])
    {
      if i < |steps| {
        assert steps'[i] == steps[i];
      }
    }
  }

  lemma ThenSmoothly(states: seq<State>, steps: seq<Step>, step: Step)
      returns (states': seq<State>, steps': seq<Step>)
    requires Smooth(states, steps) && Enabled(Last(states), step)
    requires step.Login? || step.Start? || step.Answer? || step.Observe?
    requires Apply(Last(states), step).now == Last(states).now
    ensures Smooth(states', steps') && states'[0] == states[0] && Last(states') == Apply(Last(states), step)
  {
    states', steps' := Then(states, steps, step);
  }

  /** The session, its stored record, and the reply that will renew it; nothing moves but the owner. */
  datatype Scene = Scene(now: nat, sid: string, entry: Entry, reply: TokenReply, grant: Option<string>)

  /** The stage is set: the record is live and can be exchanged, and the owner's call sees it as expiring. */
  ghost predicate At(s: State, c: Scene, o: string, pc: Pc) {
    && s.now == c.now && c.reply.Tokens?
    && c.sid in s.store.sessions && s.store.sessions[c.sid] == c.entry && c.now < c.entry.expiresAt
    && c.entry.session.refreshToken.Some?
    && o in s.resolvers && s.resolvers[o].sid == c.sid && s.resolvers[o].pc == pc
    && !Usable(s, s.resolvers[o], c.entry.session)
  }

  ghost predicate Asks(s: State, c: Scene, o: string, pc: Pc) {
    At(s, c, o, pc) && !Locked(s.store, s.now, c.sid)
  }

  ghost predicate AtWork(s: State, c: Scene, o: string, pc: Pc) {
    At(s, c, o, pc) && HeldBy(s.store, s.now, c.sid, o)
  }

  /** The new tokens are in the record, under the old identity and deadline. */
  ghost predicate HasStored(s: State, c: Scene, o: string, pc: Pc) {
    && c.reply.Tokens? && o in s.resolvers && s.resolvers[o].sid == c.sid && s.resolvers[o].pc == pc
    && c.sid in s.store.sessions && s.store.sessions[c.sid].session.accessToken == c.reply.access
    && s.store.sessions[c.sid].expiresAt == c.entry.expiresAt
    && s.store.sessions[c.sid].session.identity == c.entry.session.identity
  }

  // ---- the stretches of a call -----------------------------------------------------------------

  lemma ToAttempt(s: State, c: Scene, o: string)
    requires At(s, c, o, Reading(Initial))
    ensures var t := Apply(s, Answer(o));
            Enabled(t, Observe(o)) &&
            var u := Apply(t, Observe(o));
            Enabled(u, Observe(o)) &&
            var v := Apply(u, Observe(o));
            && t.now == u.now == v.now == s.now && At(v, c, o, Attempting) && v.resolvers[o].attemptAt == c.now
            && v.store == s.store && v.resolvers == s.resolvers[o := v.resolvers[o]]
  {
  }

  lemma ToWork(s: State, c: Scene, o: string)
    requires Asks(s, c, o, Attempting) && s.resolvers[o].attemptAt == c.now
    ensures var t := Apply(s, Answer(o));
            Enabled(t, Observe(o)) &&
            var u := Apply(t, Observe(o));
            && t.now == u.now == s.now && AtWork(u, c, o, Reading(Owning))
            && u.resolvers == s.resolvers[o := u.resolvers[o]] && u.resolvers[o].attemptAt == c.now
  {
  }

  lemma ToExchange(s: State, c: Scene, o: string)
    requires AtWork(s, c, o, Reading(Owning))
    ensures var t := Apply(s, Answer(o));
            Enabled(t, Observe(o)) &&
            var u := Apply(t, Observe(o));
            && t.now == u.now == s.now && AtWork(u, c, o, Exchanging(c.entry.session))
            && u.resolvers == s.resolvers[o := u.resolvers[o]]
            && u.resolvers[o].attemptAt == s.resolvers[o].attemptAt
  {
  }

  lemma ToUpdate(s: State, c: Scene, o: string)
    requires AtWork(s, c, o, Exchanging(c.entry.session))
    ensures Enabled(s, Respond(o, c.reply, c.grant))
    ensures var t := Apply(s, Respond(o, c.reply, c.grant));
            Enabled(t, Observe(o)) &&
            var u := Apply(t, Observe(o));
            u.resolvers[o].pc.Updating? && u.resolvers[o].pc.renewed.accessToken == c.reply.access
            && AtWork(u, c, o, u.resolvers[o].pc)
  {
  }

  lemma ToRelease(s: State, c: Scene, o: string)
    requires o in s.resolvers && s.resolvers[o].pc.Updating? && AtWork(s, c, o, s.resolvers[o].pc)
    requires s.resolvers[o].pc.renewed.accessToken == c.reply.access
    ensures var t := Apply(s, Answer(o));
            Enabled(t, Observe(o)) &&
            var u := Apply(t, Observe(o));
            HasStored(u, c, o, Releasing(Ready(c.reply.access))) && HeldBy(u.store, u.now, c.sid, o)
  {
  }

  lemma ToEnd(s: State, c: Scene, o: string)
    requires c.reply.Tokens? && HasStored(s, c, o, Releasing(Ready(c.reply.access)))
    requires HeldBy(s.store, s.now, c.sid, o)
    ensures var t := Apply(s, Answer(o));
            Enabled(t, Observe(o)) &&
            var u := Apply(t, Observe(o));
            HasStored(u, c, o, Done(Ready(c.reply.access), true)) && !Locked(u.store, u.now, c.sid)
  {
  }

  // ---- from any state -----------------------------------------------------------------------------------

  lemma ReachesAttempt(s: State, c: Scene, o: string, before: seq<State>, steps: seq<Step>)
      returns (states: seq<State>, steps': seq<Step>)
    requires Smooth(before, steps) && Last(before) == s && At(s, c, o, Reading(Initial))
    ensures Smooth(states, steps') && states[0] == before[0]
    ensures At(Last(states), c, o, Attempting) && Last(states).resolvers[o].attemptAt == c.now
    ensures Last(states).store == s.store && Last(states).resolvers == s.resolvers[o := Last(states).resolvers[o]]
  {
    ToAttempt(s, c, o);
    states, steps' := ThenSmoothly(before, steps, Answer(o));
    states, steps' := ThenSmoothly(states, steps', Observe(o));
    states, steps' := ThenSmoothly(states, steps', Observe(o));
  }

  lemma ReachesExchange(s: State, c: Scene, o: string, before: seq<State>, steps: seq<Step>)
      returns (states: seq<State>, steps': seq<Step>)
    requires Smooth(before, steps) && Last(before) == s && Asks(s, c, o, Reading(Initial))
    ensures Smooth(states, steps') && states[0] == before[0]
    ensures AtWork(Last(states), c, o, Exchanging(c.entry.session))
    ensures Last(states).resolvers == s.resolvers[o := Last(states).resolvers[o]]
    ensures Last(states).resolvers[o].attemptAt == c.now
  {
    states, steps' := ReachesAttempt(s, c, o, before, steps);
    ToWork(Last(states), c, o);
    states, steps' := ThenSmoothly(states, steps', Answer(o));
    states, steps' := ThenSmoothly(states, steps', Observe(o));
    ToExchange(Last(states), c, o);
    states, steps' := ThenSmoothly(states, steps', Answer(o));
    states, steps' := ThenSmoothly(states, steps', Observe(o));
  }

  lemma ReachesRelease(s: State, c: Scene, o: string, before: seq<State>, steps: seq<Step>)
      returns (states: seq<State>, steps': seq<Step>)
    requires Path(before, steps) && Last(before) == s
    requires o in s.resolvers && s.resolvers[o].pc.Updating? && AtWork(s, c, o, s.resolvers[o].pc)
    requires s.resolvers[o].pc.renewed.accessToken == c.reply.access
    ensures Path(states, steps') && states[0] == before[0] && c.reply.Tokens?
    ensures HasStored(Last(states), c, o, Releasing(Ready(c.reply.access)))
    ensures HeldBy(Last(states).store, Last(states).now, c.sid, o)
  {
    ToRelease(s, c, o);
    states, steps' := Then(before, steps, Answer(o));
    states, steps' := Then(states, steps', Observe(o));
  }

  lemma ReachesEnd(s: State, c: Scene, o: string, before: seq<State>, steps: seq<Step>)
      returns (states: seq<State>, steps': seq<Step>)
    requires Path(before, steps) && Last(before) == s
    requires o in s.resolvers && s.resolvers[o].pc.Updating? && AtWork(s, c, o, s.resolvers[o].pc)
    requires s.resolvers[o].pc.renewed.accessToken == c.reply.access
    ensures Path(states, steps') && states[0] == before[0] && c.reply.Tokens?
    ensures HasStored(Last(states), c, o, Done(Ready(c.reply.access), true))
    ensures !Locked(Last(states).store, Last(states).now, c.sid)
  {
    states, steps' := ReachesRelease(s, c, o, before, steps);
    ToEnd(Last(states), c, o);
    states, steps' := Then(states, steps', Answer(o));
    states, steps' := Then(states, steps', Observe(o));
  }

  /**
   * From any state in which a call starts over a live, expiring session whose lease is free, the call's own
   * steps and one answer of the token endpoint end with the new token stored, handed out, and the lock free.
   */
  lemma LoneCallRefreshes(s: State, c: Scene, o: string) returns (states: seq<State>, steps: seq<Step>)
    requires Asks(s, c, o, Reading(Initial))
    ensures Path(states, steps) && states[0] == s && c.reply.Tokens?
    ensures HasStored(Last(states), c, o, Done(Ready(c.reply.access), true))
    ensures !Locked(Last(states).store, Last(states).now, c.sid)
  {
    states, steps := ReachesExchange(s, c, o, [s], []);
    ToUpdate(Last(states), c, o);
    states, steps := Then(states, steps, Respond(o, c.reply, c.grant));
    states, steps := Then(states, steps, Observe(o));
    states, steps := ReachesEnd(Last(states), c, o, states, steps);
  }

  // ---- from the beginning ---------------------------------------------------------------------------------

  const SESSION := Session("old", Some("first"), Some(1), Identity("issuer", "subject", None, None))

  const TTL := 3_600_000

  ghost function Beginning(): State {
    State(0, 0, TTL, Store(map[], map[]), map[], map[], {}, map[], {}, [])
  }

  function SceneOf(reply: TokenReply, grant: Option<string>): Scene {
    Scene(0, "session", Entry(SESSION, TTL), reply, grant)
  }

  lemma FirstSteps(c: Scene, o: string)
    requires c == SceneOf(c.reply, c.grant) && c.reply.Tokens?
    ensures var s := Beginning();
            Init(s) && Enabled(s, Login("session", SESSION)) &&
            var t := Apply(s, Login("session", SESSION));
            Enabled(t, Start(o, "session", 0)) &&
            var u := Apply(t, Start(o, "session", 0));
            && t.now == u.now == 0 && Asks(u, c, o, Reading(Initial)) && u.resolvers.Keys == {o}
            && "session" in u.grants && u.grants["session"] == Some("first")
  {
    RedisStore.NormalisedExact(SESSION);
  }

  lemma RunStarts(c: Scene, o: string) returns (states: seq<State>, steps: seq<Step>)
    requires c == SceneOf(c.reply, c.grant) && c.reply.Tokens?
    ensures Run(states, steps) && Smooth(states, steps) && states[0] == Beginning()
    ensures Asks(Last(states), c, o, Reading(Initial)) && Last(states).resolvers.Keys == {o}
  {
    FirstSteps(c, o);
    states, steps := ThenSmoothly([Beginning()], [], Login("session", SESSION));
    states, steps := ThenSmoothly(states, steps, Start(o, "session", 0));
  }

  /** A run from the beginning, smooth throughout, that reaches an exchange. */
  lemma RunReachesExchange(c: Scene, o: string) returns (states: seq<State>, steps: seq<Step>)
    requires c == SceneOf(c.reply, c.grant) && c.reply.Tokens?
    ensures Run(states, steps) && Smooth(states, steps) && states[0] == Beginning()
    ensures AtWork(Last(states), c, o, Exchanging(SESSION))
    ensures Last(states).resolvers.Keys == {o} && Last(states).resolvers[o].attemptAt == 0
  {
    states, steps := RunStarts(c, o);
    states, steps := ReachesExchange(Last(states), c, o, states, steps);
  }

  /** And one that completes the refresh. */
  lemma RunRefreshes(c: Scene, o: string) returns (states: seq<State>, steps: seq<Step>)
    requires c == SceneOf(c.reply, c.grant) && c.reply.Tokens?
    ensures Run(states, steps) && HasStored(Last(states), c, o, Done(Ready(c.reply.access), true))
  {
    states, steps := RunReachesExchange(c, o);
    ToUpdate(Last(states), c, o);
    states, steps := Then(states, steps, Respond(o, c.reply, c.grant));
    states, steps := Then(states, steps, Observe(o));
    states, steps := ReachesEnd(Last(states), c, o, states, steps);
  }
}
