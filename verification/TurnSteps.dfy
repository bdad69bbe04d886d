/** One owner's turn, as the methods run it, is a path of the protocol on which only that owner steps. */
module TurnSteps {
  import opened Prelude
  import opened Timing
  import opened SessionStore
  import opened Lease
  import opened LeaseSafety
  import opened LoneRefresh
  import RedisStore
  import Turns = OwnedRefresh

  /** The resolver is the owner: same session, deadline and clock. */
  ghost predicate IsOwner(s: State, w: Turns.Owner) {
    && w.id in s.resolvers
    && var r := s.resolvers[w.id];
       && r.sid == w.sid && w.deadline == OwnerDeadline(r.attemptAt)
       && r.watch.Valid() && w.baseNow == r.watch.entry / 1000
       && s.epoch + w.startedAt == r.watch.entry + r.watch.gap
  }

  /** The store with the session's record as Redis keeps it. */
  function NormalAt(st: Store, sid: string): Store {
    if sid !in st.sessions then st
    else
      var e := st.sessions[sid];
      st.(sessions := st.sessions[sid := e.(session := RedisStore.Normalised(e.session))])
  }

  ghost predicate Stands(s: State, w: Turns.Owner, at: nat, st: Store, pc: Pc) {
    && s.now == at && w.startedAt <= at && IsOwner(s, w) && s.resolvers[w.id].pc == pc
    && Alike(NormalAt(st, w.sid), s.store, at)
  }

  // ---- one owner's moves -----------------------------------------------------------------------------

  function Moves(w: Turns.Owner, at: nat, pc: Pc): Pc
    requires w.startedAt <= at
  {
    match pc
    case Granted => if at >= w.deadline then Releasing(TemporarilyUnavailable) else Reading(Owning)
    case Judging(_, found) =>
      if found.None? then Releasing(ReauthenticationRequired)
      else if SufficientlyValid(found.value.accessTokenExpiresAt, w.EffectiveNow(at)) then
        Releasing(Ready(found.value.accessToken))
      else if found.value.refreshToken.None? then Releasing(ReauthenticationRequired)
      else Exchanging(found.value)
    case Responded(read, reply) =>
      (match reply
       case Tokens(_, _, _) => Updating(read, Renewed(read, reply, w.EffectiveNow(at)))
       case InvalidGrant => Invalidating
       case Failed => Releasing(TemporarilyUnavailable))
    case Updated(token, outcome) => Releasing(AfterUpdate(token, outcome))
    case Invalidated(outcome) => Releasing(AfterInvalidation(outcome))
    case Freed(result, owned) => Done(if owned then result else TemporarilyUnavailable, true)
    case _ => pc
  }

  predicate Watching(pc: Pc) {
    || pc.Granted? || (pc.Judging? && pc.phase.Owning?) || pc.Responded? || pc.Updated? || pc.Invalidated? || pc.Freed?
  }

  lemma ObserveStands(s: State, w: Turns.Owner, at: nat, st: Store, pc: Pc)
    requires Stands(s, w, at, st, pc) && Watching(pc)
    ensures Enabled(s, Observe(w.id)) && Stands(Apply(s, Observe(w.id)), w, at, st, Moves(w, at, pc))
  {
    var r := s.resolvers[w.id];
    assert EffectiveNow(s, r) == w.EffectiveNow(at);
    ContinuedMoves(s, r, w, at);
    assert Apply(s, Observe(w.id)) == s.(resolvers := s.resolvers[w.id := Continued(s, r)]);
  }

  lemma ContinuedMoves(s: State, r: Resolver, w: Turns.Owner, at: nat)
    requires Watching(r.pc) && s.now == at && w.startedAt <= at && w.deadline == OwnerDeadline(r.attemptAt)
    requires EffectiveNow(s, r) == w.EffectiveNow(at)
    ensures var r' := Continued(s, r);
            r'.pc == Moves(w, at, r.pc) && r'.sid == r.sid && r'.watch == r.watch && r'.attemptAt == r.attemptAt
  {
  }

  lemma TickStands(s: State, w: Turns.Owner, at: nat, st: Store, pc: Pc, to: nat)
    requires Stands(s, w, at, st, pc) && at <= to
    ensures Stands(Apply(s, Tick(to)), w, to, st, pc)
  {
    AlikeLater(NormalAt(st, w.sid), s.store, at, to);
  }

  lemma FailStands(s: State, w: Turns.Owner, at: nat, st: Store, pc: Pc)
    requires Stands(s, w, at, st, pc) && Failable(pc)
    ensures Enabled(s, Fail(w.id)) && Stands(Apply(s, Fail(w.id)), w, at, st, AfterFailure(pc))
  {
  }

  lemma RespondStands(
      s: State, w: Turns.Owner, at: nat, st: Store, x: Session, reply: TokenReply, grant: Option<string>)
    requires Stands(s, w, at, st, Exchanging(x))
    ensures Enabled(s, Respond(w.id, reply, grant))
    ensures Stands(Apply(s, Respond(w.id, reply, grant)), w, at, st, Responded(x, reply))
  {
  }

  // ---- the store's answers ---------------------------------------------------------------------------------

  /** The session's record is in normal form, as every record of the protocol is. */
  predicate NormalRecord(st: Store, sid: string) {
    sid in st.sessions ==> RedisStore.Normalised(st.sessions[sid].session) == st.sessions[sid].session
  }

  lemma NormalIsSame(st: Store, sid: string)
    requires NormalRecord(st, sid)
    ensures NormalAt(st, sid) == st
  {
    if sid in st.sessions {
      assert st.sessions[sid := st.sessions[sid]] == st.sessions;
    }
  }

  lemma ReadStands(s: State, w: Turns.Owner, at: nat, st: Store, ttl: nat)
    requires Stands(s, w, at, st, Reading(Owning)) && NormalRecord(st, w.sid)
    ensures var st' := Lazy(st, ttl, at, GetOp(w.sid)).0;
            && NormalRecord(st', w.sid)
            && Stands(Apply(s, Answer(w.id)), w, at, st', Judging(Owning, Get(st, at, w.sid)))
  {
    var op := GetOp(w.sid);
    var st' := Lazy(st, ttl, at, op).0;
    NormalIsSame(st, w.sid);
    AlikeStep(st, s.store, ttl, at, op);
    NormalIsSame(st', w.sid);
    PurgeFirst(st, ttl, at, op);
  }

  /** What the answer to an owner's request does: the store's operation, and the place after it. */
  ghost predicate Answers(s: State, o: string, op: Op, pc: Pc) {
    && Enabled(s, Answer(o))
    && var s' := Apply(s, Answer(o));
       && s'.now == s.now && s'.epoch == s.epoch && s'.store == Exact(s.store, 0, s.now, op).0
       && o in s'.resolvers && s'.resolvers[o].pc == pc
       && s'.resolvers[o].sid == s.resolvers[o].sid && s'.resolvers[o].watch == s.resolvers[o].watch
       && s'.resolvers[o].attemptAt == s.resolvers[o].attemptAt
  }

  lemma InvalidateAnswers(s: State, o: string)
    requires o in s.resolvers && s.resolvers[o].pc.Invalidating?
    ensures var op := InvalidateOp(s.resolvers[o].sid, o);
            Answers(s, o, op, Invalidated(Exact(s.store, 0, s.now, op).1.outcome))
  {
  }

  lemma UpdateAnswers(s: State, o: string)
    requires o in s.resolvers && s.resolvers[o].pc.Updating?
    ensures var x := s.resolvers[o].pc.renewed;
            var op := UpdateOp(s.resolvers[o].sid, o, RedisStore.Normalised(x));
            Answers(s, o, op, Updated(x.accessToken, Exact(s.store, 0, s.now, op).1.outcome))
  {
    AnswerFrame(s, o);
  }

  lemma AnsweredStands(s: State, w: Turns.Owner, at: nat, st: Store, st': Store, pc: Pc, op: Op, pc': Pc)
    requires Stands(s, w, at, st, pc) && Answers(s, w.id, op, pc')
    requires Alike(NormalAt(st', w.sid), Exact(s.store, 0, at, op).0, at)
    ensures Stands(Apply(s, Answer(w.id)), w, at, st', pc')
  {
  }

  lemma InvalidateStands(s: State, w: Turns.Owner, at: nat, st: Store, ttl: nat)
    requires Stands(s, w, at, st, Invalidating) && NormalRecord(st, w.sid)
    ensures var (st', answer) := Lazy(st, ttl, at, InvalidateOp(w.sid, w.id));
            && answer.Mutated?
            && Stands(Apply(s, Answer(w.id)), w, at, st', Invalidated(answer.outcome))
  {
    var op := InvalidateOp(w.sid, w.id);
    var (st', answer) := Lazy(st, ttl, at, op);
    NormalIsSame(st, w.sid);
    AlikeStep(st, s.store, ttl, at, op);
    NormalIsSame(st', w.sid);
    InvalidateAnswers(s, w.id);
    AnsweredStands(s, w, at, st, st', Invalidating, op, Invalidated(answer.outcome));
  }

  lemma UpdateIsNormal(st: Store, ttl: nat, at: nat, sid: string, o: string, x: Session)
    requires NormalRecord(st, sid)
    ensures var raw := Lazy(st, ttl, at, UpdateOp(sid, o, x));
            var kept := Lazy(st, ttl, at, UpdateOp(sid, o, RedisStore.Normalised(x)));
            raw.1 == kept.1 && NormalAt(raw.0, sid) == kept.0
  {
    var p := Purge(st, at);
    NormalIsSame(p, sid);
    if HeldBy(p, at, sid, o) && Readable(p, at, sid) {
      var y := p.sessions[sid].session;
      assert RedisStore.Normalised(Refreshed(y, x)) == Refreshed(y, RedisStore.Normalised(x)) by {
        assert RedisStore.Normalised(y) == y;
      }
      var raw := p.sessions[sid := p.sessions[sid].(session := Refreshed(y, x))];
      assert raw[sid := raw[sid].(session := Refreshed(y, RedisStore.Normalised(x)))]
          == p.sessions[sid := p.sessions[sid].(session := Refreshed(y, RedisStore.Normalised(x)))];
    }
  }

  lemma UpdateStands(s: State, w: Turns.Owner, at: nat, st: Store, ttl: nat, read: Session, x: Session)
    requires Stands(s, w, at, st, Updating(read, x)) && NormalRecord(st, w.sid)
    ensures var (st', answer) := Lazy(st, ttl, at, UpdateOp(w.sid, w.id, x));
            && answer.Mutated?
            && Stands(Apply(s, Answer(w.id)), w, at, st', Updated(x.accessToken, answer.outcome))
  {
    var op := UpdateOp(w.sid, w.id, RedisStore.Normalised(x));
    var (st', answer) := Lazy(st, ttl, at, UpdateOp(w.sid, w.id, x));
    NormalIsSame(st, w.sid);
    UpdateIsNormal(st, ttl, at, w.sid, w.id, x);
    AlikeStep(st, s.store, ttl, at, op);
    UpdateAnswers(s, w.id);
    AnsweredStands(s, w, at, st, st', Updating(read, x), op, Updated(x.accessToken, answer.outcome));
  }

  lemma ReleaseIsNormal(st: Store, ttl: nat, at: nat, sid: string, o: string)
    ensures var raw, kept := Lazy(st, ttl, at, ReleaseOp(sid, o)), Lazy(NormalAt(st, sid), ttl, at, ReleaseOp(sid, o));
            raw.1 == kept.1 && NormalAt(raw.0, sid) == kept.0
  {
    assert Purge(NormalAt(st, sid), at).sessions == NormalAt(Purge(st, at), sid).sessions;
  }

  lemma ReleaseAnswers(s: State, o: string)
    requires o in s.resolvers && s.resolvers[o].pc.Releasing?
    ensures var op := ReleaseOp(s.resolvers[o].sid, o);
            Answers(s, o, op, Freed(s.resolvers[o].pc.result, Exact(s.store, 0, s.now, op).1.owned))
  {
  }

  lemma ReleaseStands(s: State, w: Turns.Owner, at: nat, st: Store, ttl: nat, result: Outcome)
    requires Stands(s, w, at, st, Releasing(result))
    ensures var (st', answer) := Lazy(st, ttl, at, ReleaseOp(w.sid, w.id));
            && answer.ReleaseAnswer?
            && Stands(Apply(s, Answer(w.id)), w, at, st', Freed(result, answer.owned))
  {
    var op := ReleaseOp(w.sid, w.id);
    var (st', answer) := Lazy(st, ttl, at, op);
    ReleaseIsNormal(st, ttl, at, w.sid, w.id);
    AlikeStep(NormalAt(st, w.sid), s.store, ttl, at, op);
    ReleaseAnswers(s, w.id);
    AnsweredStands(s, w, at, st, st', Releasing(result), op, Freed(result, answer.owned));
  }

  // ---- the deadline ----------------------------------------------------------------------------------------

  /** Being cut off at the deadline is, for the store and the call, what a failure at that place is. */
  lemma CutIsFailure(s: State, o: string)
    requires Enabled(s, Cancel(o)) && Failable(s.resolvers[o].pc)
    ensures Enabled(s, Fail(o)) && Apply(s, Cancel(o)) == Apply(s, Fail(o))
  {
  }

  /** And during the exchange it leaves what an answer without tokens leaves. */
  lemma CutExchangeIsFailure(s: State, o: string, grant: Option<string>)
    requires Enabled(s, Cancel(o)) && s.resolvers[o].pc.Exchanging?
    ensures Enabled(s, Respond(o, Failed, grant))
    ensures var t := Apply(s, Respond(o, Failed, grant));
            Enabled(t, Observe(o)) &&
            var cut, failed := Apply(s, Cancel(o)), Apply(t, Observe(o));
            && cut.store == failed.store && cut.late == failed.late
            && o in cut.resolvers && o in failed.resolvers && cut.resolvers[o].pc == failed.resolvers[o].pc
  {
  }

  // ---- the path of a turn ---------------------------------------------------------------------------------

  /** Time passes, the endpoint answers the owner, and otherwise only the owner steps. */
  ghost predicate OnlyOwner(steps: seq<Step>, o: string) {
    forall i | 0 <= i < |steps| ::
      steps[i].Tick? || steps[i] == Answer(o) || steps[i] == Observe(o) || steps[i] == Fail(o)
      || (steps[i].Respond? && steps[i].owner == o)
  }

  /** A path from `s` on which only the owner steps, to where it stands. */
  ghost predicate Leads(
      s: State, states: seq<State>, steps: seq<Step>, w: Turns.Owner, at: nat, st: Store, pc: Pc)
  {
    && Path(states, steps) && states[0] == s && OnlyOwner(steps, w.id)
    && Stands(Last(states), w, at, st, pc)
  }

  lemma Further(s: State, states: seq<State>, steps: seq<Step>, w: Turns.Owner, at: nat, st: Store, pc: Pc,
                step: Step, at': nat, st': Store, pc': Pc)
      returns (states': seq<State>, steps': seq<Step>)
    requires Leads(s, states, steps, w, at, st, pc) && Enabled(Last(states), step) && OnlyOwner([step], w.id)
    requires Stands(Apply(Last(states), step), w, at', st', pc')
    ensures Leads(s, states', steps', w, at', st', pc')
  {
    assert [step][0] == step;
    states', steps' := Then(states, steps, step);
  }

  lemma DoTick(s: State, states: seq<State>, steps: seq<Step>, w: Turns.Owner, at: nat, st: Store, pc: Pc, to: nat)
      returns (states': seq<State>, steps': seq<Step>)
    requires Leads(s, states, steps, w, at, st, pc) && at <= to
    ensures Leads(s, states', steps', w, to, st, pc)
  {
    TickStands(Last(states), w, at, st, pc, to);
    states', steps' := Further(s, states, steps, w, at, st, pc, Tick(to), to, st, pc);
  }

  lemma DoObserve(s: State, states: seq<State>, steps: seq<Step>, w: Turns.Owner, at: nat, st: Store, pc: Pc)
      returns (states': seq<State>, steps': seq<Step>)
    requires Leads(s, states, steps, w, at, st, pc) && Watching(pc)
    ensures Leads(s, states', steps', w, at, st, Moves(w, at, pc))
  {
    ObserveStands(Last(states), w, at, st, pc);
    states', steps' := Further(s, states, steps, w, at, st, pc, Observe(w.id), at, st, Moves(w, at, pc));
  }

  lemma DoFail(s: State, states: seq<State>, steps: seq<Step>, w: Turns.Owner, at: nat, st: Store, pc: Pc)
      returns (states': seq<State>, steps': seq<Step>)
    requires Leads(s, states, steps, w, at, st, pc) && Failable(pc)
    ensures Leads(s, states', steps', w, at, st, AfterFailure(pc))
  {
    FailStands(Last(states), w, at, st, pc);
    states', steps' := Further(s, states, steps, w, at, st, pc, Fail(w.id), at, st, AfterFailure(pc));
  }

  /** Where a call leads that finds the owner at `before` and, when it is executed, leaves it at `place`. */
  ghost predicate Ends(s: State, states: seq<State>, steps: seq<Step>, w: Turns.Owner, at: nat, st: Store, before: Pc,
                       st': Store, place: Pc, delivery: Delivery)
    requires w.startedAt <= at
  {
    match delivery
    case RequestLost => Leads(s, states, steps, w, at, st, AfterFailure(before))
    case ReplyLost => Leads(s, states, steps, w, at, st', AfterFailure(place))
    case Delivered => Leads(s, states, steps, w, at, st', Moves(w, at, place))
  }

  /** A store call of the owner, delivered, or lost on the way there or back. */
  lemma Deliver(s: State, states: seq<State>, steps: seq<Step>, w: Turns.Owner, at: nat, st: Store, before: Pc,
                st': Store, place: Pc, delivery: Delivery)
      returns (states': seq<State>, steps': seq<Step>)
    requires Leads(s, states, steps, w, at, st, before) && Failable(before) && Failable(place) && Watching(place)
    requires Enabled(Last(states), Answer(w.id)) && Stands(Apply(Last(states), Answer(w.id)), w, at, st', place)
    ensures Ends(s, states', steps', w, at, st, before, st', place, delivery)
  {
    if delivery.RequestLost? {
      states', steps' := DoFail(s, states, steps, w, at, st, before);
    } else {
      states', steps' := Further(s, states, steps, w, at, st, before, Answer(w.id), at, st', place);
      if delivery.ReplyLost? {
        states', steps' := DoFail(s, states', steps', w, at, st', place);
      } else {
        states', steps' := DoObserve(s, states', steps', w, at, st', place);
      }
    }
  }

  /** The read, up to the judgement. */
  lemma DoRead(s: State, states: seq<State>, steps: seq<Step>, w: Turns.Owner, c: Turns.Course, st: Store, ttl: nat)
      returns (states': seq<State>, steps': seq<Step>)
    requires w.startedAt <= c.readAt && NormalRecord(st, w.sid)
    requires Leads(s, states, steps, w, c.readAt, st, Reading(Owning))
    ensures var read := Lazy(st, ttl, c.readAt, GetOp(w.sid)).0;
            && NormalRecord(read, w.sid)
            && match c.read
               case RequestLost => Leads(s, states', steps', w, c.readAt, st, Releasing(TemporarilyUnavailable))
               case ReplyLost => Leads(s, states', steps', w, c.readAt, read, Releasing(TemporarilyUnavailable))
               case Delivered =>
                 Leads(s, states', steps', w, c.readAt, read,
                       Moves(w, c.readAt, Judging(Owning, Get(st, c.readAt, w.sid))))
  {
    var read, found := Lazy(st, ttl, c.readAt, GetOp(w.sid)).0, Judging(Owning, Get(st, c.readAt, w.sid));
    ReadStands(Last(states), w, c.readAt, st, ttl);
    states', steps' := Deliver(s, states, steps, w, c.readAt, st, Reading(Owning), read, found, c.read);
  }

  /** The exchange, up to what the answer leads to. */
  lemma DoExchange(s: State, states: seq<State>, steps: seq<Step>, w: Turns.Owner, c: Turns.Course, st: Store,
                   x: Session, grant: Option<string>)
      returns (states': seq<State>, steps': seq<Step>)
    requires c.Valid() && w.startedAt <= c.start && x.refreshToken.Some?
    requires Leads(s, states, steps, w, c.readAt, st, Exchanging(x))
    ensures Leads(s, states', steps', w, c.answeredAt, st,
                  Moves(w, c.answeredAt, Responded(x, w.endpoint(x.refreshToken.value))))
  {
    var reply := w.endpoint(x.refreshToken.value);
    states', steps' := DoTick(s, states, steps, w, c.readAt, st, Exchanging(x), c.answeredAt);
    RespondStands(Last(states'), w, c.answeredAt, st, x, reply, grant);
    states', steps' := Further(s, states', steps', w, c.answeredAt, st, Exchanging(x),
                               Respond(w.id, reply, grant), c.answeredAt, st, Responded(x, reply));
    states', steps' := DoObserve(s, states', steps', w, c.answeredAt, st, Responded(x, reply));
  }

  lemma InvalidateEnds(s: State, states: seq<State>, steps: seq<Step>, w: Turns.Owner, at: nat, st: Store, ttl: nat,
                   delivery: Delivery)
      returns (states': seq<State>, steps': seq<Step>)
    requires w.startedAt <= at && NormalRecord(st, w.sid)
    requires Leads(s, states, steps, w, at, st, Invalidating)
    ensures var (st', answer) := Lazy(st, ttl, at, InvalidateOp(w.sid, w.id));
            && answer.Mutated?
            && Ends(s, states', steps', w, at, st, Invalidating, st', Invalidated(answer.outcome), delivery)
  {
    InvalidateStands(Last(states), w, at, st, ttl);
    var (st', answer) := Lazy(st, ttl, at, InvalidateOp(w.sid, w.id));
    states', steps' := Deliver(s, states, steps, w, at, st, Invalidating, st', Invalidated(answer.outcome), delivery);
  }

  lemma DoInvalidate(s: State, states: seq<State>, steps: seq<Step>, w: Turns.Owner, c: Turns.Course, st: Store,
                     ttl: nat)
      returns (states': seq<State>, steps': seq<Step>)
    requires w.startedAt <= c.writeAt && NormalRecord(st, w.sid)
    requires Leads(s, states, steps, w, c.writeAt, st, Invalidating)
    ensures var (st', result) := Turns.Invalidated(st, ttl, w, c);
            Leads(s, states', steps', w, c.writeAt, st', Releasing(result))
  {
    states', steps' := InvalidateEnds(s, states, steps, w, c.writeAt, st, ttl, c.write);
  }

  lemma UpdateEnds(s: State, states: seq<State>, steps: seq<Step>, w: Turns.Owner, at: nat, st: Store, ttl: nat,
                   read: Session, x: Session, delivery: Delivery)
      returns (states': seq<State>, steps': seq<Step>)
    requires w.startedAt <= at && NormalRecord(st, w.sid)
    requires Leads(s, states, steps, w, at, st, Updating(read, x))
    ensures var (st', answer) := Lazy(st, ttl, at, UpdateOp(w.sid, w.id, x));
            && answer.Mutated?
            && Ends(s, states', steps', w, at, st, Updating(read, x),
                    st', Updated(x.accessToken, answer.outcome), delivery)
  {
    UpdateStands(Last(states), w, at, st, ttl, read, x);
    var (st', answer) := Lazy(st, ttl, at, UpdateOp(w.sid, w.id, x));
    states', steps' :=
      Deliver(s, states, steps, w, at, st, Updating(read, x), st', Updated(x.accessToken, answer.outcome), delivery);
  }

  lemma DoUpdate(s: State, states: seq<State>, steps: seq<Step>, w: Turns.Owner, c: Turns.Course, st: Store, ttl: nat,
                 read: Session, x: Session)
      returns (states': seq<State>, steps': seq<Step>)
    requires w.startedAt <= c.writeAt && NormalRecord(st, w.sid)
    requires Leads(s, states, steps, w, c.writeAt, st, Updating(read, x))
    ensures var (st', result) := Turns.Updated(st, ttl, w, c, x);
            Leads(s, states', steps', w, c.writeAt, st', Releasing(result))
  {
    states', steps' := UpdateEnds(s, states, steps, w, c.writeAt, st, ttl, read, x, c.write);
  }

  lemma ReleaseEnds(s: State, states: seq<State>, steps: seq<Step>, w: Turns.Owner, at: nat, st: Store, ttl: nat,
                   result: Outcome, delivery: Delivery)
      returns (states': seq<State>, steps': seq<Step>)
    requires w.startedAt <= at
    requires Leads(s, states, steps, w, at, st, Releasing(result))
    ensures var (st', answer) := Lazy(st, ttl, at, ReleaseOp(w.sid, w.id));
            && answer.ReleaseAnswer?
            && Ends(s, states', steps', w, at, st, Releasing(result), st', Freed(result, answer.owned), delivery)
  {
    ReleaseStands(Last(states), w, at, st, ttl, result);
    var (st', answer) := Lazy(st, ttl, at, ReleaseOp(w.sid, w.id));
    states', steps' :=
      Deliver(s, states, steps, w, at, st, Releasing(result), st', Freed(result, answer.owned), delivery);
  }

  lemma ReleasedCases(w: Turns.Owner, c: Turns.Course, st: Store, ttl: nat, result: Outcome)
    ensures var (st', answer) := Lazy(st, ttl, c.releaseAt, ReleaseOp(w.sid, w.id));
            && answer.ReleaseAnswer?
            && Turns.Released(st, ttl, w, c, result) ==
               (if c.release.RequestLost? then st else st',
                if c.release.Delivered? && answer.owned then result else TemporarilyUnavailable)
  {
  }

  lemma ReleaseLeads(s: State, states: seq<State>, steps: seq<Step>, w: Turns.Owner, at: nat, st: Store, st': Store,
                     result: Outcome, owned: bool, delivery: Delivery)
    requires w.startedAt <= at
    requires Ends(s, states, steps, w, at, st, Releasing(result), st', Freed(result, owned), delivery)
    ensures Leads(s, states, steps, w, at, if delivery.RequestLost? then st else st',
                  Done(if delivery.Delivered? && owned then result else TemporarilyUnavailable, true))
  {
  }

  lemma DoRelease(s: State, states: seq<State>, steps: seq<Step>, w: Turns.Owner, c: Turns.Course, st: Store, ttl: nat,
                  result: Outcome)
      returns (states': seq<State>, steps': seq<Step>)
    requires w.startedAt <= c.releaseAt && Leads(s, states, steps, w, c.releaseAt, st, Releasing(result))
    ensures var (st', final) := Turns.Released(st, ttl, w, c, result);
            Leads(s, states', steps', w, c.releaseAt, st', Done(final, true))
  {
    var (st', answer) := Lazy(st, ttl, c.releaseAt, ReleaseOp(w.sid, w.id));
    ReleasedCases(w, c, st, ttl, result);
    states', steps' := ReleaseEnds(s, states, steps, w, c.releaseAt, st, ttl, result, c.release);
    ReleaseLeads(s, states', steps', w, c.releaseAt, st, st', result, answer.owned, c.release);
  }

  /** What the work comes to: where the read leads, and if to an exchange, what its answer leads to. */
  lemma WorkedCases(w: Turns.Owner, c: Turns.Course, st: Store, ttl: nat)
    requires c.Valid() && w.startedAt <= c.start < w.deadline
    ensures var read, worked := Lazy(st, ttl, c.readAt, GetOp(w.sid)).0, Turns.Worked(st, ttl, w, c);
            if c.read.RequestLost? then worked == (st, TemporarilyUnavailable)
            else if c.read.ReplyLost? then worked == (read, TemporarilyUnavailable)
            else
              var next := Moves(w, c.readAt, Judging(Owning, Get(st, c.readAt, w.sid)));
              if next.Exchanging? then
                && next.read.refreshToken.Some?
                && match w.endpoint(next.read.refreshToken.value)
                   case Failed => worked == (read, TemporarilyUnavailable)
                   case InvalidGrant => worked == Turns.Invalidated(read, ttl, w, c)
                   case Tokens(a, r, e) =>
                     worked == Turns.Updated(read, ttl, w, c,
                                             Renewed(next.read, Tokens(a, r, e), w.EffectiveNow(c.answeredAt)))
              else next == Releasing(worked.1) && worked.0 == read
  {
  }

  /** From the exchange to the place of release. */
  lemma DoRefresh(s: State, states: seq<State>, steps: seq<Step>, w: Turns.Owner, c: Turns.Course, st: Store, ttl: nat,
                  x: Session, grant: Option<string>)
      returns (states': seq<State>, steps': seq<Step>, at: nat)
    requires c.Valid() && w.startedAt <= c.start && NormalRecord(st, w.sid) && x.refreshToken.Some?
    requires Leads(s, states, steps, w, c.readAt, st, Exchanging(x))
    ensures at <= c.releaseAt
    ensures match w.endpoint(x.refreshToken.value)
            case Failed => Leads(s, states', steps', w, at, st, Releasing(TemporarilyUnavailable))
            case InvalidGrant =>
              var (st', result) := Turns.Invalidated(st, ttl, w, c);
              Leads(s, states', steps', w, at, st', Releasing(result))
            case Tokens(a, r, e) =>
              var y := Renewed(x, Tokens(a, r, e), w.EffectiveNow(c.answeredAt));
              var (st', result) := Turns.Updated(st, ttl, w, c, y);
              Leads(s, states', steps', w, at, st', Releasing(result))
  {
    states', steps' := DoExchange(s, states, steps, w, c, st, x, grant);
    at := c.answeredAt;
    var reply := w.endpoint(x.refreshToken.value);
    if reply.InvalidGrant? {
      states', steps' := DoTick(s, states', steps', w, at, st, Invalidating, c.writeAt);
      states', steps' := DoInvalidate(s, states', steps', w, c, st, ttl);
      at := c.writeAt;
    } else if reply.Tokens? {
      var y := Renewed(x, reply, w.EffectiveNow(at));
      states', steps' := DoTick(s, states', steps', w, at, st, Updating(x, y), c.writeAt);
      states', steps' := DoUpdate(s, states', steps', w, c, st, ttl, x, y);
      at := c.writeAt;
    }
  }

  /** The work between the grant and the release. */
  lemma DoWork(s: State, states: seq<State>, steps: seq<Step>, w: Turns.Owner, c: Turns.Course, st: Store, ttl: nat,
               grant: Option<string>)
      returns (states': seq<State>, steps': seq<Step>, at: nat)
    requires c.Valid() && w.startedAt <= c.start < w.deadline && NormalRecord(st, w.sid)
    requires Leads(s, states, steps, w, c.readAt, st, Reading(Owning))
    ensures at <= c.releaseAt
    ensures var (st', result) := Turns.Worked(st, ttl, w, c);
            Leads(s, states', steps', w, at, st', Releasing(result))
  {
    at := c.readAt;
    WorkedCases(w, c, st, ttl);
    states', steps' := DoRead(s, states, steps, w, c, st, ttl);
    if c.read.Delivered? {
      var next := Moves(w, c.readAt, Judging(Owning, Get(st, c.readAt, w.sid)));
      if next.Exchanging? {
        var read := Lazy(st, ttl, c.readAt, GetOp(w.sid)).0;
        states', steps', at := DoRefresh(s, states', steps', w, c, read, ttl, next.read, grant);
      }
    }
  }

  /**
   * When only the owner steps, its turn in the protocol is `Turn`: there is such a path from the grant of the
   * lease to the end, with the same outcome, the same locks, and the same records up to the normal form in which
   * Redis keeps the owner's.
   */
  lemma TurnIsPath(s: State, w: Turns.Owner, c: Turns.Course, st: Store, ttl: nat, grant: Option<string>)
      returns (states: seq<State>, steps: seq<Step>)
    requires c.Valid() && w.startedAt <= c.start && NormalRecord(st, w.sid)
    requires s.now == c.start && IsOwner(s, w) && s.resolvers[w.id].pc == Granted && Alike(st, s.store, s.now)
    ensures Path(states, steps) && states[0] == s && OnlyOwner(steps, w.id)
    ensures var (st', result) := Turns.Turn(st, ttl, w, c);
            && Last(states).now == c.releaseAt
            && w.id in Last(states).resolvers && Last(states).resolvers[w.id].pc == Done(result, true)
            && Alike(NormalAt(st', w.sid), Last(states).store, c.releaseAt)
  {
    NormalIsSame(st, w.sid);
    states, steps := [s], [];
    states, steps := DoObserve(s, states, steps, w, c.start, st, Granted);
    if c.start >= w.deadline {
      states, steps := DoTick(s, states, steps, w, c.start, st, Releasing(TemporarilyUnavailable), c.releaseAt);
      states, steps := DoRelease(s, states, steps, w, c, st, ttl, TemporarilyUnavailable);
    } else {
      var (st', result) := Turns.Worked(st, ttl, w, c);
      var at: nat;
      states, steps := DoTick(s, states, steps, w, c.start, st, Reading(Owning), c.readAt);
      states, steps, at := DoWork(s, states, steps, w, c, st, ttl, grant);
      states, steps := DoTick(s, states, steps, w, at, st', Releasing(result), c.releaseAt);
      states, steps := DoRelease(s, states, steps, w, c, st', ttl, result);
    }
  }
}
