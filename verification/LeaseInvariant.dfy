/** What every step of the lease protocol keeps. */
module LeaseInvariant {
  import opened Prelude
  import opened Timing
  import opened SessionStore
  import opened Lease
  import RedisStore

  // ---- reading the log -------------------------------------------------------------------

  /** The record of a session as the log leaves it, whatever its deadline. */
  ghost function Replay(log: seq<Event>, sid: string): Option<Session> {
    if log == [] then None
    else
      var e, before := log[|log| - 1], log[..|log| - 1];
      if e.sid != sid then Replay(before, sid)
      else
        match e
        case Created(_, x) => Some(x)
        case Wrote(_, _, x) => Some(x)
        case Dropped(_, _) => None
        case _ => Replay(before, sid)
  }

  lemma ReplayAppend(log: seq<Event>, e: Event, sid: string)
    ensures Replay(log + [e], sid) ==
            if e.sid != sid then Replay(log, sid)
            else match e
                 case Created(_, x) => Some(x)
                 case Wrote(_, _, x) => Some(x)
                 case Dropped(_, _) => None
                 case _ => Replay(log, sid)
  {
    assert (log + [e])[..|log|] == log;
  }

  ghost predicate IsMutationBy(e: Event, o: string) {
    (e.Wrote? || e.Dropped?) && e.who == o
  }

  /** Between the two positions nothing touched the session or its lock but mutations by `o`. */
  ghost predicate OnlyOwner(log: seq<Event>, from: nat, upto: nat, sid: string, o: string)
    requires upto <= |log|
  {
    forall k | from < k < upto :: log[k].sid == sid ==> IsMutationBy(log[k], o)
  }

  // ---- the invariant -----------------------------------------------------------------------

  /** The lock entry of the resolver's session names it, live or not. */
  ghost predicate Holds(s: State, o: string)
    requires o in s.resolvers
  {
    s.resolvers[o].sid in s.store.locks && s.store.locks[s.resolvers[o].sid].owner == o
  }

  ghost predicate LockOk(s: State, sid: string)
    requires sid in s.store.locks
  {
    var l := s.store.locks[sid];
    && l.owner in s.resolvers
    && s.resolvers[l.owner].sid == sid && s.resolvers[l.owner].acquired
    && l.expiresAt == s.resolvers[l.owner].grantedAt + REFRESH_LOCK_LEASE
  }

  ghost predicate LocksOk(s: State) {
    forall sid | sid in s.store.locks :: LockOk(s, sid)
  }

  ghost predicate SessionOk(s: State, sid: string) {
    && Replay(s.log, sid) == (if sid in s.store.sessions then Some(s.store.sessions[sid].session) else None)
    && (sid in s.store.sessions ==>
          && sid in s.created
          && s.store.sessions[sid].expiresAt == s.created[sid].expiresAt
          && s.store.sessions[sid].session.identity == s.created[sid].session.identity)
  }

  ghost predicate SessionsOk(s: State) {
    forall sid :: SessionOk(s, sid)
  }

  ghost predicate Settled(pc: Pc) {
    || pc.Gone? || (pc.Releasing? && !pc.result.Ready?) || (pc.Freed? && !pc.result.Ready?)
    || (pc.Done? && !pc.result.Ready?)
  }

  ghost predicate LateFits(s: State, request: Request, r: Resolver) {
    match request
    case AcquireRequest => Over(r.pc) && Settled(r.pc) && !r.acquired && r.sid in s.created && r.attemptAt <= s.now
    case ReleaseRequest => Over(r.pc) && Settled(r.pc)
    case UpdateRequest(_) => Settled(r.pc) && r.acquired
    case InvalidateRequest => Settled(r.pc) && r.acquired && r.rejected
  }

  ghost predicate LateOk(s: State) {
    forall p | p in s.late :: p.0 in s.resolvers && LateFits(s, p.1, s.resolvers[p.0])
  }

  ghost predicate StoresToken(log: seq<Event>, sid: string, token: string) {
    Replay(log, sid).Some? && Replay(log, sid).value.accessToken == token
  }

  /** What an owner knows about the stored record while its lock entry stands. */
  ghost predicate Knows(log: seq<Event>, r: Resolver) {
    match r.pc
    case Judging(phase, found) => phase.Owning? && found.Some? ==> Replay(log, r.sid) == found
    case Exchanging(x) => Replay(log, r.sid) == Some(x)
    case Responded(x, _) => Replay(log, r.sid) == Some(x)
    case Updating(x, _) => Replay(log, r.sid) == Some(x)
    case Updated(token, outcome) => outcome.Applied? ==> StoresToken(log, r.sid, token)
    case Releasing(result) => result.Ready? ==> StoresToken(log, r.sid, result.token)
    case _ => true
  }

  /** The record of a completed turn: acquired, nobody else in between, released in time, result as stored. */
  ghost predicate Serial(log: seq<Event>, r: Resolver, o: string, result: Outcome) {
    && r.mark < r.freedMark < |log|
    && log[r.mark] == Acquired(r.sid, o, r.grantedAt)
    && log[r.freedMark].Released? && log[r.freedMark].sid == r.sid && log[r.freedMark].who == o
    && log[r.freedMark].at < r.grantedAt + REFRESH_LOCK_LEASE
    && OnlyOwner(log, r.mark, r.freedMark, r.sid, o)
    && (result.Ready? ==> StoresToken(log[..r.freedMark], r.sid, result.token))
  }

  ghost predicate AcquisitionOk(s: State, o: string, r: Resolver) {
    && r.mark < |s.log| && s.log[r.mark] == Acquired(r.sid, o, r.grantedAt)
    && r.attemptAt <= r.grantedAt <= s.now && r.sid in s.created
  }

  ghost predicate ResolverOk(s: State, o: string)
    requires o in s.resolvers
  {
    var r := s.resolvers[o];
    && (BeforeLock(r.pc) ==> !r.acquired && r.attemptAt <= s.now)
    && (BeforeLock(r.pc) && !(r.pc.Reading? && r.pc.phase.Initial?) && !(r.pc.Judging? && r.pc.found.None?) ==>
          r.sid in s.created)
    && (InSection(r.pc) || r.pc.Freed? ==> r.acquired)
    && (r.acquired ==> AcquisitionOk(s, o, r))
    && (Holds(s, o) ==> OnlyOwner(s.log, r.mark, |s.log|, r.sid, o) && Knows(s.log, r))
    && (InSection(r.pc) && s.now < r.grantedAt + REFRESH_LOCK_LEASE ==> Holds(s, o))
    && (r.pc.Freed? && r.pc.owned ==> Serial(s.log, r, o, r.pc.result))
    && (r.pc.Done? && r.pc.viaLock && r.pc.result.Ready? ==> r.acquired && Serial(s.log, r, o, r.pc.result))
    && (r.pc.Invalidating? || r.pc.Invalidated? ==> r.rejected)
  }

  ghost predicate ResolversOk(s: State) {
    forall o | o in s.resolvers :: ResolverOk(s, o)
  }

  ghost predicate Inv(s: State) {
    LocksOk(s) && SessionsOk(s) && LateOk(s) && ResolversOk(s)
  }

  // ---- the resolvers a step is not about ---------------------------------------------------------

  ghost predicate Extends(log: seq<Event>, log': seq<Event>) {
    log' == log || (log' != [] && log'[..|log'| - 1] == log)
  }

  /** A step that `q` does not take neither takes its lock entry while it counts nor writes behind it. */
  ghost predicate Undisturbed(s: State, s': State, q: string) {
    && q in s.resolvers && q in s'.resolvers && s'.resolvers[q] == s.resolvers[q]
    && s.now <= s'.now && s.created.Keys <= s'.created.Keys
    && Extends(s.log, s'.log)
    && (Holds(s', q) ==> Holds(s, q) && (s'.log != s.log ==> s'.log[|s'.log| - 1].sid != s.resolvers[q].sid))
    && (Holds(s, q) && s'.now < s.resolvers[q].grantedAt + REFRESH_LOCK_LEASE ==> Holds(s', q))
  }

  lemma SerialLater(log: seq<Event>, log': seq<Event>, r: Resolver, o: string, result: Outcome)
    requires Extends(log, log') && Serial(log, r, o, result)
    ensures Serial(log', r, o, result)
  {
    assert log'[..r.freedMark] == log[..r.freedMark];
    assert forall k | 0 <= k < |log| :: log'[k] == log[k];
  }

  lemma KnowsLater(log: seq<Event>, e: Event, r: Resolver)
    requires e.sid != r.sid && Knows(log, r)
    ensures Knows(log + [e], r)
  {
    ReplayAppend(log, e, r.sid);
  }

  lemma UndisturbedOk(s: State, s': State, q: string)
    requires Undisturbed(s, s', q) && ResolverOk(s, q)
    ensures ResolverOk(s', q)
  {
    var r := s.resolvers[q];
    if s'.log != s.log {
      var e := s'.log[|s'.log| - 1];
      assert s'.log == s.log + [e];
      if Holds(s', q) {
        KnowsLater(s.log, e, r);
      }
    }
    if r.pc.Freed? && r.pc.owned {
      SerialLater(s.log, s'.log, r, q, r.pc.result);
    }
    if r.pc.Done? && r.pc.viaLock && r.pc.result.Ready? {
      SerialLater(s.log, s'.log, r, q, r.pc.result);
    }
  }

  // ---- steps that change no store content ----------------------------------------------------------

  /** Only the place, the timers and the flags of one resolver change, and perhaps what is left behind. */
  ghost predicate Quiet(s: State, s': State, o: string) {
    && o in s.resolvers && o in s'.resolvers
    && s'.now == s.now && s'.store == s.store && s'.created == s.created && s'.log == s.log
    && s'.resolvers == s.resolvers[o := s'.resolvers[o]]
    && var r, r' := s.resolvers[o], s'.resolvers[o];
       && r'.sid == r.sid && r'.acquired == r.acquired && r'.mark == r.mark && r'.grantedAt == r.grantedAt
       && r'.freedMark == r.freedMark
  }

  lemma QuietKeepsInv(s: State, s': State, o: string)
    requires Inv(s) && Quiet(s, s', o) && ResolverOk(s', o) && LateOk(s')
    ensures Inv(s')
  {
    forall q | q in s'.resolvers ensures ResolverOk(s', q) {
      if q != o {
        assert ResolverOk(s, q);
        UndisturbedOk(s, s', q);
      }
    }
    forall sid | sid in s'.store.locks ensures LockOk(s', sid) {
      assert LockOk(s, sid);
    }
    forall sid ensures SessionOk(s', sid) {
      assert SessionOk(s, sid);
    }
  }

  /** Requests left behind still fit when nothing is added and their sender moves on in good order. */
  lemma LateKept(s: State, s': State, o: string)
    requires LateOk(s) && o in s.resolvers && o in s'.resolvers
    requires s'.late <= s.late && s'.now == s.now && s'.created == s.created
    requires s'.resolvers == s.resolvers[o := s'.resolvers[o]]
    requires var r, r' := s.resolvers[o], s'.resolvers[o];
             && r'.sid == r.sid
             && (Settled(r.pc) ==> Settled(r'.pc))
             && (Over(r.pc) ==> Over(r'.pc) && r'.attemptAt == r.attemptAt)
             && (r.rejected ==> r'.rejected)
             && (r.acquired ==> r'.acquired)
             && (Over(r.pc) && (o, AcquireRequest) in s'.late ==> r'.acquired == r.acquired)
    ensures LateOk(s')
  {
    forall p | p in s'.late ensures p.0 in s'.resolvers && LateFits(s', p.1, s'.resolvers[p.0]) {
      assert LateFits(s, p.1, s.resolvers[p.0]);
    }
  }

  /** The client's own moves: they are quiet, and they never leave a settled place. */
  lemma ContinuedFrame(s: State, r: Resolver)
    requires Observable(r.pc)
    ensures var r' := Continued(s, r);
            && r' == r.(pc := r'.pc, waitStart := r'.waitStart, attemptAt := r'.attemptAt, rejected := r'.rejected,
                       sentAt := r'.sentAt)
            && (r.rejected ==> r'.rejected)
            && (Settled(r.pc) ==> Settled(r'.pc))
  {
  }

  lemma ContinuedQuiet(s: State, o: string)
    requires Enabled(s, Observe(o))
    ensures Quiet(s, Apply(s, Observe(o)), o)
    ensures s.resolvers[o].rejected ==> Apply(s, Observe(o)).resolvers[o].rejected
    ensures Settled(s.resolvers[o].pc) ==> Settled(Apply(s, Observe(o)).resolvers[o].pc)
  {
    ContinuedFrame(s, s.resolvers[o]);
    assert Apply(s, Observe(o)) == s.(resolvers := s.resolvers[o := Continued(s, s.resolvers[o])]);
  }

  lemma JudgingOk(s: State, o: string)
    requires o in s.resolvers && ResolverOk(s, o) && s.resolvers[o].pc.Judging? && !s.resolvers[o].pc.phase.Owning?
    ensures ResolverOk(Apply(s, Observe(o)), o)
  {
    var r := s.resolvers[o];
    var r' := Judged(s, r);
    assert (r'.pc.Done? && !r'.pc.viaLock) || r'.pc.Discovering? || r'.pc.Attempting?;
  }

  lemma OwnerJudgingOk(s: State, o: string)
    requires o in s.resolvers && ResolverOk(s, o) && s.resolvers[o].pc.Judging? && s.resolvers[o].pc.phase.Owning?
    ensures ResolverOk(Apply(s, Observe(o)), o)
  {
    var r := s.resolvers[o];
    var r' := Judged(s, r);
    assert r' == r.(pc := r'.pc, sentAt := r'.sentAt) && (r'.pc.Releasing? || r'.pc.Exchanging?);
  }

  lemma BeforeLockOk(s: State, o: string)
    requires o in s.resolvers && ResolverOk(s, o)
    requires s.resolvers[o].pc.Discovering? || s.resolvers[o].pc.Refused? || s.resolvers[o].pc.Sleeping?
    ensures ResolverOk(Apply(s, Observe(o)), o)
  {
    var r := s.resolvers[o];
    var r' := Continued(s, r);
    assert (r'.pc.Done? && !r'.pc.viaLock) || r'.pc.Attempting? || r'.pc.Sleeping? || r'.pc == Reading(Polling);
  }

  lemma OwnerObserveOk(s: State, o: string)
    requires o in s.resolvers && ResolverOk(s, o)
    requires var pc := s.resolvers[o].pc; pc.Granted? || pc.Responded? || pc.Updated? || pc.Invalidated?
    ensures ResolverOk(Apply(s, Observe(o)), o)
  {
    var r := s.resolvers[o];
    var r' := Continued(s, r);
    assert r' == r.(pc := r'.pc, rejected := r'.rejected);
    assert r'.pc.Releasing? || r'.pc == Reading(Owning) || r'.pc.Updating? || (r'.pc.Invalidating? && r'.rejected);
    assert r'.pc.Releasing? && r'.pc.result.Ready? ==> r.pc.Updated? && r.pc.outcome.Applied?;
  }

  lemma FreedOk(s: State, o: string)
    requires o in s.resolvers && ResolverOk(s, o) && s.resolvers[o].pc.Freed?
    ensures ResolverOk(Apply(s, Observe(o)), o)
  {
    var r := s.resolvers[o];
    var r' := Continued(s, r);
    assert r' == r.(pc := r'.pc);
    assert r.pc.owned ==> Serial(s.log, r', o, r.pc.result);
  }

  lemma ObserverOk(s: State, o: string)
    requires Enabled(s, Observe(o)) && ResolverOk(s, o)
    ensures ResolverOk(Apply(s, Observe(o)), o)
  {
    match s.resolvers[o].pc
    case Judging(phase, _) => if phase.Owning? { OwnerJudgingOk(s, o); } else { JudgingOk(s, o); }
    case Discovering => BeforeLockOk(s, o);
    case Refused => BeforeLockOk(s, o);
    case Sleeping => BeforeLockOk(s, o);
    case Freed(_, _) => FreedOk(s, o);
    case _ => OwnerObserveOk(s, o);
  }

  lemma ObserveKeepsInv(s: State, o: string)
    requires Inv(s) && Enabled(s, Observe(o))
    ensures Inv(Apply(s, Observe(o)))
  {
    var s' := Apply(s, Observe(o));
    ContinuedQuiet(s, o);
    LateKept(s, s', o);
    ObserverOk(s, o);
    QuietKeepsInv(s, s', o);
  }

  lemma RespondKeepsInv(s: State, o: string, reply: TokenReply, grant: Option<string>)
    requires Inv(s) && Enabled(s, Respond(o, reply, grant))
    ensures Inv(Apply(s, Respond(o, reply, grant)))
  {
    var s' := Apply(s, Respond(o, reply, grant));
    assert Quiet(s, s', o);
    RespondedOk(s, o, reply, grant);
    LateKept(s, s', o);
    QuietKeepsInv(s, s', o);
  }

  lemma RespondedOk(s: State, o: string, reply: TokenReply, grant: Option<string>)
    requires Enabled(s, Respond(o, reply, grant)) && ResolverOk(s, o)
    ensures ResolverOk(Apply(s, Respond(o, reply, grant)), o)
  {
  }

  /** Giving up, at any place, in any of the ways the client has. */
  lemma LeavingKeepsInv(s: State, o: string, pc: Pc)
    requires Inv(s) && o in s.resolvers && !Over(s.resolvers[o].pc)
    requires Settled(pc) && !pc.Freed?
    requires pc.Releasing? ==> InSection(s.resolvers[o].pc) && !s.resolvers[o].pc.Releasing?
    ensures Inv(LeftBehind(s, o, pc))
  {
    var s' := LeftBehind(s, o, pc);
    assert Quiet(s, s', o);
    LeftOk(s, o, pc);
    LeavingLateOk(s, o, pc);
    QuietKeepsInv(s, s', o);
  }

  lemma LeftOk(s: State, o: string, pc: Pc)
    requires o in s.resolvers && ResolverOk(s, o)
    requires Settled(pc) && !pc.Freed?
    requires pc.Releasing? ==> InSection(s.resolvers[o].pc) && !s.resolvers[o].pc.Releasing?
    ensures ResolverOk(LeftBehind(s, o, pc), o)
  {
  }

  lemma LeavingLateOk(s: State, o: string, pc: Pc)
    requires Inv(s) && o in s.resolvers && !Over(s.resolvers[o].pc)
    requires Settled(pc) && !pc.Freed?
    requires pc.Releasing? ==> InSection(s.resolvers[o].pc) && !s.resolvers[o].pc.Releasing?
    ensures LateOk(LeftBehind(s, o, pc))
  {
    var s', r := LeftBehind(s, o, pc), s.resolvers[o];
    assert ResolverOk(s, o);
    forall p | p in s'.late ensures p.0 in s'.resolvers && LateFits(s', p.1, s'.resolvers[p.0]) {
      if p in s.late {
        assert LateFits(s, p.1, s.resolvers[p.0]);
      }
    }
  }

  lemma ReadOk(s: State, o: string)
    requires Enabled(s, Answer(o)) && s.resolvers[o].pc.Reading?
    requires ResolverOk(s, o) && SessionOk(s, s.resolvers[o].sid)
    ensures ResolverOk(Apply(s, Answer(o)), o)
  {
  }

  lemma ReadKeepsInv(s: State, o: string)
    requires Inv(s) && Enabled(s, Answer(o)) && s.resolvers[o].pc.Reading?
    ensures Inv(Apply(s, Answer(o)))
  {
    var s' := Apply(s, Answer(o));
    assert Quiet(s, s', o);
    ReadOk(s, o);
    LateKept(s, s', o);
    QuietKeepsInv(s, s', o);
  }

  lemma StartKeepsInv(s: State, o: string, sid: string, gap: nat)
    requires Inv(s) && Enabled(s, Start(o, sid, gap))
    ensures Inv(Apply(s, Start(o, sid, gap)))
  {
    var s' := Apply(s, Start(o, sid, gap));
    forall q | q in s'.resolvers ensures ResolverOk(s', q) {
      if q != o {
        assert ResolverOk(s, q);
        UndisturbedOk(s, s', q);
      } else {
        assert sid in s.store.locks ==> LockOk(s, sid);
      }
    }
    forall t | t in s'.store.locks ensures LockOk(s', t) {
      assert LockOk(s, t);
    }
    forall t ensures SessionOk(s', t) {
      assert SessionOk(s, t);
    }
    forall p | p in s'.late ensures p.0 in s'.resolvers && LateFits(s', p.1, s'.resolvers[p.0]) {
      assert p.0 in s.resolvers && LateFits(s, p.1, s.resolvers[p.0]);
    }
  }

  lemma TickKeepsInv(s: State, to: nat)
    requires Inv(s) && Enabled(s, Tick(to))
    ensures Inv(Apply(s, Tick(to)))
  {
    var s' := Apply(s, Tick(to));
    forall q | q in s'.resolvers ensures ResolverOk(s', q) {
      assert ResolverOk(s, q);
      UndisturbedOk(s, s', q);
    }
    forall t | t in s'.store.locks ensures LockOk(s', t) {
      assert LockOk(s, t);
    }
    forall t ensures SessionOk(s', t) {
      assert SessionOk(s, t);
    }
    forall p | p in s'.late ensures p.0 in s'.resolvers && LateFits(s', p.1, s'.resolvers[p.0]) {
      assert p.0 in s.resolvers && LateFits(s, p.1, s.resolvers[p.0]);
    }
  }

  lemma LoginKeepsInv(s: State, sid: string, x: Session)
    requires Inv(s) && Enabled(s, Login(sid, x))
    ensures Inv(Apply(s, Login(sid, x)))
  {
    var s' := Apply(s, Login(sid, x));
    assert s'.log[..|s'.log| - 1] == s.log;
    forall q | q in s'.resolvers ensures ResolverOk(s', q) {
      assert ResolverOk(s, q);
      if Holds(s', q) {
        assert LockOk(s, s.resolvers[q].sid);
      }
      UndisturbedOk(s, s', q);
    }
    forall t | t in s'.store.locks ensures LockOk(s', t) {
      assert LockOk(s, t);
    }
    forall t ensures SessionOk(s', t) {
      assert SessionOk(s, t);
      ReplayAppend(s.log, Created(sid, RedisStore.Normalised(x)), t);
    }
    forall p | p in s'.late ensures p.0 in s'.resolvers && LateFits(s', p.1, s'.resolvers[p.0]) {
      assert p.0 in s.resolvers && LateFits(s, p.1, s.resolvers[p.0]);
    }
  }

  lemma DriftKeepsInv(s: State, sid: string, grant: Option<string>)
    requires Inv(s)
    ensures Inv(Apply(s, Drift(sid, grant)))
  {
    var s' := Apply(s, Drift(sid, grant));
    forall q | q in s'.resolvers ensures ResolverOk(s', q) {
      assert ResolverOk(s, q);
      UndisturbedOk(s, s', q);
    }
    forall t | t in s'.store.locks ensures LockOk(s', t) {
      assert LockOk(s, t);
    }
    forall t ensures SessionOk(s', t) {
      assert SessionOk(s, t);
    }
    forall p | p in s'.late ensures p.0 in s'.resolvers && LateFits(s', p.1, s'.resolvers[p.0]) {
      assert p.0 in s.resolvers && LateFits(s, p.1, s.resolvers[p.0]);
    }
  }

  // ---- steps that change the store -------------------------------------------------------------------

  /** A change by `o` to its own session and lock, at a moment when no other lock on it is live. */
  ghost predicate Effect(s: State, s': State, o: string, r': Resolver, e: Event) {
    && o in s.resolvers && s'.resolvers == s.resolvers[o := r']
    && r'.sid == s.resolvers[o].sid && e.sid == r'.sid && s'.log == s.log + [e]
    && s'.now == s.now && s'.created == s.created
    && (Locked(s.store, s.now, r'.sid) ==> s.store.locks[r'.sid].owner == o)
    && (r'.sid in s'.store.locks ==> s'.store.locks[r'.sid].owner == o)
    && s'.store.locks - {r'.sid} == s.store.locks - {r'.sid}
    && s'.store.sessions - {r'.sid} == s.store.sessions - {r'.sid}
  }

  lemma BystanderOk(s: State, s': State, o: string, r': Resolver, e: Event, q: string)
    requires Effect(s, s', o, r', e) && q in s.resolvers && q != o && ResolverOk(s, q)
    requires s.resolvers[q].sid in s.store.locks ==> LockOk(s, s.resolvers[q].sid)
    ensures ResolverOk(s', q)
  {
    assert s'.log[..|s'.log| - 1] == s.log;
    var sid := s.resolvers[q].sid;
    if sid != r'.sid {
      assert sid in s'.store.locks <==> sid in s'.store.locks - {r'.sid};
      assert sid in s.store.locks <==> sid in s.store.locks - {r'.sid};
      assert sid in s.store.locks ==> s.store.locks[sid] == (s.store.locks - {r'.sid})[sid];
      assert sid in s.store.locks ==> s'.store.locks[sid] == (s'.store.locks - {r'.sid})[sid];
    }
    UndisturbedOk(s, s', q);
  }

  lemma OtherLockOk(s: State, s': State, o: string, r': Resolver, e: Event, sid: string)
    requires Effect(s, s', o, r', e) && sid != r'.sid && sid in s'.store.locks
    requires sid in s.store.locks ==> LockOk(s, sid)
    ensures LockOk(s', sid)
  {
    assert sid in s'.store.locks - {r'.sid};
    assert s.store.locks[sid] == (s.store.locks - {r'.sid})[sid];
    assert s'.store.locks[sid] == (s'.store.locks - {r'.sid})[sid];
  }

  lemma OtherSessionOk(s: State, s': State, o: string, r': Resolver, e: Event, sid: string)
    requires Effect(s, s', o, r', e) && sid != r'.sid && SessionOk(s, sid)
    ensures SessionOk(s', sid)
  {
    ReplayAppend(s.log, e, sid);
    assert sid in s'.store.sessions <==> sid in s'.store.sessions - {r'.sid};
    assert sid in s.store.sessions <==> sid in s.store.sessions - {r'.sid};
    assert sid in s.store.sessions ==> s.store.sessions[sid] == (s.store.sessions - {r'.sid})[sid];
    assert sid in s.store.sessions ==> s'.store.sessions[sid] == (s'.store.sessions - {r'.sid})[sid];
  }

  lemma EffectKeepsInv(s: State, s': State, o: string, r': Resolver, e: Event)
    requires Inv(s) && Effect(s, s', o, r', e)
    requires LateOk(s') && ResolverOk(s', o) && SessionOk(s', r'.sid)
    requires r'.sid in s'.store.locks ==> LockOk(s', r'.sid)
    ensures Inv(s')
  {
    forall q | q in s'.resolvers ensures ResolverOk(s', q) {
      if q != o { BystanderOk(s, s', o, r', e, q); }
    }
    forall sid | sid in s'.store.locks ensures LockOk(s', sid) {
      if sid != r'.sid { OtherLockOk(s, s', o, r', e, sid); }
    }
    forall sid ensures SessionOk(s', sid) {
      if sid != r'.sid { OtherSessionOk(s, s', o, r', e, sid); }
    }
  }

  /** A granted lease: the previous entry, if any, had run out. */
  lemma AcquiredOk(s: State, s': State, o: string, r': Resolver, e: Event)
    requires o in s.resolvers && ResolverOk(s, o) && SessionOk(s, r'.sid) && Effect(s, s', o, r', e)
    requires var r := s.resolvers[o]; !r.acquired && r.sid in s.created && r.attemptAt <= s.now
    requires r' == s.resolvers[o].(acquired := true, mark := |s.log|, grantedAt := s.now, pc := r'.pc)
    requires r'.pc.Granted? || (Over(r'.pc) && Settled(r'.pc))
    requires e == Acquired(r'.sid, o, s.now)
    requires s'.store == s.store.(locks := s.store.locks[r'.sid := Lock(o, s.now + REFRESH_LOCK_LEASE)])
    ensures ResolverOk(s', o) && SessionOk(s', r'.sid) && LockOk(s', r'.sid)
  {
    ReplayAppend(s.log, e, r'.sid);
  }

  /** A release that took effect: the record of the turn is complete. */
  lemma FreedInTimeOk(s: State, s': State, o: string, r': Resolver, e: Event)
    requires o in s.resolvers && ResolverOk(s, o) && SessionOk(s, r'.sid) && Effect(s, s', o, r', e)
    requires HeldBy(s.store, s.now, r'.sid, o) && LockOk(s, r'.sid)
    requires r' == s.resolvers[o].(freedMark := |s.log|, pc := r'.pc)
    requires (s.resolvers[o].pc.Releasing? && r'.pc == Freed(s.resolvers[o].pc.result, true))
          || (Over(r'.pc) && Settled(r'.pc))
    requires e == Released(r'.sid, o, s.now)
    requires s'.store == s.store.(locks := s.store.locks - {r'.sid})
    ensures ResolverOk(s', o) && SessionOk(s', r'.sid)
  {
    ReplayAppend(s.log, e, r'.sid);
    assert s'.log[..r'.freedMark] == s.log;
    assert s'.log[r'.mark] == s.log[r'.mark];
    if r'.pc.Freed? {
      assert Serial(s'.log, r', o, r'.pc.result);
    }
  }

  /** A write or removal by the owner of the live lock. */
  lemma MutatedOk(s: State, s': State, o: string, r': Resolver, e: Event)
    requires o in s.resolvers && ResolverOk(s, o) && SessionOk(s, r'.sid) && Effect(s, s', o, r', e)
    requires HeldBy(s.store, s.now, r'.sid, o) && LockOk(s, r'.sid)
    requires r' == s.resolvers[o].(pc := r'.pc)
    requires IsMutationBy(e, o) && r'.sid in s.store.sessions
    requires || (Settled(r'.pc) && r'.pc == s.resolvers[o].pc)
             || (e.Wrote? && s.resolvers[o].pc.Updating? && r'.pc.Updated? && r'.pc.token == e.session.accessToken)
             || (s.resolvers[o].pc.Invalidating? && r'.pc.Invalidated?)
    requires e.Wrote? ==> e.session.identity == s.store.sessions[r'.sid].session.identity
    requires s'.store == s.store.(sessions :=
                           if e.Wrote? then s.store.sessions[r'.sid := s.store.sessions[r'.sid].(session := e.session)]
                           else s.store.sessions - {r'.sid})
    ensures ResolverOk(s', o) && SessionOk(s', r'.sid) && LockOk(s', r'.sid)
  {
    ReplayAppend(s.log, e, r'.sid);
    assert s'.log[r'.mark] == s.log[r'.mark];
  }

  // ---- the store executes a request, in time or late --------------------------------------------------

  /** The request is answered to the place `answer`, or executed after its sender stopped waiting. */
  ghost predicate Executes(
      s: State, o: string, request: Request, late: set<(string, Request)>, pc: Pc, answer: Pc)
  {
    && o in s.resolvers
    && (|| (Outstanding(s.resolvers[o].pc) == Some(request) && late == s.late && pc == answer)
        || ((o, request) in s.late && late == s.late - {(o, request)} && pc == s.resolvers[o].pc))
  }

  lemma ExecutedLateOk(
      s: State, s': State, o: string, request: Request, late: set<(string, Request)>, pc: Pc, answer: Pc)
    requires Inv(s) && Executes(s, o, request, late, pc, answer) && s'.late == late
    requires s'.now == s.now && s'.created == s.created
    requires o in s'.resolvers && s'.resolvers == s.resolvers[o := s'.resolvers[o]]
    requires var r, r' := s.resolvers[o], s'.resolvers[o];
             && r'.sid == r.sid && r'.pc == pc && r'.attemptAt == r.attemptAt && r'.rejected == r.rejected
             && (r.acquired ==> r'.acquired) && (!request.AcquireRequest? ==> r'.acquired == r.acquired)
    requires Settled(s.resolvers[o].pc) && Outstanding(s.resolvers[o].pc) == Some(request) ==> Settled(pc)
    ensures LateOk(s')
  {
    LateKept(s, s', o);
  }

  /** A request the store turns down changes nothing. */
  lemma RefusedKeepsInv(
      s: State, s': State, o: string, request: Request, late: set<(string, Request)>, pc: Pc, answer: Pc)
    requires Inv(s) && Executes(s, o, request, late, pc, answer)
    requires s' == s.(late := late, resolvers := s.resolvers[o := s.resolvers[o].(pc := pc)])
    requires || answer.Refused? || (answer.Updated? && !answer.outcome.Applied?) || answer.Invalidated?
             || (answer.Freed? && !answer.owned)
    requires request == AcquireRequest <==> answer.Refused?
    requires request.UpdateRequest? <==> answer.Updated?
    requires request.ReleaseRequest? <==> answer.Freed?
    requires answer.Freed? && s.resolvers[o].pc.Releasing? ==> answer.result == s.resolvers[o].pc.result
    ensures Inv(s')
  {
    ExecutedLateOk(s, s', o, request, late, pc, answer);
    RefusedOk(s, s', o, request, late, pc, answer);
    QuietKeepsInv(s, s', o);
  }

  lemma RefusedOk(
      s: State, s': State, o: string, request: Request, late: set<(string, Request)>, pc: Pc, answer: Pc)
    requires Executes(s, o, request, late, pc, answer) && ResolverOk(s, o)
    requires s' == s.(late := late, resolvers := s.resolvers[o := s.resolvers[o].(pc := pc)])
    requires || answer.Refused? || (answer.Updated? && !answer.outcome.Applied?) || answer.Invalidated?
             || (answer.Freed? && !answer.owned)
    requires request == AcquireRequest <==> answer.Refused?
    requires request.UpdateRequest? <==> answer.Updated?
    requires request.ReleaseRequest? <==> answer.Freed?
    ensures ResolverOk(s', o)
  {
  }

  /** What an executed request leaves, in one piece. */
  lemma AcquireShape(s: State, o: string, late: set<(string, Request)>, pc: Pc)
    requires o in s.resolvers
    ensures var (t, granted) := Acquire(s.(late := late), o);
            var r, s' := s.resolvers[o], WithPc(t, o, pc);
            && granted == !Locked(s.store, s.now, r.sid)
            && s'.late == late
            && (if granted then
                  && s'.resolvers[o] == r.(acquired := true, mark := |s.log|, grantedAt := s.now, pc := pc)
                  && s'.store == s.store.(locks := s.store.locks[r.sid := Lock(o, s.now + REFRESH_LOCK_LEASE)])
                  && Effect(s, s', o, s'.resolvers[o], Acquired(r.sid, o, s.now))
                else s' == s.(late := late, resolvers := s.resolvers[o := r.(pc := pc)]))
  {
  }

  lemma AcquireKeepsInv(s: State, o: string, late: set<(string, Request)>, pc: Pc)
    requires Inv(s) && o in s.resolvers
    requires var granted := Acquire(s.(late := late), o).1;
             Executes(s, o, AcquireRequest, late, pc, if granted then Granted else Refused)
    ensures Inv(WithPc(Acquire(s.(late := late), o).0, o, pc))
  {
    var (t, granted) := Acquire(s.(late := late), o);
    var s', r := WithPc(t, o, pc), s.resolvers[o];
    AcquireShape(s, o, late, pc);
    if granted {
      assert ResolverOk(s, o) && SessionOk(s, r.sid);
      assert (o, AcquireRequest) in s.late ==> LateFits(s, AcquireRequest, r);
      ExecutedLateOk(s, s', o, AcquireRequest, late, pc, Granted);
      AcquiredOk(s, s', o, s'.resolvers[o], Acquired(r.sid, o, s.now));
      EffectKeepsInv(s, s', o, s'.resolvers[o], Acquired(r.sid, o, s.now));
    } else {
      RefusedKeepsInv(s, s', o, AcquireRequest, late, pc, Refused);
    }
  }

  lemma FreeShape(s: State, o: string, late: set<(string, Request)>, pc: Pc)
    requires o in s.resolvers
    ensures var (t, owned) := Free(s.(late := late), o);
            var r, s' := s.resolvers[o], WithPc(t, o, pc);
            && owned == HeldBy(s.store, s.now, r.sid, o)
            && s'.late == late
            && (if owned then
                  && s'.resolvers[o] == r.(freedMark := |s.log|, pc := pc)
                  && s'.store == s.store.(locks := s.store.locks - {r.sid})
                  && Effect(s, s', o, s'.resolvers[o], Released(r.sid, o, s.now))
                else s' == s.(late := late, resolvers := s.resolvers[o := r.(pc := pc)]))
  {
  }

  lemma FreeKeepsInv(s: State, o: string, late: set<(string, Request)>, pc: Pc, result: Outcome)
    requires Inv(s) && o in s.resolvers
    requires Executes(s, o, ReleaseRequest, late, pc, Freed(result, Free(s.(late := late), o).1))
    requires s.resolvers[o].pc.Releasing? ==> result == s.resolvers[o].pc.result
    ensures Inv(WithPc(Free(s.(late := late), o).0, o, pc))
  {
    var (t, owned) := Free(s.(late := late), o);
    var s', r := WithPc(t, o, pc), s.resolvers[o];
    FreeShape(s, o, late, pc);
    if owned {
      assert ResolverOk(s, o) && SessionOk(s, r.sid) && LockOk(s, r.sid);
      assert (o, ReleaseRequest) in s.late ==> LateFits(s, ReleaseRequest, r);
      ExecutedLateOk(s, s', o, ReleaseRequest, late, pc, Freed(result, owned));
      FreedInTimeOk(s, s', o, s'.resolvers[o], Released(r.sid, o, s.now));
      EffectKeepsInv(s, s', o, s'.resolvers[o], Released(r.sid, o, s.now));
    } else {
      RefusedKeepsInv(s, s', o, ReleaseRequest, late, pc, Freed(result, owned));
    }
  }

  lemma WriteShape(s: State, o: string, x: Session, late: set<(string, Request)>, pc: Pc)
    requires o in s.resolvers
    ensures var (t, outcome) := Write(s.(late := late), o, x);
            var r, s' := s.resolvers[o], WithPc(t, o, pc);
            && s'.late == late && s'.resolvers[o] == r.(pc := pc)
            && (if outcome.Applied? then
                  && HeldBy(s.store, s.now, r.sid, o) && Readable(s.store, s.now, r.sid)
                  && var y := Refreshed(s.store.sessions[r.sid].session, RedisStore.Normalised(x));
                     && s'.store ==
                        s.store.(sessions := s.store.sessions[r.sid := s.store.sessions[r.sid].(session := y)])
                     && Effect(s, s', o, s'.resolvers[o], Wrote(r.sid, o, y))
                else s' == s.(late := late, resolvers := s.resolvers[o := r.(pc := pc)]))
  {
  }

  lemma WriteKeepsInv(s: State, o: string, x: Session, late: set<(string, Request)>, pc: Pc)
    requires Inv(s) && o in s.resolvers
    requires Executes(s, o, UpdateRequest(x), late, pc, Updated(x.accessToken, Write(s.(late := late), o, x).1))
    ensures Inv(WithPc(Write(s.(late := late), o, x).0, o, pc))
  {
    var (t, outcome) := Write(s.(late := late), o, x);
    var s', r := WithPc(t, o, pc), s.resolvers[o];
    WriteShape(s, o, x, late, pc);
    if outcome.Applied? {
      assert ResolverOk(s, o) && SessionOk(s, r.sid) && LockOk(s, r.sid);
      assert (o, UpdateRequest(x)) in s.late ==> LateFits(s, UpdateRequest(x), r);
      var e := Wrote(r.sid, o, Refreshed(s.store.sessions[r.sid].session, RedisStore.Normalised(x)));
      ExecutedLateOk(s, s', o, UpdateRequest(x), late, pc, Updated(x.accessToken, outcome));
      MutatedOk(s, s', o, s'.resolvers[o], e);
      EffectKeepsInv(s, s', o, s'.resolvers[o], e);
    } else {
      RefusedKeepsInv(s, s', o, UpdateRequest(x), late, pc, Updated(x.accessToken, outcome));
    }
  }

  lemma DropShape(s: State, o: string, late: set<(string, Request)>, pc: Pc)
    requires o in s.resolvers
    ensures var (t, outcome) := Drop(s.(late := late), o);
            var r, s' := s.resolvers[o], WithPc(t, o, pc);
            && s'.late == late && s'.resolvers[o] == r.(pc := pc)
            && (if outcome.Applied? then
                  && HeldBy(s.store, s.now, r.sid, o) && Readable(s.store, s.now, r.sid)
                  && s'.store == s.store.(sessions := s.store.sessions - {r.sid})
                  && Effect(s, s', o, s'.resolvers[o], Dropped(r.sid, o))
                else s' == s.(late := late, resolvers := s.resolvers[o := r.(pc := pc)]))
  {
  }

  lemma DropKeepsInv(s: State, o: string, late: set<(string, Request)>, pc: Pc)
    requires Inv(s) && o in s.resolvers
    requires Executes(s, o, InvalidateRequest, late, pc, Invalidated(Drop(s.(late := late), o).1))
    ensures Inv(WithPc(Drop(s.(late := late), o).0, o, pc))
  {
    var (t, outcome) := Drop(s.(late := late), o);
    var s', r := WithPc(t, o, pc), s.resolvers[o];
    DropShape(s, o, late, pc);
    if outcome.Applied? {
      assert ResolverOk(s, o) && SessionOk(s, r.sid) && LockOk(s, r.sid);
      assert (o, InvalidateRequest) in s.late ==> LateFits(s, InvalidateRequest, r);
      var e := Dropped(r.sid, o);
      ExecutedLateOk(s, s', o, InvalidateRequest, late, pc, Invalidated(outcome));
      MutatedOk(s, s', o, s'.resolvers[o], e);
      EffectKeepsInv(s, s', o, s'.resolvers[o], e);
    } else {
      RefusedKeepsInv(s, s', o, InvalidateRequest, late, pc, Invalidated(outcome));
    }
  }

  lemma AnswerKeepsInv(s: State, o: string)
    requires Inv(s) && Enabled(s, Answer(o))
    ensures Inv(Apply(s, Answer(o)))
  {
    assert s.(late := s.late) == s;
    match s.resolvers[o].pc {
      case Reading(_) => ReadKeepsInv(s, o);
      case Attempting => AcquireKeepsInv(s, o, s.late, if Acquire(s, o).1 then Granted else Refused);
      case Updating(_, x) => WriteKeepsInv(s, o, x, s.late, Updated(x.accessToken, Write(s, o, x).1));
      case Invalidating => DropKeepsInv(s, o, s.late, Invalidated(Drop(s, o).1));
      case Releasing(result) =>
        FreeKeepsInv(s, o, s.late, Freed(result, Free(s, o).1), result);
    }
  }

  lemma LateKeepsInv(s: State, o: string, request: Request)
    requires Inv(s) && Enabled(s, Late(o, request))
    ensures Inv(Apply(s, Late(o, request)))
  {
    var late, pc := s.late - {(o, request)}, s.resolvers[o].pc;
    SamePc(s, o, request);
    match request {
      case AcquireRequest => AcquireKeepsInv(s, o, late, pc);
      case UpdateRequest(x) => WriteKeepsInv(s, o, x, late, pc);
      case InvalidateRequest => DropKeepsInv(s, o, late, pc);
      case ReleaseRequest =>
        assert LateFits(s, request, s.resolvers[o]);
        FreeKeepsInv(s, o, late, pc, TemporarilyUnavailable);
    }
  }

  lemma SamePc(s: State, o: string, request: Request)
    requires o in s.resolvers
    ensures ExecutedLate(s, o, request) == WithPc(ExecutedLate(s, o, request), o, s.resolvers[o].pc)
  {
    var t := ExecutedLate(s, o, request);
    assert t.resolvers[o := t.resolvers[o]] == t.resolvers;
  }

  lemma FailKeepsInv(s: State, o: string)
    requires Inv(s) && Enabled(s, Fail(o))
    ensures Inv(Apply(s, Fail(o)))
  {
    LeavingKeepsInv(s, o, AfterFailure(s.resolvers[o].pc));
  }

  lemma StepKeepsInv(s: State, step: Step)
    requires Inv(s) && Enabled(s, step)
    ensures Inv(Apply(s, step))
  {
    match step {
      case Tick(to) => TickKeepsInv(s, to);
      case Login(sid, x) => LoginKeepsInv(s, sid, x);
      case Start(o, sid, gap) => StartKeepsInv(s, o, sid, gap);
      case Answer(o) => AnswerKeepsInv(s, o);
      case Observe(o) => ObserveKeepsInv(s, o);
      case Respond(o, reply, grant) => RespondKeepsInv(s, o, reply, grant);
      case Fail(o) => FailKeepsInv(s, o);
      case Cancel(o) => LeavingKeepsInv(s, o, Releasing(TemporarilyUnavailable));
      case Abandon(o) => LeavingKeepsInv(s, o, Gone);
      case Late(o, request) => LateKeepsInv(s, o, request);
      case Drift(sid, grant) => DriftKeepsInv(s, sid, grant);
    }
  }

  lemma InitInv(s: State)
    requires Init(s)
    ensures Inv(s)
  {
  }

  lemma PathNext(states: seq<State>, steps: seq<Step>, k: nat)
    requires Path(states, steps) && k < |steps| && Inv(states[k])
    ensures Inv(states[k + 1])
  {
    StepKeepsInv(states[k], steps[k]);
  }

  /** The invariant lasts along any path. */
  lemma {:induction false} PathInv(states: seq<State>, steps: seq<Step>, i: nat)
    requires Path(states, steps) && i < |states| && Inv(states[0])
    ensures Inv(states[i])
  {
    if i > 0 {
      PathInv(states, steps, i - 1);
      PathNext(states, steps, i - 1);
    }
  }

  /** The invariant holds in every state of every run. */
  lemma RunInv(states: seq<State>, steps: seq<Step>, i: nat)
    requires Run(states, steps) && i < |states|
    ensures Inv(states[i])
  {
    InitInv(states[0]);
    PathInv(states, steps, i);
  }
}
