/** Safety of the lease protocol over whole runs. */
module LeaseSafety {
  import opened Prelude
  import opened Timing
  import opened SessionStore
  import opened Lease
  import opened LeaseInvariant
  import RedisStore

  // ---- what one step does to the store ------------------------------------------------------

  /** The step runs `request` of `o`, for a waiting client or after it left. */
  ghost predicate Runs(s: State, step: Step, o: string, request: Request) {
    && o in s.resolvers
    && (|| (step == Answer(o) && Outstanding(s.resolvers[o].pc) == Some(request))
        || step == Late(o, request))
  }

  /** Everything the step changed in the store is what the event says, and the event was allowed. */
  ghost predicate Explains(s: State, step: Step, s': State, e: Event) {
    match e
    case Created(sid, x) =>
      && step.Login? && step.sid == sid && x == RedisStore.Normalised(step.session) && sid !in s.created
      && s'.store == Put(s.store, s.now, sid, x, s.ttl)
    case Acquired(sid, o, at) =>
      && Runs(s, step, o, AcquireRequest) && sid == s.resolvers[o].sid && at == s.now
      && !s.resolvers[o].acquired && !Locked(s.store, s.now, sid)
      && s'.store == s.store.(locks := s.store.locks[sid := Lock(o, s.now + 35_000)])
    case Released(sid, o, at) =>
      && Runs(s, step, o, ReleaseRequest) && sid == s.resolvers[o].sid && at == s.now
      && HeldBy(s.store, s.now, sid, o)
      && s'.store == s.store.(locks := s.store.locks - {sid})
    case Wrote(sid, o, y) =>
      && (exists x :: Runs(s, step, o, UpdateRequest(x))
            && Readable(s.store, s.now, sid)
            && y == Refreshed(s.store.sessions[sid].session, RedisStore.Normalised(x)))
      && sid == s.resolvers[o].sid && HeldBy(s.store, s.now, sid, o)
      && s'.store == s.store.(sessions := s.store.sessions[sid := s.store.sessions[sid].(session := y)])
    case Dropped(sid, o) =>
      && Runs(s, step, o, InvalidateRequest) && sid == s.resolvers[o].sid
      && HeldBy(s.store, s.now, sid, o) && Readable(s.store, s.now, sid) && s.resolvers[o].rejected
      && s'.store == s.store.(sessions := s.store.sessions - {sid})
  }

  /** Every change of the store is in the log, and is explained by it. */
  ghost predicate Accounted(s: State, step: Step, s': State) {
    || (s'.log == s.log && s'.store == s.store)
    || (s'.log != [] && s'.log[..|s'.log| - 1] == s.log && Explains(s, step, s', s'.log[|s'.log| - 1]))
  }

  lemma AnswerAccounted(s: State, o: string)
    requires Inv(s) && Enabled(s, Answer(o)) && Outstanding(s.resolvers[o].pc).Some?
    ensures Accounted(s, Answer(o), Apply(s, Answer(o)))
  {
    var request := Outstanding(s.resolvers[o].pc).value;
    assert ResolverOk(s, o) && Runs(s, Answer(o), o, request);
    RequestAccounted(s, Answer(o), o, request, s.late, Apply(s, Answer(o)));
  }

  lemma LateAccounted(s: State, o: string, request: Request)
    requires Inv(s) && Enabled(s, Late(o, request))
    ensures Accounted(s, Late(o, request), Apply(s, Late(o, request)))
  {
    assert LateFits(s, request, s.resolvers[o]);
    assert Runs(s, Late(o, request), o, request);
    RequestAccounted(s, Late(o, request), o, request, s.late - {(o, request)}, Apply(s, Late(o, request)));
  }

  lemma RequestAccounted(s: State, step: Step, o: string, request: Request, late: set<(string, Request)>, s': State)
    requires Runs(s, step, o, request)
    requires request.AcquireRequest? ==> !s.resolvers[o].acquired
    requires request.InvalidateRequest? ==> s.resolvers[o].rejected
    requires s'.store == Executed(s.(late := late), o, request).store
    requires s'.log == Executed(s.(late := late), o, request).log
    ensures Accounted(s, step, s')
  {
    match request {
      case AcquireRequest => AcquireAccounted(s, step, o, late, s');
      case UpdateRequest(x) => WriteAccounted(s, step, o, x, late, s');
      case InvalidateRequest => DropAccounted(s, step, o, late, s');
      case ReleaseRequest => FreeAccounted(s, step, o, late, s');
    }
  }

  lemma AcquireAccounted(s: State, step: Step, o: string, late: set<(string, Request)>, s': State)
    requires Runs(s, step, o, AcquireRequest) && !s.resolvers[o].acquired
    requires s'.store == Acquire(s.(late := late), o).0.store && s'.log == Acquire(s.(late := late), o).0.log
    ensures Accounted(s, step, s')
  {
    AcquireShape(s, o, late, s.resolvers[o].pc);
  }

  lemma WriteAccounted(s: State, step: Step, o: string, x: Session, late: set<(string, Request)>, s': State)
    requires Runs(s, step, o, UpdateRequest(x))
    requires s'.store == Write(s.(late := late), o, x).0.store && s'.log == Write(s.(late := late), o, x).0.log
    ensures Accounted(s, step, s')
  {
    WriteShape(s, o, x, late, s.resolvers[o].pc);
  }

  lemma DropAccounted(s: State, step: Step, o: string, late: set<(string, Request)>, s': State)
    requires Runs(s, step, o, InvalidateRequest) && s.resolvers[o].rejected
    requires s'.store == Drop(s.(late := late), o).0.store && s'.log == Drop(s.(late := late), o).0.log
    ensures Accounted(s, step, s')
  {
    DropShape(s, o, late, s.resolvers[o].pc);
  }

  lemma FreeAccounted(s: State, step: Step, o: string, late: set<(string, Request)>, s': State)
    requires Runs(s, step, o, ReleaseRequest)
    requires s'.store == Free(s.(late := late), o).0.store && s'.log == Free(s.(late := late), o).0.log
    ensures Accounted(s, step, s')
  {
    FreeShape(s, o, late, s.resolvers[o].pc);
  }

  lemma StepAccounted(s: State, step: Step)
    requires Inv(s) && Enabled(s, step)
    ensures Accounted(s, step, Apply(s, step))
  {
    match step {
      case Answer(o) => if !s.resolvers[o].pc.Reading? { AnswerAccounted(s, o); }
      case Late(o, request) => LateAccounted(s, o, request);
      case Login(sid, x) => assert (s.log + [Created(sid, RedisStore.Normalised(x))])[..|s.log|] == s.log;
      case _ =>
    }
  }

  /** An executed request moves one resolver and touches nothing but store, log and requests under way. */
  ghost predicate Frame(s: State, s': State, o: string) {
    && o in s.resolvers && o in s'.resolvers
    && s' == s.(store := s'.store, log := s'.log, late := s'.late, resolvers := s.resolvers[o := s'.resolvers[o]])
    && var r, r' := s.resolvers[o], s'.resolvers[o];
       && r' == r.(pc := r'.pc, acquired := r'.acquired, mark := r'.mark, grantedAt := r'.grantedAt,
                   freedMark := r'.freedMark)
       && (r.acquired ==> r'.acquired)
  }

  lemma LockFrame(s: State, o: string)
    requires o in s.resolvers
    ensures Frame(s, Acquire(s, o).0, o) && Frame(s, Free(s, o).0, o)
  {
    assert s.resolvers == s.resolvers[o := s.resolvers[o]];
  }

  lemma MutationFrame(s: State, o: string)
    requires o in s.resolvers
    ensures Frame(s, Drop(s, o).0, o)
    ensures forall x :: Frame(s, Write(s, o, x).0, o)
  {
    assert s.resolvers == s.resolvers[o := s.resolvers[o]];
  }

  lemma PlacedFrame(s: State, t: State, o: string, pc: Pc)
    requires Frame(s, t, o)
    ensures Frame(s, WithPc(t, o, pc), o)
  {
  }

  lemma AnswerFrame(s: State, o: string)
    requires Enabled(s, Answer(o))
    ensures Frame(s, Apply(s, Answer(o)), o)
  {
    match s.resolvers[o].pc {
      case Reading(_) =>
      case Attempting =>
        LockFrame(s, o);
        PlacedFrame(s, Acquire(s, o).0, o, if Acquire(s, o).1 then Granted else Refused);
      case Updating(_, x) =>
        MutationFrame(s, o);
        PlacedFrame(s, Write(s, o, x).0, o, Updated(x.accessToken, Write(s, o, x).1));
      case Invalidating =>
        MutationFrame(s, o);
        PlacedFrame(s, Drop(s, o).0, o, Invalidated(Drop(s, o).1));
      case Releasing(result) =>
        LockFrame(s, o);
        PlacedFrame(s, Free(s, o).0, o, Freed(result, Free(s, o).1));
    }
  }

  lemma LateFrame(s: State, o: string, request: Request)
    requires Enabled(s, Late(o, request))
    ensures Frame(s, Apply(s, Late(o, request)), o)
    ensures Apply(s, Late(o, request)).resolvers[o].pc == s.resolvers[o].pc
    ensures Apply(s, Late(o, request)).late == s.late - {(o, request)}
  {
    var t := ExecutedLate(s, o, request);
    assert t.resolvers == s.resolvers[o := t.resolvers[o]];
  }

  /** Time passes, and what was created stays recorded. */
  lemma StepHistory(s: State, step: Step)
    requires Enabled(s, step)
    ensures var s' := Apply(s, step);
            && s.now <= s'.now && s'.epoch == s.epoch && s.created.Keys <= s'.created.Keys
            && forall sid | sid in s.created :: s'.created[sid] == s.created[sid]
  {
    match step {
      case Answer(o) => AnswerFrame(s, o);
      case Late(o, request) => LateFrame(s, o, request);
      case _ =>
    }
  }

  /** A resolver keeps its session and its acquisition. */
  lemma StepResolver(s: State, step: Step, o: string)
    requires Enabled(s, step) && o in s.resolvers
    ensures var s' := Apply(s, step);
            && o in s'.resolvers && s'.resolvers[o].sid == s.resolvers[o].sid
            && s'.resolvers[o].watch == s.resolvers[o].watch
            && (s.resolvers[o].acquired ==> s'.resolvers[o].acquired)
  {
    match step {
      case Answer(q) => AnswerFrame(s, q);
      case Late(q, request) => LateFrame(s, q, request);
      case Observe(q) => ContinuedFrame(s, s.resolvers[q]);
      case _ =>
    }
  }

  /** Every resolver's clock reads the effective time of its own call. */
  lemma {:induction false} ClockReads(states: seq<State>, steps: seq<Step>, i: nat, o: string)
    requires Run(states, steps) && i < |states| && o in states[i].resolvers
    ensures var s, watch := states[i], states[i].resolvers[o].watch;
            && watch.Valid() && watch.entry + watch.gap <= s.epoch + s.now
            && EffectiveNow(s, s.resolvers[o]) == watch.EffectiveAt(s.epoch + s.now)
  {
    if i > 0 {
      var s, step := states[i - 1], steps[i - 1];
      StepHistory(s, step);
      if o in s.resolvers {
        ClockReads(states, steps, i - 1, o);
        StepResolver(s, step, o);
      } else {
        Newcomer(s, step, o);
      }
    }
  }

  lemma Newcomer(s: State, step: Step, o: string)
    requires Enabled(s, step) && o !in s.resolvers && o in Apply(s, step).resolvers
    ensures step.Start? && step.owner == o
  {
    match step {
      case Answer(q) => AnswerFrame(s, q);
      case Late(q, request) => LateFrame(s, q, request);
      case _ =>
    }
  }

  // ---- the timing argument ---------------------------------------------------------------------

  /** The resolver is short of the point where its lease may have run out, however late it is scheduled. */
  ghost predicate WithinMargin(s: State, r: Resolver) {
    s.now < r.attemptAt + 35_000
  }

  /** Between acquisition and release a resolver holds the live lock exactly as long as its lease runs. */
  lemma HeldExactly(states: seq<State>, steps: seq<Step>, i: nat, o: string)
    requires Run(states, steps) && i < |states| && o in states[i].resolvers
    requires InSection(states[i].resolvers[o].pc)
    ensures var s, r := states[i], states[i].resolvers[o];
            && r.attemptAt <= r.grantedAt <= s.now
            && (HeldBy(s.store, s.now, r.sid, o) <==> s.now < r.grantedAt + 35_000)
  {
    RunInv(states, steps, i);
    var s, sid := states[i], states[i].resolvers[o].sid;
    assert ResolverOk(s, o) && (sid in s.store.locks ==> LockOk(s, sid));
  }

  /** So up to the margin past its deadline, which starts before it asks, the live lock is its own. */
  lemma LeaseCovers(states: seq<State>, steps: seq<Step>, i: nat, o: string)
    requires Run(states, steps) && i < |states| && o in states[i].resolvers
    requires InSection(states[i].resolvers[o].pc) && WithinMargin(states[i], states[i].resolvers[o])
    ensures HeldBy(states[i].store, states[i].now, states[i].resolvers[o].sid, o)
  {
    HeldExactly(states, steps, i, o);
  }

  /** At most one resolver per session is between acquisition and release. */
  lemma MutualExclusion(states: seq<State>, steps: seq<Step>, i: nat, o: string, q: string)
    requires Run(states, steps) && i < |states| && o in states[i].resolvers && q in states[i].resolvers
    requires var s := states[i];
             && s.resolvers[o].sid == s.resolvers[q].sid
             && InSection(s.resolvers[o].pc) && WithinMargin(s, s.resolvers[o])
             && InSection(s.resolvers[q].pc) && WithinMargin(s, s.resolvers[q])
    ensures o == q
  {
    LeaseCovers(states, steps, i, o);
    LeaseCovers(states, steps, i, q);
  }

  /** Past its lease the exclusion is gone: the next resolver that asks joins it. */
  lemma ExpiredLeaseIsShared(s: State, o: string, q: string)
    requires Inv(s) && o in s.resolvers && q in s.resolvers && s.resolvers[o].sid == s.resolvers[q].sid
    requires InSection(s.resolvers[o].pc) && s.resolvers[o].grantedAt + 35_000 <= s.now
    requires Holds(s, o) && s.resolvers[q].pc.Attempting?
    ensures Enabled(s, Answer(q)) && o != q
    ensures var s' := Apply(s, Answer(q));
            && o in s'.resolvers && InSection(s'.resolvers[o].pc)
            && q in s'.resolvers && InSection(s'.resolvers[q].pc)
            && HeldBy(s'.store, s'.now, s'.resolvers[q].sid, q)
  {
    assert LockOk(s, s.resolvers[o].sid);
  }

  lemma WorkerIsCreated(s: State, o: string)
    requires Inv(s) && o in s.resolvers && InSection(s.resolvers[o].pc)
    ensures s.resolvers[o].sid in s.created
  {
    assert ResolverOk(s, o);
  }

  // ---- the argument from owner ids alone --------------------------------------------------------------

  /**
   * A token handed out by an owner was stored under its lock: one acquisition, one release before the lease
   * ended, nothing on this session in between but the owner's own writes, and the token as the stored
   * record had it at the release.
   */
  lemma ReadyIsSerial(states: seq<State>, steps: seq<Step>, i: nat, o: string)
    requires Run(states, steps) && i < |states| && o in states[i].resolvers
    requires states[i].resolvers[o].pc.Done? && states[i].resolvers[o].pc.viaLock
    requires states[i].resolvers[o].pc.result.Ready?
    ensures var log, r := states[i].log, states[i].resolvers[o];
            && r.mark < r.freedMark < |log|
            && log[r.mark] == Acquired(r.sid, o, r.grantedAt)
            && log[r.freedMark].Released? && log[r.freedMark].sid == r.sid && log[r.freedMark].who == o
            && log[r.freedMark].at < r.grantedAt + 35_000
            && (forall k | r.mark < k < r.freedMark :: log[k].sid == r.sid ==> IsMutationBy(log[k], o))
            && StoresToken(log[..r.freedMark], r.sid, r.pc.result.token)
  {
    RunInv(states, steps, i);
    assert ResolverOk(states[i], o);
  }

  /** The log holds no acquisition of a resolver that has not acquired, and never two of one resolver. */
  ghost predicate AcquiredOnce(s: State) {
    && (forall k | 0 <= k < |s.log| :: s.log[k].Acquired? ==>
          s.log[k].who in s.resolvers && s.resolvers[s.log[k].who].acquired)
    && (forall k, m | 0 <= k < m < |s.log| :: s.log[k].Acquired? && s.log[m].Acquired? ==> s.log[k].who != s.log[m].who)
  }

  lemma StepAcquiresOnce(s: State, step: Step, s': State)
    requires AcquiredOnce(s) && Accounted(s, step, s')
    requires forall o | o in s.resolvers && s.resolvers[o].acquired :: o in s'.resolvers && s'.resolvers[o].acquired
    requires forall sid | sid in s'.store.locks :: LockOk(s', sid)
    ensures AcquiredOnce(s')
  {
    if s'.log != s.log {
      var e := s'.log[|s'.log| - 1];
      assert s'.log == s.log + [e];
      if e.Acquired? {
        assert LockOk(s', e.sid);
      }
    }
  }

  /** Owner ids are used for one acquisition each. */
  lemma {:induction false} EachAcquiresOnce(states: seq<State>, steps: seq<Step>, i: nat)
    requires Run(states, steps) && i < |states|
    ensures AcquiredOnce(states[i])
  {
    if i > 0 {
      var s, step, s' := states[i - 1], steps[i - 1], states[i];
      EachAcquiresOnce(states, steps, i - 1);
      RunInv(states, steps, i - 1);
      RunInv(states, steps, i);
      StepAccounted(s, step);
      forall o | o in s.resolvers && s.resolvers[o].acquired
        ensures o in s'.resolvers && s'.resolvers[o].acquired
      {
        StepResolver(s, step, o);
      }
      StepAcquiresOnce(s, step, s');
    }
  }

  /** `o` took the lock once and its live lock is gone. */
  ghost predicate Lost(s: State, o: string) {
    && o in s.resolvers && s.resolvers[o].acquired
    && !HeldBy(s.store, s.now, s.resolvers[o].sid, o)
  }

  ghost predicate NotBy(log: seq<Event>, from: nat, o: string) {
    forall k | from <= k < |log| :: log[k].Created? || log[k].who != o
  }

  /** A lock entry is an old one, or belongs to a resolver that had not acquired before. */
  lemma LockOrigin(s: State, step: Step, s': State, sid: string)
    requires Accounted(s, step, s') && sid in s'.store.locks
    ensures || (sid in s.store.locks && s'.store.locks[sid] == s.store.locks[sid])
            || var o := s'.store.locks[sid].owner; o in s.resolvers && !s.resolvers[o].acquired
  {
  }

  lemma LoserIsSilent(s: State, step: Step, s': State, o: string)
    requires Accounted(s, step, s') && Lost(s, o)
    ensures s'.log == s.log || s'.log == s.log + [s'.log[|s'.log| - 1]]
    ensures s'.log != s.log ==> var e := s'.log[|s'.log| - 1]; e.Created? || e.who != o
  {
  }

  lemma LostStays(s: State, step: Step, o: string)
    requires Inv(s) && Enabled(s, step) && Lost(s, o)
    ensures Lost(Apply(s, step), o)
  {
    var s', sid := Apply(s, step), s.resolvers[o].sid;
    StepAccounted(s, step);
    StepHistory(s, step);
    StepResolver(s, step, o);
    if sid in s'.store.locks {
      LockOrigin(s, step, s', sid);
    }
  }

  /** Once an owner's lock is gone it never has it again, and none of its requests changes anything. */
  lemma {:induction false} LostForGood(states: seq<State>, steps: seq<Step>, i: nat, j: nat, o: string)
    requires Run(states, steps) && i <= j < |states| && Lost(states[i], o)
    ensures Lost(states[j], o)
    ensures |states[i].log| <= |states[j].log| && NotBy(states[j].log, |states[i].log|, o)
  {
    if i < j {
      LostForGood(states, steps, i, j - 1, o);
      RunInv(states, steps, j - 1);
      StepAccounted(states[j - 1], steps[j - 1]);
      LoserIsSilent(states[j - 1], steps[j - 1], states[j], o);
      LostStays(states[j - 1], steps[j - 1], o);
    }
  }

  // ---- the life of a session ---------------------------------------------------------------------------

  /** Expiry instant and identity are as the creating write left them, in every state. */
  lemma SessionAsCreated(states: seq<State>, steps: seq<Step>, i: nat, sid: string)
    requires Run(states, steps) && i < |states| && sid in states[i].store.sessions
    ensures sid in states[i].created
    ensures var e, c := states[i].store.sessions[sid], states[i].created[sid];
            e.expiresAt == c.expiresAt && e.session.identity == c.session.identity
  {
    RunInv(states, steps, i);
    assert SessionOk(states[i], sid);
  }

  lemma StaysUnreadable(s: State, step: Step, s': State, sid: string)
    requires Accounted(s, step, s') && s.now <= s'.now && sid in s.created
    requires !Readable(s.store, s.now, sid)
    ensures !Readable(s'.store, s'.now, sid)
  {
  }

  /** What was recorded at creation never changes, and a session once unreadable stays so. */
  lemma {:induction false} GoneForGood(states: seq<State>, steps: seq<Step>, i: nat, j: nat, sid: string)
    requires Run(states, steps) && i <= j < |states| && sid in states[i].created
    ensures sid in states[j].created && states[j].created[sid] == states[i].created[sid]
    ensures !Readable(states[i].store, states[i].now, sid) ==> !Readable(states[j].store, states[j].now, sid)
  {
    if i < j {
      var s, step := states[j - 1], steps[j - 1];
      GoneForGood(states, steps, i, j - 1, sid);
      RunInv(states, steps, j - 1);
      StepAccounted(s, step);
      StepHistory(s, step);
      if !Readable(s.store, s.now, sid) {
        StaysUnreadable(s, step, states[j], sid);
      }
    }
  }

  /** The token endpoint answered `reply` to `o` in one of the first `i` steps. */
  ghost predicate WasTold(steps: seq<Step>, i: nat, o: string, reply: TokenReply)
    requires i <= |steps|
  {
    exists k | 0 <= k < i :: steps[k].Respond? && steps[k].owner == o && steps[k].reply == reply
  }

  lemma {:induction false} RejectedByServer(states: seq<State>, steps: seq<Step>, i: nat, o: string)
    requires Run(states, steps) && i < |states| && o in states[i].resolvers
    ensures states[i].resolvers[o].pc.Responded? ==> WasTold(steps, i, o, states[i].resolvers[o].pc.reply)
    ensures states[i].resolvers[o].rejected ==> WasTold(steps, i, o, InvalidGrant)
  {
    if i > 0 {
      var s, step := states[i - 1], steps[i - 1];
      if o in s.resolvers {
        RejectedByServer(states, steps, i - 1, o);
        ToldStep(s, step, o);
      }
    }
  }

  lemma ToldStep(s: State, step: Step, o: string)
    requires Enabled(s, step) && o in s.resolvers
    ensures var r, r' := s.resolvers[o], Apply(s, step).resolvers[o];
            && (r'.pc.Responded? ==> r'.pc == r.pc || (step.Respond? && step.owner == o && step.reply == r'.pc.reply))
            && (r'.rejected ==> r.rejected || (r.pc.Responded? && r.pc.reply == InvalidGrant))
  {
    match step {
      case Answer(q) => AnswerFrame(s, q);
      case Late(q, request) => LateFrame(s, q, request);
      case _ =>
    }
  }

  /** A session that can be read before a step and not after it ran out, or was dropped. */
  lemma EndOfSession(s: State, step: Step, s': State, sid: string)
    requires Accounted(s, step, s') && Readable(s.store, s.now, sid) && !Readable(s'.store, s'.now, sid)
    requires sid in s.created
    ensures || s'.now >= s.store.sessions[sid].expiresAt
            || (s'.log == s.log + [s'.log[|s.log|]] && s'.log[|s.log|].Dropped? && s'.log[|s.log|].sid == sid
                && Explains(s, step, s', s'.log[|s.log|]))
  {
  }

  /**
   * A session that disappears before its time was removed by the owner of its live lock, to which the token
   * endpoint had answered that the grant is invalid.
   */
  lemma EarlyEnd(states: seq<State>, steps: seq<Step>, i: nat, sid: string)
    requires Run(states, steps) && i < |steps|
    requires Readable(states[i].store, states[i].now, sid)
    requires !Readable(states[i + 1].store, states[i + 1].now, sid)
    ensures || states[i + 1].now >= states[i].store.sessions[sid].expiresAt
            || exists o ::
                 && Runs(states[i], steps[i], o, InvalidateRequest)
                 && HeldBy(states[i].store, states[i].now, sid, o)
                 && WasTold(steps, i, o, InvalidGrant)
  {
    var s, s' := states[i], states[i + 1];
    RunInv(states, steps, i);
    StepAccounted(s, steps[i]);
    assert SessionOk(s, sid);
    EndOfSession(s, steps[i], s', sid);
    if s'.now < s.store.sessions[sid].expiresAt {
      RejectedByServer(states, steps, i, s'.log[|s.log|].who);
    }
  }
}
