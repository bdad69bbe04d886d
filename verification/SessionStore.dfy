/** The session store: exact expiry as the specification, and the map that purges only when touched. */
module SessionStore {
  import opened Prelude
  import opened Timing

  datatype Identity = Identity(issuer: string, subject: string, email: Option<string>, emailVerified: Option<bool>)

  datatype Session = Session(
    accessToken: string,
    refreshToken: Option<string>,
    accessTokenExpiresAt: Option<U64>,
    identity: Identity)

  datatype Entry = Entry(session: Session, expiresAt: nat)

  datatype Lock = Lock(owner: string, expiresAt: nat)

  datatype Store = Store(sessions: map<string, Entry>, locks: map<string, Lock>)

  datatype OwnedMutation = Applied | SessionMissing | OwnershipLost

  /** How a store call ends for its caller: failing, or being cut off, may follow its effect. */
  datatype Delivery = Delivered | RequestLost | ReplyLost

  // ---- the specification: a key counts until its deadline and not after ---------------

  predicate Readable(st: Store, now: nat, id: string) {
    id in st.sessions && now < st.sessions[id].expiresAt
  }

  predicate Locked(st: Store, now: nat, id: string) {
    id in st.locks && now < st.locks[id].expiresAt
  }

  predicate HeldBy(st: Store, now: nat, id: string, owner: string) {
    Locked(st, now, id) && st.locks[id].owner == owner
  }

  function Get(st: Store, now: nat, id: string): Option<Session> {
    if Readable(st, now, id) then Some(st.sessions[id].session) else None
  }

  function Put(st: Store, now: nat, id: string, session: Session, ttl: nat): Store {
    st.(sessions := st.sessions[id := Entry(session, now + ttl)])
  }

  /** `SET NX PX`; a lease of no length is refused. */
  function TryAcquire(st: Store, now: nat, id: string, owner: string, lease: nat): (Store, Result<bool, ()>) {
    if lease == 0 then (st, Err(()))
    else if Locked(st, now, id) then (st, Ok(false))
    else (st.(locks := st.locks[id := Lock(owner, now + lease)]), Ok(true))
  }

  /** Compare and delete. */
  function Release(st: Store, now: nat, id: string, owner: string): (Store, bool) {
    if HeldBy(st, now, id, owner) then (st.(locks := st.locks - {id}), true) else (st, false)
  }

  /** The three token fields of a refreshed session over the record that is there. */
  function Refreshed(stored: Session, renewed: Session): Session {
    stored.(accessToken := renewed.accessToken,
            refreshToken := renewed.refreshToken,
            accessTokenExpiresAt := renewed.accessTokenExpiresAt)
  }

  function Update(st: Store, now: nat, id: string, owner: string, renewed: Session): (Store, OwnedMutation) {
    if !HeldBy(st, now, id, owner) then (st, OwnershipLost)
    else if !Readable(st, now, id) then (st, SessionMissing)
    else
      var e := st.sessions[id];
      (st.(sessions := st.sessions[id := e.(session := Refreshed(e.session, renewed))]), Applied)
  }

  function Invalidate(st: Store, now: nat, id: string, owner: string): (Store, OwnedMutation) {
    if !HeldBy(st, now, id, owner) then (st, OwnershipLost)
    else if !Readable(st, now, id) then (st, SessionMissing)
    else (st.(sessions := st.sessions - {id}), Applied)
  }

  // ---- operations and their answers ----------------------------------------------------

  datatype Op =
    | PutOp(id: string, session: Session)
    | GetOp(id: string)
    | AcquireOp(id: string, owner: string, lease: nat)
    | ReleaseOp(id: string, owner: string)
    | UpdateOp(id: string, owner: string, session: Session)
    | InvalidateOp(id: string, owner: string)

  datatype Answer =
    | Stored
    | Found(session: Option<Session>)
    | LockAnswer(result: Result<bool, ()>)
    | ReleaseAnswer(owned: bool)
    | Mutated(outcome: OwnedMutation)

  function Exact(st: Store, ttl: nat, now: nat, op: Op): (Store, Answer) {
    match op
    case PutOp(id, s) => (Put(st, now, id, s, ttl), Stored)
    case GetOp(id) => (st, Found(Get(st, now, id)))
    case AcquireOp(id, o, lease) => var (st', r) := TryAcquire(st, now, id, o, lease); (st', LockAnswer(r))
    case ReleaseOp(id, o) => var (st', r) := Release(st, now, id, o); (st', ReleaseAnswer(r))
    case UpdateOp(id, o, s) => var (st', r) := Update(st, now, id, o, s); (st', Mutated(r))
    case InvalidateOp(id, o) => var (st', r) := Invalidate(st, now, id, o); (st', Mutated(r))
  }

  function EntryEnd(e: Entry): nat {
    e.expiresAt
  }

  function LockEnd(l: Lock): nat {
    l.expiresAt
  }

  function Live<T>(m: map<string, T>, end: T -> nat, now: nat): map<string, T> {
    map id | id in m && now < end(m[id]) :: m[id]
  }

  /** What `retain_live_test_state` keeps. */
  function Purge(st: Store, now: nat): Store {
    Store(Live(st.sessions, EntryEnd, now), Live(st.locks, LockEnd, now))
  }

  /** A store that drops expired keys when it is touched, and only then; a zero lease does not touch it. */
  function Lazy(st: Store, ttl: nat, now: nat, op: Op): (Store, Answer) {
    if op.AcquireOp? && op.lease == 0 then (st, LockAnswer(Err(())))
    else Exact(Purge(st, now), ttl, now, op)
  }

  // ---- the two stores cannot be told apart ----------------------------------------------

  /** Nothing that is still live at `now` differs. */
  ghost predicate Alike(a: Store, b: Store, now: nat) {
    Purge(a, now) == Purge(b, now)
  }

  lemma AlikeLater(a: Store, b: Store, now: nat, later: nat)
    requires Alike(a, b, now) && now <= later
    ensures Alike(a, b, later)
  {
    PurgeTwice(a, now, later);
    PurgeTwice(b, now, later);
  }

  lemma PurgeTwice(st: Store, now: nat, later: nat)
    requires now <= later
    ensures Purge(Purge(st, now), later) == Purge(st, later)
  {
    assert Purge(Purge(st, now), later).sessions == Purge(st, later).sessions;
    assert Purge(Purge(st, now), later).locks == Purge(st, later).locks;
  }

  lemma LivePut<T>(m: map<string, T>, end: T -> nat, now: nat, id: string, x: T)
    ensures Live(m[id := x], end, now) == Live(Live(m, end, now)[id := x], end, now)
  {
  }

  lemma LiveDrop<T>(m: map<string, T>, end: T -> nat, now: nat, id: string)
    ensures Live(m - {id}, end, now) == Live(Live(m, end, now) - {id}, end, now)
  {
  }

  lemma PurgeBeforeSessionOp(st: Store, ttl: nat, now: nat, op: Op)
    requires op.PutOp? || op.UpdateOp? || op.InvalidateOp?
    ensures Exact(Purge(st, now), ttl, now, op).1 == Exact(st, ttl, now, op).1
    ensures Alike(Exact(Purge(st, now), ttl, now, op).0, Exact(st, ttl, now, op).0, now)
  {
    PurgeTwice(st, now, now);
    match op
    case PutOp(id, s) => LivePut(st.sessions, EntryEnd, now, id, Entry(s, now + ttl));
    case UpdateOp(id, o, s) =>
      if Readable(st, now, id) {
        var renewed := st.sessions[id].(session := Refreshed(st.sessions[id].session, s));
        LivePut(st.sessions, EntryEnd, now, id, renewed);
      }
    case InvalidateOp(id, o) => LiveDrop(st.sessions, EntryEnd, now, id);
  }

  lemma PurgeBeforeAcquire(st: Store, now: nat, id: string, o: string, lease: nat)
    ensures TryAcquire(Purge(st, now), now, id, o, lease).1 == TryAcquire(st, now, id, o, lease).1
    ensures Alike(TryAcquire(Purge(st, now), now, id, o, lease).0, TryAcquire(st, now, id, o, lease).0, now)
  {
    PurgeTwice(st, now, now);
    LivePut(st.locks, LockEnd, now, id, Lock(o, now + lease));
  }

  lemma PurgeBeforeRelease(st: Store, now: nat, id: string, o: string)
    ensures Release(Purge(st, now), now, id, o).1 == Release(st, now, id, o).1
    ensures Alike(Release(Purge(st, now), now, id, o).0, Release(st, now, id, o).0, now)
  {
    PurgeTwice(st, now, now);
    LiveDrop(st.locks, LockEnd, now, id);
  }

  /** Purging first changes neither an operation's answer nor what is live after it. */
  lemma PurgeFirst(st: Store, ttl: nat, now: nat, op: Op)
    ensures Exact(Purge(st, now), ttl, now, op).1 == Exact(st, ttl, now, op).1
    ensures Alike(Exact(Purge(st, now), ttl, now, op).0, Exact(st, ttl, now, op).0, now)
  {
    match op
    case GetOp(id) => PurgeTwice(st, now, now);
    case AcquireOp(id, o, lease) => PurgeBeforeAcquire(st, now, id, o, lease);
    case ReleaseOp(id, o) => PurgeBeforeRelease(st, now, id, o);
    case _ => PurgeBeforeSessionOp(st, ttl, now, op);
  }

  lemma AlikeStep(lazy: Store, exact: Store, ttl: nat, now: nat, op: Op)
    requires Alike(lazy, exact, now)
    ensures Lazy(lazy, ttl, now, op).1 == Exact(exact, ttl, now, op).1
    ensures Alike(Lazy(lazy, ttl, now, op).0, Exact(exact, ttl, now, op).0, now)
  {
    PurgeFirst(exact, ttl, now, op);
  }

  datatype Timed = Timed(at: nat, op: Op)

  function ExactAnswers(st: Store, ttl: nat, ops: seq<Timed>): seq<Answer>
    decreases |ops|
  {
    if ops == [] then []
    else
      var (st', answer) := Exact(st, ttl, ops[0].at, ops[0].op);
      [answer] + ExactAnswers(st', ttl, ops[1..])
  }

  function LazyAnswers(st: Store, ttl: nat, ops: seq<Timed>): seq<Answer>
    decreases |ops|
  {
    if ops == [] then []
    else
      var (st', answer) := Lazy(st, ttl, ops[0].at, ops[0].op);
      [answer] + LazyAnswers(st', ttl, ops[1..])
  }

  // ---- instants that overtake each other -------------------------------------------------------

  // An operation reads the clock before it waits for the map, so a later one may carry an earlier instant.

  ghost predicate NoneEnds<T>(m: map<string, T>, end: T -> nat, after: nat, upTo: nat) {
    forall id | id in m :: !(after < end(m[id]) <= upTo)
  }

  /** No key runs out between the two instants. */
  ghost predicate NothingEnds(st: Store, after: nat, upTo: nat) {
    NoneEnds(st.sessions, EntryEnd, after, upTo) && NoneEnds(st.locks, LockEnd, after, upTo)
  }

  function Later(a: nat, b: nat): nat {
    if a <= b then b else a
  }

  /** An operation may be overtaken by `latest`, but by nothing that ran out in between. */
  ghost predicate InOrder(st: Store, ttl: nat, latest: nat, ops: seq<Timed>)
    decreases |ops|
  {
    ops == [] ||
    (&& NothingEnds(st, ops[0].at, latest)
     && InOrder(Exact(st, ttl, ops[0].at, ops[0].op).0, ttl, Later(latest, ops[0].at), ops[1..]))
  }

  /** `few` is `all` but for keys that ran out by `latest`. */
  ghost predicate LacksOnly<T>(few: map<string, T>, all: map<string, T>, end: T -> nat, latest: nat) {
    && (forall id | id in few :: id in all && few[id] == all[id])
    && (forall id | id in all && latest < end(all[id]) :: id in few)
  }

  ghost predicate Lags(lazy: Store, exact: Store, latest: nat) {
    && LacksOnly(lazy.sessions, exact.sessions, EntryEnd, latest)
    && LacksOnly(lazy.locks, exact.locks, LockEnd, latest)
  }

  lemma LagsAlike(lazy: Store, exact: Store, latest: nat, at: nat)
    requires Lags(lazy, exact, latest) && NothingEnds(exact, at, latest)
    ensures Purge(lazy, at) == Purge(exact, at)
  {
    assert Purge(lazy, at).sessions == Purge(exact, at).sessions;
    assert Purge(lazy, at).locks == Purge(exact, at).locks;
  }

  lemma LiveLacks<T>(m: map<string, T>, end: T -> nat, at: nat, latest: nat)
    requires at <= latest
    ensures LacksOnly(Live(m, end, at), m, end, latest)
  {
  }

  lemma LacksPut<T>(few: map<string, T>, all: map<string, T>, end: T -> nat, latest: nat, id: string, x: T)
    requires LacksOnly(few, all, end, latest)
    ensures LacksOnly(few[id := x], all[id := x], end, latest)
  {
  }

  lemma LacksDrop<T>(few: map<string, T>, all: map<string, T>, end: T -> nat, latest: nat, id: string)
    requires LacksOnly(few, all, end, latest)
    ensures LacksOnly(few - {id}, all - {id}, end, latest)
  {
  }

  lemma LockOpLags(exact: Store, ttl: nat, at: nat, op: Op, latest: nat)
    requires at <= latest && (op.AcquireOp? || op.ReleaseOp?)
    requires Lags(Purge(exact, at), exact, latest)
    ensures Lags(Exact(Purge(exact, at), ttl, at, op).0, Exact(exact, ttl, at, op).0, latest)
  {
    var p := Purge(exact, at);
    match op
    case AcquireOp(id, o, lease) => LacksPut(p.locks, exact.locks, LockEnd, latest, id, Lock(o, at + lease));
    case ReleaseOp(id, o) => LacksDrop(p.locks, exact.locks, LockEnd, latest, id);
  }

  lemma SessionOpLags(exact: Store, ttl: nat, at: nat, op: Op, latest: nat)
    requires at <= latest && (op.PutOp? || op.UpdateOp? || op.InvalidateOp?)
    requires Lags(Purge(exact, at), exact, latest)
    ensures Lags(Exact(Purge(exact, at), ttl, at, op).0, Exact(exact, ttl, at, op).0, latest)
  {
    var p := Purge(exact, at);
    match op
    case PutOp(id, s) => LacksPut(p.sessions, exact.sessions, EntryEnd, latest, id, Entry(s, at + ttl));
    case UpdateOp(id, o, s) =>
      if Readable(exact, at, id) {
        var renewed := exact.sessions[id].(session := Refreshed(exact.sessions[id].session, s));
        LacksPut(p.sessions, exact.sessions, EntryEnd, latest, id, renewed);
      }
    case InvalidateOp(id, o) => LacksDrop(p.sessions, exact.sessions, EntryEnd, latest, id);
  }

  lemma PurgedLags(exact: Store, ttl: nat, at: nat, op: Op, latest: nat)
    requires at <= latest
    ensures Lags(Exact(Purge(exact, at), ttl, at, op).0, Exact(exact, ttl, at, op).0, latest)
  {
    LiveLacks(exact.sessions, EntryEnd, at, latest);
    LiveLacks(exact.locks, LockEnd, at, latest);
    if op.AcquireOp? || op.ReleaseOp? {
      LockOpLags(exact, ttl, at, op, latest);
    } else if !op.GetOp? {
      SessionOpLags(exact, ttl, at, op, latest);
    }
  }

  lemma LagsStep(lazy: Store, exact: Store, ttl: nat, latest: nat, at: nat, op: Op)
    requires Lags(lazy, exact, latest) && NothingEnds(exact, at, latest)
    ensures Lazy(lazy, ttl, at, op).1 == Exact(exact, ttl, at, op).1
    ensures Lags(Lazy(lazy, ttl, at, op).0, Exact(exact, ttl, at, op).0, Later(latest, at))
  {
    LagsAlike(lazy, exact, latest, at);
    PurgeFirst(exact, ttl, at, op);
    PurgedLags(exact, ttl, at, op, Later(latest, at));
  }

  lemma {:induction false} LagsAnswers(lazy: Store, exact: Store, ttl: nat, latest: nat, ops: seq<Timed>)
    requires Lags(lazy, exact, latest) && InOrder(exact, ttl, latest, ops)
    ensures LazyAnswers(lazy, ttl, ops) == ExactAnswers(exact, ttl, ops)
    decreases |ops|
  {
    if ops != [] {
      var at, op := ops[0].at, ops[0].op;
      LagsStep(lazy, exact, ttl, latest, at, op);
      LagsAnswers(Lazy(lazy, ttl, at, op).0, Exact(exact, ttl, at, op).0, ttl, Later(latest, at), ops[1..]);
    }
  }

  /**
   * For every sequence of operations, purging on access answers as exact expiry does, as long as no operation is
   * overtaken by the end of a key.
   */
  lemma LazyRefinesExact(st: Store, ttl: nat, ops: seq<Timed>)
    requires InOrder(st, ttl, 0, ops)
    ensures LazyAnswers(st, ttl, ops) == ExactAnswers(st, ttl, ops)
  {
    LagsAnswers(st, st, ttl, 0, ops);
  }

  predicate Chronological(now: nat, ops: seq<Timed>)
    decreases |ops|
  {
    ops == [] || (now <= ops[0].at && Chronological(ops[0].at, ops[1..]))
  }

  /** In particular when the instants do not run backwards. */
  lemma {:induction false} ChronologicalInOrder(st: Store, ttl: nat, now: nat, ops: seq<Timed>)
    requires Chronological(now, ops)
    ensures InOrder(st, ttl, now, ops)
    decreases |ops|
  {
    if ops != [] {
      ChronologicalInOrder(Exact(st, ttl, ops[0].at, ops[0].op).0, ttl, ops[0].at, ops[1..]);
    }
  }

  /** The operation looks at a key that ran out after its own instant and by `latest`. */
  predicate Overtaken(st: Store, at: nat, latest: nat, op: Op) {
    match op
    case PutOp(_, _) => false
    case GetOp(id) => Readable(st, at, id) && !Readable(st, latest, id)
    case AcquireOp(id, _, lease) => lease > 0 && Locked(st, at, id) && !Locked(st, latest, id)
    case ReleaseOp(id, o) => HeldBy(st, at, id, o) && !Locked(st, latest, id)
    case UpdateOp(id, o, _) => OwnedOvertaken(st, at, latest, id, o)
    case InvalidateOp(id, o) => OwnedOvertaken(st, at, latest, id, o)
  }

  predicate OwnedOvertaken(st: Store, at: nat, latest: nat, id: string, o: string) {
    HeldBy(st, at, id, o) && (!Locked(st, latest, id) || (Readable(st, at, id) && !Readable(st, latest, id)))
  }

  /**
   * The condition is exact: once the map was purged at `latest`, an operation with an earlier instant is answered
   * differently if and only if a key it looks at ran out in between.
   */
  lemma OvertakenExactly(exact: Store, ttl: nat, at: nat, latest: nat, op: Op)
    requires at <= latest
    ensures Lazy(Purge(exact, latest), ttl, at, op).1 != Exact(exact, ttl, at, op).1 <==>
            Overtaken(exact, at, latest, op)
  {
  }

  /** Such a reader exists: a session that lived to 10, a call at 10, and one that took its instant at 9. */
  lemma LateReaderDiffers(session: Session)
    ensures var ops := [Timed(0, PutOp("a", session)), Timed(10, GetOp("b")), Timed(9, GetOp("a"))];
            var empty := Store(map[], map[]);
            && ExactAnswers(empty, 10, ops) == [Stored, Found(None), Found(Some(session))]
            && LazyAnswers(empty, 10, ops) == [Stored, Found(None), Found(None)]
  {
    var ops := [Timed(0, PutOp("a", session)), Timed(10, GetOp("b")), Timed(9, GetOp("a"))];
    assert "a"[0] != "b"[0];
    assert ops[1..][1..] == [ops[2]] && ops[1..] == [ops[1], ops[2]] && [ops[2]][1..] == [];
    var st := Exact(Store(map[], map[]), 10, 0, ops[0].op).0;
    assert ExactAnswers(st, 10, ops[1..]) == [Found(None)] + ExactAnswers(st, 10, [ops[2]]);
    var lazy := Lazy(Store(map[], map[]), 10, 0, ops[0].op).0;
    assert LazyAnswers(lazy, 10, ops[1..]) == [Found(None)] + LazyAnswers(Purge(lazy, 10), 10, [ops[2]]);
    assert LazyAnswers(Purge(lazy, 10), 10, [ops[2]]) == [Found(None)] + LazyAnswers(Purge(Purge(lazy, 10), 9), 10, []);
  }

  // ---- the store in place -----------------------------------------------------------------

  datatype StoredSession = StoredSession(session: Session, storedAt: nat)

  /** Each stored session at its deadline. */
  function Entries(m: map<string, StoredSession>, ttl: nat): map<string, Entry> {
    map id | id in m :: Entry(m[id].session, m[id].storedAt + ttl)
  }

  lemma EntriesPut(m: map<string, StoredSession>, ttl: nat, id: string, x: StoredSession)
    ensures Entries(m[id := x], ttl) == Entries(m, ttl)[id := Entry(x.session, x.storedAt + ttl)]
  {
  }

  lemma EntriesDrop(m: map<string, StoredSession>, ttl: nat, id: string)
    ensures Entries(m - {id}, ttl) == Entries(m, ttl) - {id}
  {
  }

  /** A session's time to live, which configuration keeps from being zero. */
  type TimeToLive = n: nat | 0 < n witness 1

  class TestSessionStore {
    var sessions: map<string, StoredSession>
    var locks: map<string, Lock>
    const ttl: TimeToLive

    constructor (ttl: TimeToLive)
      ensures this.ttl == ttl && View() == Store(map[], map[])
    {
      this.ttl := ttl;
      sessions := map[];
      locks := map[];
    }

    /** The store's content with every session at its deadline. */
    ghost function View(): Store
      reads this
    {
      Store(Entries(sessions, ttl), locks)
    }

    /** `now.duration_since(stored_at)`, which saturates at zero. */
    static function Elapsed(now: nat, since: nat): nat {
      if now < since then 0 else now - since
    }

    method RetainLive(now: nat)
      modifies this
      ensures View() == Purge(old(View()), now)
      ensures forall id | id in sessions :: now < sessions[id].storedAt + ttl
      ensures forall id | id in locks :: now < locks[id].expiresAt
    {
      sessions := map id | id in sessions && Elapsed(now, sessions[id].storedAt) < ttl :: sessions[id];
      locks := map id | id in locks && locks[id].expiresAt > now :: locks[id];
      assert View().sessions == Live(old(View()).sessions, EntryEnd, now);
      assert locks == Live(old(locks), LockEnd, now);
    }

    method Put(now: nat, id: string, session: Session)
      modifies this
      ensures View() == Lazy(old(View()), ttl, now, PutOp(id, session)).0
    {
      RetainLive(now);
      EntriesPut(sessions, ttl, id, StoredSession(session, now));
      sessions := sessions[id := StoredSession(session, now)];
    }

    method Get(now: nat, id: string) returns (session: Option<Session>)
      modifies this
      ensures (View(), Found(session)) == Lazy(old(View()), ttl, now, GetOp(id))
    {
      RetainLive(now);
      session := if id in sessions then Some(sessions[id].session) else None;
    }

    method TryAcquireRefreshLock(now: nat, id: string, owner: string, lease: nat) returns (r: Result<bool, ()>)
      modifies this
      ensures (View(), LockAnswer(r)) == Lazy(old(View()), ttl, now, AcquireOp(id, owner, lease))
      ensures lease == 0 ==> r == Err(()) && sessions == old(sessions) && locks == old(locks)
    {
      if lease == 0 {
        return Err(());
      }
      RetainLive(now);
      if id in locks {
        return Ok(false);
      }
      locks := locks[id := Lock(owner, now + lease)];
      return Ok(true);
    }

    method ReleaseRefreshLock(now: nat, id: string, owner: string) returns (owned: bool)
      modifies this
      ensures (View(), ReleaseAnswer(owned)) == Lazy(old(View()), ttl, now, ReleaseOp(id, owner))
    {
      RetainLive(now);
      owned := id in locks && locks[id].owner == owner;
      if owned {
        locks := locks - {id};
      }
    }

    method UpdateAfterRefresh(now: nat, id: string, owner: string, renewed: Session) returns (outcome: OwnedMutation)
      modifies this
      ensures (View(), Mutated(outcome)) == Lazy(old(View()), ttl, now, UpdateOp(id, owner, renewed))
    {
      RetainLive(now);
      if id !in locks || locks[id].owner != owner {
        return OwnershipLost;
      }
      if id !in sessions {
        return SessionMissing;
      }
      var stored := sessions[id];
      EntriesPut(sessions, ttl, id, stored.(session := Refreshed(stored.session, renewed)));
      sessions := sessions[id := stored.(session := Refreshed(stored.session, renewed))];
      return Applied;
    }

    method InvalidateForRefresh(now: nat, id: string, owner: string) returns (outcome: OwnedMutation)
      modifies this
      ensures (View(), Mutated(outcome)) == Lazy(old(View()), ttl, now, InvalidateOp(id, owner))
    {
      RetainLive(now);
      if id !in locks || locks[id].owner != owner {
        return OwnershipLost;
      }
      if id !in sessions {
        return SessionMissing;
      }
      EntriesDrop(sessions, ttl, id);
      sessions := sessions - {id};
      return Applied;
    }
  }
}
