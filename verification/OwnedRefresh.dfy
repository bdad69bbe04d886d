/** One owner's turn, from the grant of the lease to its release, acting on the store in place. */
module OwnedRefresh {
  import opened Prelude
  import opened Timing
  import opened SessionStore
  import Lease

  /** The instants of a turn and the fate of its three store calls. */
  datatype Course = Course(
    start: nat, readAt: nat, answeredAt: nat, writeAt: nat, releaseAt: nat,
    read: Delivery, write: Delivery, release: Delivery)
  {
    predicate Valid() {
      start <= readAt <= answeredAt <= writeAt <= releaseAt
    }
  }

  /** Who takes the turn, on which session, by which clock, and against which token endpoint. */
  datatype Owner = Owner(
    sid: string, id: string, baseNow: U64, startedAt: nat, deadline: nat, endpoint: string -> Lease.TokenReply)
  {
    function EffectiveNow(at: nat): U64
      requires startedAt <= at
    {
      EffectiveNowFromElapsed(baseNow, at - startedAt)
    }
  }

  function Released(st: Store, ttl: nat, o: Owner, c: Course, result: Lease.Outcome): (Store, Lease.Outcome) {
    if c.release.RequestLost? then (st, Lease.TemporarilyUnavailable)
    else
      var (st', answer) := Lazy(st, ttl, c.releaseAt, ReleaseOp(o.sid, o.id));
      (st', if c.release.Delivered? && answer == ReleaseAnswer(true) then result else Lease.TemporarilyUnavailable)
  }

  function Invalidated(st: Store, ttl: nat, o: Owner, c: Course): (Store, Lease.Outcome) {
    if c.write.RequestLost? then (st, Lease.TemporarilyUnavailable)
    else
      var (st', answer) := Lazy(st, ttl, c.writeAt, InvalidateOp(o.sid, o.id));
      (st', if c.write.Delivered? && answer.Mutated? then Lease.AfterInvalidation(answer.outcome)
            else Lease.TemporarilyUnavailable)
  }

  function Updated(st: Store, ttl: nat, o: Owner, c: Course, renewed: Session): (Store, Lease.Outcome) {
    if c.write.RequestLost? then (st, Lease.TemporarilyUnavailable)
    else
      var (st', answer) := Lazy(st, ttl, c.writeAt, UpdateOp(o.sid, o.id, renewed));
      (st', if c.write.Delivered? && answer.Mutated? then Lease.AfterUpdate(renewed.accessToken, answer.outcome)
            else Lease.TemporarilyUnavailable)
  }

  predicate Usable(o: Owner, c: Course, x: Session)
    requires o.startedAt <= c.readAt
  {
    SufficientlyValid(x.accessTokenExpiresAt, o.EffectiveNow(c.readAt))
  }

  function Worked(st: Store, ttl: nat, o: Owner, c: Course): (Store, Lease.Outcome)
    requires c.Valid() && o.startedAt <= c.start
  {
    if c.read.RequestLost? then (st, Lease.TemporarilyUnavailable)
    else
      var st' := Lazy(st, ttl, c.readAt, GetOp(o.sid)).0;
      var found := Get(st, c.readAt, o.sid);
      if c.read.ReplyLost? then (st', Lease.TemporarilyUnavailable)
      else if found.None? then (st', Lease.ReauthenticationRequired)
      else if Usable(o, c, found.value) then (st', Lease.Ready(found.value.accessToken))
      else if found.value.refreshToken.None? then (st', Lease.ReauthenticationRequired)
      else
        match o.endpoint(found.value.refreshToken.value)
        case Failed => (st', Lease.TemporarilyUnavailable)
        case InvalidGrant => Invalidated(st', ttl, o, c)
        case Tokens(a, r, e) =>
          Updated(st', ttl, o, c, Lease.Renewed(found.value, Lease.Tokens(a, r, e), o.EffectiveNow(c.answeredAt)))
  }

  /** The whole turn: no work past the deadline, and the release in any case. */
  function Turn(st: Store, ttl: nat, o: Owner, c: Course): (Store, Lease.Outcome)
    requires c.Valid() && o.startedAt <= c.start
  {
    var (st', result) :=
      if c.start >= o.deadline then (st, Lease.TemporarilyUnavailable) else Worked(st, ttl, o, c);
    Released(st', ttl, o, c, result)
  }

  // ---- what a turn does, as the owner's session and everything else see it -----------------------

  /** The session's live record and lock at `now`, the rest of the store apart. */
  ghost function RecordAt(st: Store, now: nat, sid: string): Option<Entry> {
    if Readable(st, now, sid) then Some(st.sessions[sid]) else None
  }

  ghost function LockAt(st: Store, now: nat, sid: string): Option<Lock> {
    if Locked(st, now, sid) then Some(st.locks[sid]) else None
  }

  /** What one operation of the owner on its session does, at its instant and at any later one. */
  lemma OpEffect(st: Store, ttl: nat, at: nat, op: Op, later: nat, sid: string)
    requires at <= later && op.id == sid && !op.PutOp? && !op.AcquireOp?
    ensures var st' := Lazy(st, ttl, at, op).0;
            && (forall id | id != sid ::
                  RecordAt(st', later, id) == RecordAt(st, later, id)
                  && LockAt(st', later, id) == LockAt(st, later, id))
            && LockAt(st', later, sid) ==
               (if op.ReleaseOp? && HeldBy(st, at, sid, op.owner) then None else LockAt(st, later, sid))
            && RecordAt(st', later, sid) ==
               match op
               case UpdateOp(_, o, x) =>
                 if HeldBy(st, at, sid, o) && RecordAt(st, later, sid).Some?
                 then Some(st.sessions[sid].(session := Refreshed(st.sessions[sid].session, x)))
                 else RecordAt(st, later, sid)
               case InvalidateOp(_, o) => if HeldBy(st, at, sid, o) then None else RecordAt(st, later, sid)
               case _ => RecordAt(st, later, sid)
  {
  }

  /** The owner read, in time, a record that must be exchanged. */
  predicate Exchanges(st: Store, o: Owner, c: Course)
    requires c.Valid() && o.startedAt <= c.start
  {
    && c.start < o.deadline && c.read.Delivered? && Readable(st, c.readAt, o.sid)
    && var x := st.sessions[o.sid].session; !Usable(o, c, x) && x.refreshToken.Some?
  }

  function Reply(st: Store, o: Owner): Lease.TokenReply
    requires o.sid in st.sessions && st.sessions[o.sid].session.refreshToken.Some?
  {
    o.endpoint(st.sessions[o.sid].session.refreshToken.value)
  }

  /** The record after the turn, seen at the release or later. */
  ghost function RecordAfter(st: Store, o: Owner, c: Course, later: nat): Option<Entry>
    requires c.Valid() && o.startedAt <= c.start
  {
    var before := RecordAt(st, later, o.sid);
    if !Exchanges(st, o, c) || c.write.RequestLost? || !HeldBy(st, c.writeAt, o.sid, o.id) || before.None? then before
    else
      var reply := Reply(st, o);
      match reply
      case Failed => before
      case InvalidGrant => None
      case Tokens(_, _, _) =>
        var x := before.value.session;
        Some(before.value.(session := Refreshed(x, Lease.Renewed(x, reply, o.EffectiveNow(c.answeredAt)))))
  }

  lemma MutationEffect(st: Store, read: Store, ttl: nat, o: Owner, c: Course, later: nat)
    requires c.Valid() && o.startedAt <= c.start && c.writeAt <= later && Exchanges(st, o, c)
    requires read == Lazy(st, ttl, c.readAt, GetOp(o.sid)).0
    ensures var st' := Worked(st, ttl, o, c).0;
            && (forall id :: LockAt(st', later, id) == LockAt(read, later, id))
            && (forall id | id != o.sid :: RecordAt(st', later, id) == RecordAt(read, later, id))
            && RecordAt(st', later, o.sid) == RecordAfter(st, o, c, later)
  {
    OpEffect(st, ttl, c.readAt, GetOp(o.sid), later, o.sid);
    OpEffect(st, ttl, c.readAt, GetOp(o.sid), c.writeAt, o.sid);
    var reply := Reply(st, o);
    if reply.InvalidGrant? {
      OpEffect(read, ttl, c.writeAt, InvalidateOp(o.sid, o.id), later, o.sid);
    } else if reply.Tokens? {
      var renewed := Lease.Renewed(st.sessions[o.sid].session, reply, o.EffectiveNow(c.answeredAt));
      OpEffect(read, ttl, c.writeAt, UpdateOp(o.sid, o.id, renewed), later, o.sid);
    }
  }

  /** The work changes nothing but the owner's session, and no lock. */
  lemma WorkedEffect(st: Store, ttl: nat, o: Owner, c: Course, later: nat)
    requires c.Valid() && o.startedAt <= c.start < o.deadline && c.writeAt <= later
    ensures var st' := Worked(st, ttl, o, c).0;
            && (forall id :: LockAt(st', later, id) == LockAt(st, later, id))
            && (forall id | id != o.sid :: RecordAt(st', later, id) == RecordAt(st, later, id))
            && RecordAt(st', later, o.sid) == RecordAfter(st, o, c, later)
  {
    var read := Lazy(st, ttl, c.readAt, GetOp(o.sid)).0;
    OpEffect(st, ttl, c.readAt, GetOp(o.sid), later, o.sid);
    if Exchanges(st, o, c) {
      MutationEffect(st, read, ttl, o, c, later);
    }
  }

  /**
   * Exactly what a turn leaves: every other session and lock as it was; its own lock gone if it still held
   * it when the release ran; its own record unchanged, renewed in the three token fields, or dropped.
   */
  lemma TurnEffect(st: Store, ttl: nat, o: Owner, c: Course, later: nat)
    requires c.Valid() && o.startedAt <= c.start && c.releaseAt <= later
    ensures var st' := Turn(st, ttl, o, c).0;
            && (forall id | id != o.sid ::
                  RecordAt(st', later, id) == RecordAt(st, later, id)
                  && LockAt(st', later, id) == LockAt(st, later, id))
            && RecordAt(st', later, o.sid) == RecordAfter(st, o, c, later)
            && LockAt(st', later, o.sid) ==
               (if !c.release.RequestLost? && HeldBy(st, c.releaseAt, o.sid, o.id) then None
                else LockAt(st, later, o.sid))
  {
    var st' := if c.start >= o.deadline then st else Worked(st, ttl, o, c).0;
    if c.start < o.deadline {
      WorkedEffect(st, ttl, o, c, later);
      WorkedEffect(st, ttl, o, c, c.releaseAt);
    }
    assert LockAt(st', c.releaseAt, o.sid) == LockAt(st, c.releaseAt, o.sid);
    OpEffect(st', ttl, c.releaseAt, ReleaseOp(o.sid, o.id), later, o.sid);
  }

  /** The turn of one that lost the lock before it began changes nothing and hands out nothing. */
  lemma LateTurn(st: Store, ttl: nat, o: Owner, c: Course, later: nat, id: string)
    requires c.Valid() && o.startedAt <= c.start && c.releaseAt <= later
    requires !HeldBy(st, c.start, o.sid, o.id)
    ensures var (st', result) := Turn(st, ttl, o, c);
            && RecordAt(st', later, id) == RecordAt(st, later, id) && LockAt(st', later, id) == LockAt(st, later, id)
            && result == Lease.TemporarilyUnavailable
  {
    TurnEffect(st, ttl, o, c, later);
    ReleaseMeans(st, ttl, o, c);
  }

  lemma ReleaseMeans(st: Store, ttl: nat, o: Owner, c: Course)
    requires c.Valid() && o.startedAt <= c.start
    ensures Turn(st, ttl, o, c).1 ==
            if c.release.Delivered? && HeldBy(st, c.releaseAt, o.sid, o.id) && c.start < o.deadline
            then Worked(st, ttl, o, c).1 else Lease.TemporarilyUnavailable
  {
    if c.start < o.deadline {
      WorkedEffect(st, ttl, o, c, c.releaseAt);
      var st' := Worked(st, ttl, o, c).0;
      assert LockAt(st', c.releaseAt, o.sid) == LockAt(st, c.releaseAt, o.sid);
    }
  }

  /**
   * A turn hands out `t` exactly when it began before its deadline, held the lock up to the release, and read
   * `t` as good enough or stored it as new; and then the record shows `t` as long as it lives.
   */
  lemma ReadyExact(st: Store, ttl: nat, o: Owner, c: Course, t: string)
    requires c.Valid() && o.startedAt <= c.start
    ensures Turn(st, ttl, o, c).1 == Lease.Ready(t) <==>
            && c.start < o.deadline && c.release.Delivered? && HeldBy(st, c.releaseAt, o.sid, o.id)
            && c.read.Delivered? && Readable(st, c.readAt, o.sid)
            && if Usable(o, c, st.sessions[o.sid].session) then st.sessions[o.sid].session.accessToken == t
               else
                 && Exchanges(st, o, c) && c.write.Delivered? && Readable(st, c.writeAt, o.sid)
                 && Reply(st, o).Tokens? && Reply(st, o).access == t
    ensures Turn(st, ttl, o, c).1 == Lease.Ready(t) && Readable(st, c.releaseAt, o.sid) ==>
              var after := RecordAt(Turn(st, ttl, o, c).0, c.releaseAt, o.sid);
              after.Some? && after.value.session.accessToken == t
  {
    ReleaseMeans(st, ttl, o, c);
    TurnEffect(st, ttl, o, c, c.releaseAt);
    if c.start < o.deadline && HeldBy(st, c.releaseAt, o.sid, o.id) {
      WorkedResult(st, ttl, o, c, t);
    }
  }

  lemma WorkedResult(st: Store, ttl: nat, o: Owner, c: Course, t: string)
    requires c.Valid() && o.startedAt <= c.start < o.deadline && HeldBy(st, c.writeAt, o.sid, o.id)
    ensures Worked(st, ttl, o, c).1 == Lease.Ready(t) <==>
            && c.read.Delivered? && Readable(st, c.readAt, o.sid)
            && if Usable(o, c, st.sessions[o.sid].session) then st.sessions[o.sid].session.accessToken == t
               else
                 && Exchanges(st, o, c) && c.write.Delivered? && Readable(st, c.writeAt, o.sid)
                 && Reply(st, o).Tokens? && Reply(st, o).access == t
  {
    var read := Lazy(st, ttl, c.readAt, GetOp(o.sid)).0;
    assert HeldBy(read, c.writeAt, o.sid, o.id);
    assert Readable(read, c.writeAt, o.sid) <==> Readable(st, c.writeAt, o.sid);
  }

  /**
   * A turn asks for a new login exactly when it began before its deadline, held the lock up to the release, and
   * found no record or one past use without a refresh token, or was told the grant is invalid and dropped the
   * session, or found the record gone when it came to store the new tokens.
   */
  lemma ReauthExact(st: Store, ttl: nat, o: Owner, c: Course)
    requires c.Valid() && o.startedAt <= c.start
    ensures Turn(st, ttl, o, c).1 == Lease.ReauthenticationRequired <==>
            && c.start < o.deadline && c.release.Delivered? && HeldBy(st, c.releaseAt, o.sid, o.id)
            && c.read.Delivered? && AsksForLogin(st, o, c)
  {
    ReleaseMeans(st, ttl, o, c);
    if c.start < o.deadline && HeldBy(st, c.releaseAt, o.sid, o.id) {
      WorkedReauth(st, ttl, o, c);
    }
  }

  /** What an owner that holds the lock reads, and is told, when it asks for a new login. */
  predicate AsksForLogin(st: Store, o: Owner, c: Course)
    requires c.Valid() && o.startedAt <= c.start
  {
    || !Readable(st, c.readAt, o.sid)
    || (var x := st.sessions[o.sid].session;
        var now := o.baseNow + (c.readAt - o.startedAt) / 1000;
        && x.accessTokenExpiresAt.Some? && x.accessTokenExpiresAt.value <= now + 30
        && (|| x.refreshToken.None?
            || (&& c.write.Delivered?
                && var reply := o.endpoint(x.refreshToken.value);
                   || reply == Lease.InvalidGrant
                   || (reply.Tokens? && !Readable(st, c.writeAt, o.sid)))))
  }

  lemma WorkedReauth(st: Store, ttl: nat, o: Owner, c: Course)
    requires c.Valid() && o.startedAt <= c.start < o.deadline && HeldBy(st, c.writeAt, o.sid, o.id)
    ensures Worked(st, ttl, o, c).1 == Lease.ReauthenticationRequired <==> c.read.Delivered? && AsksForLogin(st, o, c)
  {
    var read := Lazy(st, ttl, c.readAt, GetOp(o.sid)).0;
    assert HeldBy(read, c.writeAt, o.sid, o.id);
    assert Readable(read, c.writeAt, o.sid) <==> Readable(st, c.writeAt, o.sid);
  }

  // ---- the turn in place ------------------------------------------------------------------------------

  method ReleaseRefreshLock(store: TestSessionStore, o: Owner, c: Course, result: Lease.Outcome)
      returns (r: Lease.Outcome)
    modifies store
    ensures (store.View(), r) == Released(old(store.View()), store.ttl, o, c, result)
  {
    if c.release.RequestLost? {
      return Lease.TemporarilyUnavailable;
    }
    var owned := store.ReleaseRefreshLock(c.releaseAt, o.sid, o.id);
    r := if c.release.Delivered? && owned then result else Lease.TemporarilyUnavailable;
  }

  method InvalidateRejectedRefresh(store: TestSessionStore, o: Owner, c: Course) returns (r: Lease.Outcome)
    modifies store
    ensures (store.View(), r) == Invalidated(old(store.View()), store.ttl, o, c)
  {
    if c.write.RequestLost? {
      return Lease.TemporarilyUnavailable;
    }
    var outcome := store.InvalidateForRefresh(c.writeAt, o.sid, o.id);
    r := if c.write.Delivered? then Lease.AfterInvalidation(outcome) else Lease.TemporarilyUnavailable;
  }

  method RefreshWithOwnership(store: TestSessionStore, o: Owner, c: Course) returns (r: Lease.Outcome)
    requires c.Valid() && o.startedAt <= c.start
    modifies store
    ensures (store.View(), r) == Worked(old(store.View()), store.ttl, o, c)
  {
    if c.read.RequestLost? {
      return Lease.TemporarilyUnavailable;
    }
    var found := store.Get(c.readAt, o.sid);
    if c.read.ReplyLost? {
      return Lease.TemporarilyUnavailable;
    }
    if found.None? {
      return Lease.ReauthenticationRequired;
    }
    var current := found.value;
    if SufficientlyValid(current.accessTokenExpiresAt, o.EffectiveNow(c.readAt)) {
      return Lease.Ready(current.accessToken);
    }
    if current.refreshToken.None? {
      return Lease.ReauthenticationRequired;
    }
    var reply := o.endpoint(current.refreshToken.value);
    match reply {
      case Failed =>
        return Lease.TemporarilyUnavailable;
      case InvalidGrant =>
        r := InvalidateRejectedRefresh(store, o, c);
      case Tokens(_, _, _) =>
        var renewed := Lease.Renewed(current, reply, o.EffectiveNow(c.answeredAt));
        if c.write.RequestLost? {
          return Lease.TemporarilyUnavailable;
        }
        var outcome := store.UpdateAfterRefresh(c.writeAt, o.sid, o.id, renewed);
        r := if c.write.Delivered? then Lease.AfterUpdate(renewed.accessToken, outcome)
             else Lease.TemporarilyUnavailable;
    }
  }

  method RunOwnedRefresh(store: TestSessionStore, o: Owner, c: Course) returns (r: Lease.Outcome)
    requires c.Valid() && o.startedAt <= c.start
    modifies store
    ensures (store.View(), r) == Turn(old(store.View()), store.ttl, o, c)
    ensures forall t :: r == Lease.Ready(t) ==> HeldBy(old(store.View()), c.releaseAt, o.sid, o.id)
    ensures !HeldBy(old(store.View()), c.start, o.sid, o.id) ==> r == Lease.TemporarilyUnavailable
  {
    ReleaseMeans(store.View(), store.ttl, o, c);
    if c.start >= o.deadline {
      r := ReleaseRefreshLock(store, o, c, Lease.TemporarilyUnavailable);
      return;
    }
    var result := RefreshWithOwnership(store, o, c);
    r := ReleaseRefreshLock(store, o, c, result);
  }
}
