/** The Redis form of the store: a hash of strings per session, and its agreement with the specification. */
module RedisStore {
  import opened Prelude
  import opened Text
  import opened Timing
  import opened SessionStore

  type Hash = map<string, string>

  // ---- the hash of one session -----------------------------------------------------------

  function OptionText(o: Option<string>): string {
    if o.Some? then o.value else ""
  }

  function ExpiryText(o: Option<U64>): string {
    Decimal(if o.Some? then o.value else 0)
  }

  function EncodeOptionalBool(o: Option<bool>): string {
    match o
    case Some(true) => "true"
    case Some(false) => "false"
    case None => ""
  }

  function DecodeOptionalBool(o: Option<string>): Result<Option<bool>, ()> {
    if o.None? || o.value == "" then Ok(None)
    else if o.value == "true" then Ok(Some(true))
    else if o.value == "false" then Ok(Some(false))
    else Err(())
  }

  /** `HSET` of the three token fields, as the update script does. */
  function SetTokens(h: Hash, s: Session): Hash {
    h["access_token" := s.accessToken]
     ["refresh_token" := OptionText(s.refreshToken)]
     ["access_token_expires_at" := ExpiryText(s.accessTokenExpiresAt)]
  }

  function SetIdentity(h: Hash, i: Identity): Hash {
    h["issuer" := i.issuer]["subject" := i.subject]
     ["email" := OptionText(i.email)]["email_verified" := EncodeOptionalBool(i.emailVerified)]
  }

  function Encode(s: Session): Hash {
    SetIdentity(SetTokens(map[], s), s.identity)
  }

  function Field(h: Hash, name: string): Option<string> {
    if name in h then Some(h[name]) else None
  }

  function NonEmpty(o: Option<string>): Option<string> {
    if o.Some? && o.value == "" then None else o
  }

  /** The expiry field as the client types it: absent, or a decimal u64. */
  function ParseExpiry(o: Option<string>): Result<Option<U64>, ()> {
    if o.None? then Ok(None)
    else if o.value != "" && All(o.value, IsDigit) && DecimalValue(o.value) <= U64_MAX then
      Ok(Some(DecimalValue(o.value)))
    else Err(())
  }

  function NonZero(o: Option<U64>): Option<U64> {
    if o.Some? && o.value == 0 then None else o
  }

  function DecodeIdentity(issuer: string, subject: string, email: Option<string>, verified: Option<bool>): Identity {
    var email' := NonEmpty(email);
    Identity(issuer, subject, email', if email'.Some? then verified else None)
  }

  function Decode(h: Hash): Result<Option<Session>, ()> {
    var expiry :- ParseExpiry(Field(h, "access_token_expires_at"));
    if "access_token" !in h then Ok(None)
    else if NonEmpty(Field(h, "issuer")).None? then Ok(None)
    else if NonEmpty(Field(h, "subject")).None? then Ok(None)
    else
      var verified :- DecodeOptionalBool(Field(h, "email_verified"));
      Ok(Some(Session(
        h["access_token"], NonEmpty(Field(h, "refresh_token")), NonZero(expiry),
        DecodeIdentity(h["issuer"], h["subject"], Field(h, "email"), verified))))
  }

  /** The hash of one session, field by field. */
  lemma WireForm(s: Session)
    ensures Encode(s).Keys == {"access_token", "refresh_token", "access_token_expires_at",
                               "issuer", "subject", "email", "email_verified"}
    ensures var h, i := Encode(s), s.identity;
            && h["access_token"] == s.accessToken
            && h["refresh_token"] == (if s.refreshToken.Some? then s.refreshToken.value else "")
            && h["access_token_expires_at"] ==
               (if s.accessTokenExpiresAt.Some? then Decimal(s.accessTokenExpiresAt.value) else "0")
            && h["issuer"] == i.issuer && h["subject"] == i.subject
            && h["email"] == (if i.email.Some? then i.email.value else "")
            && h["email_verified"] == if i.emailVerified == Some(true) then "true"
                                      else if i.emailVerified == Some(false) then "false" else ""
  {
    assert Decimal(0) == "0";
  }

  /** A decimal number of 64 bits. */
  predicate IsNumber(o: string) {
    o != "" && All(o, IsDigit) && DecimalValue(o) <= 0xFFFF_FFFF_FFFF_FFFF
  }

  predicate NamesSession(h: Hash) {
    && "access_token" in h
    && "issuer" in h && h["issuer"] != ""
    && "subject" in h && h["subject"] != ""
  }

  /**
   * Reading any hash at all: it fails on an expiry that is no number, and on a verified flag that is none in a
   * hash that names a session; otherwise it finds the session named, or nothing when a name is missing or empty.
   */
  lemma DecodeExactly(h: Hash)
    ensures Decode(h).Err? <==>
            || ("access_token_expires_at" in h && !IsNumber(h["access_token_expires_at"]))
            || (&& NamesSession(h) && "email_verified" in h
                && h["email_verified"] != "true" && h["email_verified"] != "false" && h["email_verified"] != "")
    ensures Decode(h).Ok? ==> (Decode(h).value.Some? <==> NamesSession(h))
    ensures Decode(h).Ok? && NamesSession(h) ==>
            var s, email := Decode(h).value.value, if "email" in h then h["email"] else "";
            && s.accessToken == h["access_token"]
            && s.refreshToken == (if "refresh_token" in h && h["refresh_token"] != "" then Some(h["refresh_token"])
                                  else None)
            && s.accessTokenExpiresAt ==
               (if "access_token_expires_at" in h && DecimalValue(h["access_token_expires_at"]) != 0
                then Some(DecimalValue(h["access_token_expires_at"])) else None)
            && s.identity.issuer == h["issuer"] && s.identity.subject == h["subject"]
            && s.identity.email == (if email != "" then Some(email) else None)
            && (s.identity.emailVerified == Some(true) <==>
                email != "" && "email_verified" in h && h["email_verified"] == "true")
            && (s.identity.emailVerified == Some(false) <==>
                email != "" && "email_verified" in h && h["email_verified"] == "false")
  {
  }

  // ---- what survives the round trip --------------------------------------------------------

  /**
   * The form in which a session comes back: empty and zero options are absent, and so is a verified flag
   * without e-mail.
   */
  function Normalised(s: Session): Session {
    Session(s.accessToken, NonEmpty(s.refreshToken), NonZero(s.accessTokenExpiresAt),
            DecodeIdentity(s.identity.issuer, s.identity.subject, s.identity.email, s.identity.emailVerified))
  }

  predicate Identified(s: Session) {
    s.identity.issuer != "" && s.identity.subject != ""
  }

  predicate Canonical(s: Session) {
    && s.refreshToken != Some("") && s.accessTokenExpiresAt != Some(0)
    && s.identity.email != Some("") && (s.identity.email.None? ==> s.identity.emailVerified.None?)
  }

  lemma NormalisedExact(s: Session)
    ensures Normalised(s) == s <==> Canonical(s)
    ensures Canonical(Normalised(s)) && Normalised(Normalised(s)) == Normalised(s)
  {
  }

  lemma ExpiryRoundTrip(o: Option<U64>)
    ensures ParseExpiry(Some(ExpiryText(o))) == Ok(Some(if o.Some? then o.value else 0))
  {
    DecimalRoundTrip(if o.Some? then o.value else 0);
  }

  lemma OptionRoundTrip(o: Option<string>)
    ensures NonEmpty(Some(OptionText(o))) == NonEmpty(o)
  {
  }

  lemma BoolRoundTrip(o: Option<bool>)
    ensures DecodeOptionalBool(Some(EncodeOptionalBool(o))) == Ok(o)
  {
    assert "true" != "false" by {
      assert |"true"| != |"false"|;
    }
  }

  lemma TokenFields(h: Hash, s: Session)
    ensures var g := SetTokens(h, s);
      && Field(g, "access_token") == Some(s.accessToken)
      && Field(g, "refresh_token") == Some(OptionText(s.refreshToken))
      && Field(g, "access_token_expires_at") == Some(ExpiryText(s.accessTokenExpiresAt))
      && Field(g, "issuer") == Field(h, "issuer") && Field(g, "subject") == Field(h, "subject")
      && Field(g, "email") == Field(h, "email") && Field(g, "email_verified") == Field(h, "email_verified")
  {
    assert |"access_token"| == 12 && |"refresh_token"| == 13 && |"access_token_expires_at"| == 23;
    assert |"issuer"| == 6 && |"subject"| == 7 && |"email"| == 5 && |"email_verified"| == 14;
  }

  lemma IdentityFields(h: Hash, i: Identity)
    ensures var g := SetIdentity(h, i);
      && Field(g, "issuer") == Some(i.issuer) && Field(g, "subject") == Some(i.subject)
      && Field(g, "email") == Some(OptionText(i.email))
      && Field(g, "email_verified") == Some(EncodeOptionalBool(i.emailVerified))
      && Field(g, "access_token") == Field(h, "access_token")
      && Field(g, "refresh_token") == Field(h, "refresh_token")
      && Field(g, "access_token_expires_at") == Field(h, "access_token_expires_at")
  {
    assert |"access_token"| == 12 && |"refresh_token"| == 13 && |"access_token_expires_at"| == 23;
    assert |"issuer"| == 6 && |"subject"| == 7 && |"email"| == 5 && |"email_verified"| == 14;
  }

  /** What a stored session reads back as: nothing without issuer and subject, else its normal form. */
  lemma DecodeEncode(s: Session)
    ensures Decode(Encode(s)) == Ok(if Identified(s) then Some(Normalised(s)) else None)
  {
    TokenFields(map[], s);
    IdentityFields(SetTokens(map[], s), s.identity);
    ExpiryRoundTrip(s.accessTokenExpiresAt);
    OptionRoundTrip(s.refreshToken);
    OptionRoundTrip(s.identity.email);
    BoolRoundTrip(s.identity.emailVerified);
  }

  /** Reading back is the identity on exactly the canonical, identified sessions. */
  lemma DecodeEncodeIdentity(s: Session)
    ensures Decode(Encode(s)) == Ok(Some(s)) <==> Identified(s) && Canonical(s)
  {
    DecodeEncode(s);
    NormalisedExact(s);
  }

  /** The update script changes the tokens, in normal form, and keeps the identity it finds. */
  lemma DecodeUpdate(h: Hash, stored: Session, renewed: Session)
    requires Decode(h) == Ok(Some(stored))
    ensures Decode(SetTokens(h, renewed)) == Ok(Some(Refreshed(stored, Normalised(renewed))))
  {
    TokenFields(h, renewed);
    ExpiryRoundTrip(renewed.accessTokenExpiresAt);
    OptionRoundTrip(renewed.refreshToken);
  }

  // ---- the whole store ------------------------------------------------------------------------

  datatype HashEntry = HashEntry(hash: Hash, expiresAt: nat)

  datatype Redis = Redis(sessions: map<string, HashEntry>, locks: map<string, Lock>)

  predicate Exists(st: Redis, now: nat, id: string) {
    id in st.sessions && now < st.sessions[id].expiresAt
  }

  /** `GET` of the lock key compared with the caller's owner id. */
  predicate OwnerIs(st: Redis, now: nat, id: string, owner: string) {
    id in st.locks && now < st.locks[id].expiresAt && st.locks[id].owner == owner
  }

  /** The commands and scripts, each atomic; a missing key reads as an empty hash. */
  function Execute(st: Redis, ttl: nat, now: nat, op: Op): (Redis, Result<Answer, ()>) {
    match op
    case PutOp(id, s) =>
      (st.(sessions := st.sessions[id := HashEntry(Encode(s), now + ttl)]), Ok(Stored))
    case GetOp(id) =>
      var hash := if Exists(st, now, id) then st.sessions[id].hash else map[];
      (st, match Decode(hash) case Ok(s) => Ok(Found(s)) case Err(e) => Err(e))
    case AcquireOp(id, o, lease) =>
      if lease == 0 then (st, Ok(LockAnswer(Err(()))))
      else if id in st.locks && now < st.locks[id].expiresAt then (st, Ok(LockAnswer(Ok(false))))
      else (st.(locks := st.locks[id := Lock(o, now + lease)]), Ok(LockAnswer(Ok(true))))
    case ReleaseOp(id, o) =>
      if OwnerIs(st, now, id, o) then (st.(locks := st.locks - {id}), Ok(ReleaseAnswer(true)))
      else (st, Ok(ReleaseAnswer(false)))
    case UpdateOp(id, o, s) =>
      if !OwnerIs(st, now, id, o) then (st, Ok(Mutated(OwnershipLost)))
      else if !Exists(st, now, id) then (st, Ok(Mutated(SessionMissing)))
      else
        var e := st.sessions[id];
        (st.(sessions := st.sessions[id := e.(hash := SetTokens(e.hash, s))]), Ok(Mutated(Applied)))
    case InvalidateOp(id, o) =>
      if !OwnerIs(st, now, id, o) then (st, Ok(Mutated(OwnershipLost)))
      else if !Exists(st, now, id) then (st, Ok(Mutated(SessionMissing)))
      else (st.(sessions := st.sessions - {id}), Ok(Mutated(Applied)))
  }

  /** A get fails if and only if there is a hash and it cannot be read. */
  lemma GetExactly(st: Redis, ttl: nat, now: nat, id: string)
    ensures Execute(st, ttl, now, GetOp(id)).0 == st
    ensures !Exists(st, now, id) ==> Execute(st, ttl, now, GetOp(id)).1 == Ok(Found(None))
    ensures Execute(st, ttl, now, GetOp(id)).1.Err? <==>
            && Exists(st, now, id)
            && var h := st.sessions[id].hash;
               || ("access_token_expires_at" in h && !IsNumber(h["access_token_expires_at"]))
               || (NamesSession(h) && "email_verified" in h && h["email_verified"] !in {"true", "false", ""})
  {
    MissingHash();
    if Exists(st, now, id) {
      DecodeExactly(st.sessions[id].hash);
    }
  }

  /** Each hash reads as the session of the specification, under the same deadline. */
  ghost predicate Represents(redis: Redis, exact: Store) {
    && redis.locks == exact.locks
    && redis.sessions.Keys == exact.sessions.Keys
    && forall id | id in redis.sessions ::
         && redis.sessions[id].expiresAt == exact.sessions[id].expiresAt
         && Decode(redis.sessions[id].hash) == Ok(Some(exact.sessions[id].session))
  }

  function NormalisedOp(op: Op): Op {
    match op
    case PutOp(id, s) => PutOp(id, Normalised(s))
    case UpdateOp(id, o, s) => UpdateOp(id, o, Normalised(s))
    case _ => op
  }

  /** Sessions that are put carry an issuer and a subject, as `callback` makes them. */
  predicate Admissible(op: Op) {
    op.PutOp? ==> Identified(op.session)
  }

  lemma MissingHash()
    ensures Decode(map[]) == Ok(None)
  {
  }

  ghost predicate EntryAgrees(e: HashEntry, x: Entry) {
    e.expiresAt == x.expiresAt && Decode(e.hash) == Ok(Some(x.session))
  }

  lemma PutAgrees(redis: Redis, exact: Store, id: string, e: HashEntry, x: Entry)
    requires Represents(redis, exact) && EntryAgrees(e, x)
    ensures Represents(redis.(sessions := redis.sessions[id := e]), exact.(sessions := exact.sessions[id := x]))
  {
  }

  lemma UpdateAgrees(redis: Redis, exact: Store, ttl: nat, now: nat, id: string, owner: string, s: Session)
    requires Represents(redis, exact)
    ensures var op := UpdateOp(id, owner, s);
      && Execute(redis, ttl, now, op).1 == Ok(Exact(exact, ttl, now, NormalisedOp(op)).1)
      && Represents(Execute(redis, ttl, now, op).0, Exact(exact, ttl, now, NormalisedOp(op)).0)
  {
    if Readable(exact, now, id) {
      var e, x := redis.sessions[id], exact.sessions[id];
      DecodeUpdate(e.hash, x.session, s);
      PutAgrees(redis, exact, id, e.(hash := SetTokens(e.hash, s)), x.(session := Refreshed(x.session, Normalised(s))));
    }
  }

  lemma AcquireAgrees(redis: Redis, exact: Store, ttl: nat, now: nat, id: string, owner: string, lease: nat)
    requires Represents(redis, exact)
    ensures var op := AcquireOp(id, owner, lease);
      && Execute(redis, ttl, now, op).1 == Ok(Exact(exact, ttl, now, op).1)
      && Represents(Execute(redis, ttl, now, op).0, Exact(exact, ttl, now, op).0)
  {
  }

  lemma ReleaseAgrees(redis: Redis, exact: Store, ttl: nat, now: nat, id: string, owner: string)
    requires Represents(redis, exact)
    ensures var op := ReleaseOp(id, owner);
      && Execute(redis, ttl, now, op).1 == Ok(Exact(exact, ttl, now, op).1)
      && Represents(Execute(redis, ttl, now, op).0, Exact(exact, ttl, now, op).0)
  {
  }

  lemma InvalidateAgrees(redis: Redis, exact: Store, ttl: nat, now: nat, id: string, owner: string)
    requires Represents(redis, exact)
    ensures var op := InvalidateOp(id, owner);
      && Execute(redis, ttl, now, op).1 == Ok(Exact(exact, ttl, now, op).1)
      && Represents(Execute(redis, ttl, now, op).0, Exact(exact, ttl, now, op).0)
  {
  }

  lemma GetAgrees(redis: Redis, exact: Store, ttl: nat, now: nat, id: string)
    requires Represents(redis, exact)
    ensures Execute(redis, ttl, now, GetOp(id)).1 == Ok(Found(Get(exact, now, id)))
  {
    MissingHash();
  }

  /** Redis does not err, answers as the specification does on the normal form, and still represents it. */
  lemma ExecuteAgrees(redis: Redis, exact: Store, ttl: nat, now: nat, op: Op)
    requires Represents(redis, exact) && Admissible(op)
    ensures Execute(redis, ttl, now, op).1 == Ok(Exact(exact, ttl, now, NormalisedOp(op)).1)
    ensures Represents(Execute(redis, ttl, now, op).0, Exact(exact, ttl, now, NormalisedOp(op)).0)
  {
    match op
    case PutOp(id, s) =>
      DecodeEncode(s);
      PutAgrees(redis, exact, id, HashEntry(Encode(s), now + ttl), Entry(Normalised(s), now + ttl));
    case GetOp(id) => GetAgrees(redis, exact, ttl, now, id);
    case UpdateOp(id, o, s) => UpdateAgrees(redis, exact, ttl, now, id, o, s);
    case AcquireOp(id, o, lease) => AcquireAgrees(redis, exact, ttl, now, id, o, lease);
    case ReleaseOp(id, o) => ReleaseAgrees(redis, exact, ttl, now, id, o);
    case InvalidateOp(id, o) => InvalidateAgrees(redis, exact, ttl, now, id, o);
  }

  function RedisAnswers(st: Redis, ttl: nat, ops: seq<Timed>): seq<Result<Answer, ()>>
    decreases |ops|
  {
    if ops == [] then []
    else
      var (st', answer) := Execute(st, ttl, ops[0].at, ops[0].op);
      [answer] + RedisAnswers(st', ttl, ops[1..])
  }

  function NormalisedOps(ops: seq<Timed>): seq<Timed> {
    if ops == [] then [] else [Timed(ops[0].at, NormalisedOp(ops[0].op))] + NormalisedOps(ops[1..])
  }

  lemma {:induction false} AnswersAgree(redis: Redis, exact: Store, ttl: nat, ops: seq<Timed>)
    requires Represents(redis, exact) && forall i | 0 <= i < |ops| :: Admissible(ops[i].op)
    ensures |RedisAnswers(redis, ttl, ops)| == |ExactAnswers(exact, ttl, NormalisedOps(ops))|
    ensures forall i | 0 <= i < |RedisAnswers(redis, ttl, ops)| ::
              RedisAnswers(redis, ttl, ops)[i] == Ok(ExactAnswers(exact, ttl, NormalisedOps(ops))[i])
    decreases |ops|
  {
    if ops != [] {
      var at, op, rest := ops[0].at, ops[0].op, ops[1..];
      var redis', exact' := Execute(redis, ttl, at, op).0, Exact(exact, ttl, at, NormalisedOp(op)).0;
      ExecuteAgrees(redis, exact, ttl, at, op);
      assert forall i | 0 <= i < |rest| :: rest[i] == ops[i + 1];
      AnswersAgree(redis', exact', ttl, rest);
      assert NormalisedOps(ops)[1..] == NormalisedOps(rest);
      assert RedisAnswers(redis, ttl, ops) == [Execute(redis, ttl, at, op).1] + RedisAnswers(redis', ttl, rest);
      assert ExactAnswers(exact, ttl, NormalisedOps(ops))
          == [Exact(exact, ttl, at, NormalisedOp(op)).1] + ExactAnswers(exact', ttl, NormalisedOps(rest));
    }
  }

  /**
   * Redis and the purging map are one store: for every admissible sequence of operations and clock, Redis
   * never errs and answers as the purging map does on the normalised sessions.
   */
  lemma RedisRefinesLazy(ttl: nat, ops: seq<Timed>)
    requires Chronological(0, ops) && forall i | 0 <= i < |ops| :: Admissible(ops[i].op)
    ensures var lazy := LazyAnswers(Store(map[], map[]), ttl, NormalisedOps(ops));
      && |RedisAnswers(Redis(map[], map[]), ttl, ops)| == |lazy|
      && forall i | 0 <= i < |lazy| :: RedisAnswers(Redis(map[], map[]), ttl, ops)[i] == Ok(lazy[i])
  {
    AnswersAgree(Redis(map[], map[]), Store(map[], map[]), ttl, ops);
    NormalisedChronological(0, ops);
    ChronologicalInOrder(Store(map[], map[]), ttl, 0, NormalisedOps(ops));
    LazyRefinesExact(Store(map[], map[]), ttl, NormalisedOps(ops));
  }

  lemma {:induction false} NormalisedChronological(now: nat, ops: seq<Timed>)
    requires Chronological(now, ops)
    ensures Chronological(now, NormalisedOps(ops))
    decreases |ops|
  {
    if ops != [] {
      NormalisedChronological(ops[0].at, ops[1..]);
      assert NormalisedOps(ops)[1..] == NormalisedOps(ops[1..]);
    }
  }

  /**
   * Without issuer or subject the two forms part: the map returns the session it was given, Redis an
   * unreadable one. They agree on a put and a get exactly for identified sessions.
   */
  lemma PutGetAgreeExactly(id: string, s: Session, ttl: nat, now: nat)
    requires ttl > 0
    ensures Execute(Execute(Redis(map[], map[]), ttl, now, PutOp(id, s)).0, ttl, now, GetOp(id)).1
         == Ok(Exact(Exact(Store(map[], map[]), ttl, now, PutOp(id, Normalised(s))).0, ttl, now, GetOp(id)).1)
       <==> Identified(s)
  {
    DecodeEncode(s);
  }
}
