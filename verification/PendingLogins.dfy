/** Logins under way: a bounded, expiring, take-once map, and the gates from a callback to a session. */
module PendingLogins {
  import opened Prelude
  import opened Timing
  import opened SessionStore

  const LOGIN_TTL := 300_000
  const MAX_PENDING_LOGINS := 128
  const MAX_PENDING_LOGINS_PER_CLIENT := 8

  datatype AuthorizationTransaction = AuthorizationTransaction(
    pkceVerifier: string, nonce: string, browserBindingHash: string, createdAt: nat, clientIp: string)

  /** The statuses a login or a callback fails with. */
  datatype Status = BadRequest | Unauthorized | TooManyRequests | BadGateway | ServiceUnavailable

  type PendingMap = map<string, AuthorizationTransaction>

  /** `created_at.elapsed()`, which saturates at zero. */
  function Age(t: AuthorizationTransaction, now: nat): nat {
    if now < t.createdAt then 0 else now - t.createdAt
  }

  function Live(pending: PendingMap, now: nat): PendingMap {
    map key | key in pending && Age(pending[key], now) < LOGIN_TTL :: pending[key]
  }

  ghost function OfClient(pending: PendingMap, ip: string): set<string> {
    set key | key in pending && pending[key].clientIp == ip
  }

  /** The logins under way that began less than five minutes ago, all of them or those of one client. */
  ghost function Recent(pending: PendingMap, now: nat, ip: Option<string>): set<string> {
    set key | key in pending && now < pending[key].createdAt + 300_000
              && (ip.Some? ==> pending[key].clientIp == ip.value)
  }

  lemma RoomExactly(pending: PendingMap, now: nat, ip: string)
    ensures HasRoom(pending, now, ip) <==>
            |Recent(pending, now, Some(ip))| < 8 && |Recent(pending, now, None)| < 128
  {
    assert OfClient(Live(pending, now), ip) == Recent(pending, now, Some(ip));
    assert Live(pending, now).Keys == Recent(pending, now, None);
  }

  /** Nobody has too many logins under way, and there are not too many in all. */
  ghost predicate Bounded(pending: PendingMap) {
    && |pending| <= MAX_PENDING_LOGINS
    && forall ip :: |OfClient(pending, ip)| <= MAX_PENDING_LOGINS_PER_CLIENT
  }

  ghost predicate HasRoom(pending: PendingMap, now: nat, ip: string) {
    && |OfClient(Live(pending, now), ip)| < MAX_PENDING_LOGINS_PER_CLIENT
    && |Live(pending, now)| < MAX_PENDING_LOGINS
  }

  ghost function Admitted(pending: PendingMap, now: nat, key: string, t: AuthorizationTransaction): PendingMap {
    if HasRoom(pending, now, t.clientIp) then Live(pending, now)[key := t] else Live(pending, now)
  }

  ghost predicate Takes(pending: PendingMap, now: nat, key: string, presented: string) {
    && key in pending && Age(pending[key], now) < LOGIN_TTL
    && pending[key].browserBindingHash == presented
  }

  ghost function Taken(pending: PendingMap, now: nat, key: string, presented: string): PendingMap {
    if Takes(pending, now, key, presented) then Live(pending, now) - {key} else Live(pending, now)
  }

  // ---- bounds ---------------------------------------------------------------------------------

  lemma FewerKeys(small: PendingMap, large: PendingMap)
    requires small.Keys <= large.Keys && forall key | key in small :: small[key] == large[key]
    requires Bounded(large)
    ensures Bounded(small)
  {
    Cardinality(small.Keys, large.Keys);
    forall ip ensures |OfClient(small, ip)| <= MAX_PENDING_LOGINS_PER_CLIENT {
      Cardinality(OfClient(small, ip), OfClient(large, ip));
    }
  }

  lemma {:induction false} Cardinality(a: set<string>, b: set<string>)
    requires a <= b
    ensures |a| <= |b|
  {
    if x :| x in a {
      Cardinality(a - {x}, b - {x});
    }
  }

  lemma OneMore(live: PendingMap, key: string, t: AuthorizationTransaction, ip: string)
    ensures var others := OfClient(live, ip) - {key};
            OfClient(live[key := t], ip) == (if ip == t.clientIp then others + {key} else others)
    ensures |OfClient(live, ip) - {key}| <= |OfClient(live, ip)|
  {
    Cardinality(OfClient(live, ip) - {key}, OfClient(live, ip));
  }

  /** Both critical sections keep the bounds, whether or not the new key is fresh. */
  lemma AdmittedBounded(pending: PendingMap, now: nat, key: string, t: AuthorizationTransaction)
    requires Bounded(pending)
    ensures Bounded(Admitted(pending, now, key, t))
  {
    var live := Live(pending, now);
    FewerKeys(live, pending);
    if HasRoom(pending, now, t.clientIp) {
      var after := live[key := t];
      assert after.Keys == live.Keys + {key};
      forall ip ensures |OfClient(after, ip)| <= MAX_PENDING_LOGINS_PER_CLIENT {
        OneMore(live, key, t, ip);
      }
    }
  }

  lemma TakenBounded(pending: PendingMap, now: nat, key: string, presented: string)
    requires Bounded(pending)
    ensures Bounded(Taken(pending, now, key, presented))
  {
    FewerKeys(Taken(pending, now, key, presented), pending);
  }

  // ---- the callback's gates ------------------------------------------------------------------------

  datatype TokenResponse = TokenResponse(
    accessToken: string, refreshToken: Option<string>, expiresAt: Option<U64>, idToken: Option<string>)

  datatype UserInfo = Claims(email: Option<string>, emailVerified: Option<bool>) | Mismatch | Unreachable

  /** What the identity provider answers to each request of one callback, and how the write to the store goes. */
  datatype Provider = Provider(
    issuer: string,
    metadata: Result<(), Status>,
    exchange: (string, string) -> Option<TokenResponse>,
    verify: (string, string) -> Result<string, Status>,
    metadataAgain: Result<(), Status>,
    userInfo: (string, string) -> UserInfo,
    put: Delivery)

  /** The query parameters, and the browser-binding hash when the transaction's cookie is there. */
  datatype CallbackRequest = CallbackRequest(
    state: Option<string>, hasError: bool, code: Option<string>, presented: Option<string>)

  /** The response has the form of an authorization response of this browser. */
  predicate WellFormed(r: CallbackRequest) {
    r.state.Some? && r.hasError != r.code.Some? && r.presented.Some?
  }

  ghost predicate Consumes(pending: PendingMap, now: nat, r: CallbackRequest) {
    WellFormed(r) && Takes(pending, now, r.state.value, r.presented.value)
  }

  /** What the provider must say for the transaction to become the session. */
  ghost predicate Vouches(p: Provider, t: AuthorizationTransaction, code: string, session: Session) {
    && p.metadata.Ok? && p.metadataAgain.Ok?
    && var tokens := p.exchange(code, t.pkceVerifier);
       && tokens.Some? && tokens.value.idToken.Some?
       && var subject := p.verify(tokens.value.idToken.value, t.nonce);
          && subject.Ok?
          && var claims := p.userInfo(tokens.value.accessToken, subject.value);
             && claims.Claims?
             && session == Session(
                  tokens.value.accessToken, tokens.value.refreshToken, tokens.value.expiresAt,
                  Identity(p.issuer, subject.value, claims.email,
                           if claims.email.Some? then claims.emailVerified else None))
  }

  /** The session a request is owed: its transaction is there and not expired, and the provider agrees. */
  ghost predicate Owes(pending: PendingMap, now: nat, r: CallbackRequest, p: Provider, session: Session) {
    Consumes(pending, now, r) && r.code.Some? && Vouches(p, pending[r.state.value], r.code.value, session)
  }

  ghost function Owed(pending: PendingMap, now: nat, r: CallbackRequest, p: Provider): (s: Option<Session>)
    ensures forall x :: Owes(pending, now, r, p, x) <==> s == Some(x)
  {
    if x :| Owes(pending, now, r, p, x) then Some(x) else None
  }

  /** The first gate at the provider that refuses. */
  function ProviderRefusal(p: Provider, t: AuthorizationTransaction, code: string): Option<Status> {
    if p.metadata.Err? then Some(p.metadata.error)
    else
      match p.exchange(code, t.pkceVerifier)
      case None => Some(BadGateway)
      case Some(tokens) =>
        if tokens.idToken.None? then Some(Unauthorized)
        else
          match p.verify(tokens.idToken.value, t.nonce)
          case Err(status) => Some(status)
          case Ok(subject) =>
            if p.metadataAgain.Err? then Some(p.metadataAgain.error)
            else
              match p.userInfo(tokens.accessToken, subject)
              case Mismatch => Some(Unauthorized)
              case Unreachable => Some(BadGateway)
              case Claims(_, _) => None
  }

  /** The provider refuses exactly when it vouches for no session. */
  lemma RefusesExactly(p: Provider, t: AuthorizationTransaction, code: string)
    ensures ProviderRefusal(p, t, code).None? <==> exists x :: Vouches(p, t, code, x)
  {
    if ProviderRefusal(p, t, code).None? {
      var tokens := p.exchange(code, t.pkceVerifier).value;
      var subject := p.verify(tokens.idToken.value, t.nonce).value;
      var claims := p.userInfo(tokens.accessToken, subject);
      var identity := Identity(p.issuer, subject, claims.email,
                               if claims.email.Some? then claims.emailVerified else None);
      assert Vouches(p, t, code, Session(tokens.accessToken, tokens.refreshToken, tokens.expiresAt, identity));
    }
  }

  /** The provider's metadata is there and the code is exchanged for `tokens`. */
  ghost predicate Exchanged(p: Provider, t: AuthorizationTransaction, code: string, tokens: TokenResponse) {
    p.metadata.Ok? && p.exchange(code, t.pkceVerifier) == Some(tokens)
  }

  /** Besides, the ID token verifies for `subject`. */
  ghost predicate Verified(
      p: Provider, t: AuthorizationTransaction, code: string, tokens: TokenResponse, subject: string)
  {
    && Exchanged(p, t, code, tokens) && tokens.idToken.Some?
    && p.verify(tokens.idToken.value, t.nonce) == Ok(subject)
  }

  /** Besides, the metadata is there again, and user info answers `info`. */
  ghost predicate Informed(p: Provider, t: AuthorizationTransaction, code: string, info: UserInfo) {
    && p.metadataAgain.Ok?
    && exists tokens, subject ::
         Verified(p, t, code, tokens, subject) && p.userInfo(tokens.accessToken, subject) == info
  }

  /** One of the two metadata requests or the check of the ID token is reached and fails with `status`. */
  ghost predicate PassesOn(p: Provider, t: AuthorizationTransaction, code: string, status: Status) {
    || p.metadata == Err(status)
    || (exists tokens :: Exchanged(p, t, code, tokens) && tokens.idToken.Some?
                         && p.verify(tokens.idToken.value, t.nonce) == Err(status))
    || (p.metadataAgain == Err(status) && exists tokens, subject :: Verified(p, t, code, tokens, subject))
  }

  /** Which refusal has which status, by the provider's answers. */
  lemma StatusExact(p: Provider, t: AuthorizationTransaction, code: string)
    ensures ProviderRefusal(p, t, code) == Some(BadGateway) <==>
            || (p.metadata.Ok? && p.exchange(code, t.pkceVerifier).None?)
            || Informed(p, t, code, Unreachable)
            || PassesOn(p, t, code, BadGateway)
    ensures ProviderRefusal(p, t, code) == Some(Unauthorized) <==>
            || (exists tokens :: Exchanged(p, t, code, tokens) && tokens.idToken.None?)
            || Informed(p, t, code, Mismatch)
            || PassesOn(p, t, code, Unauthorized)
    ensures forall status | status != BadGateway && status != Unauthorized ::
              ProviderRefusal(p, t, code) == Some(status) <==> PassesOn(p, t, code, status)
  {
    if p.metadata.Ok? && p.exchange(code, t.pkceVerifier).Some? {
      var tokens := p.exchange(code, t.pkceVerifier).value;
      assert Exchanged(p, t, code, tokens);
      if tokens.idToken.Some? && p.verify(tokens.idToken.value, t.nonce).Ok? {
        assert Verified(p, t, code, tokens, p.verify(tokens.idToken.value, t.nonce).value);
      }
    }
  }

  /** The status of a callback that does not end in a session. */
  ghost function Refusal(pending: PendingMap, now: nat, r: CallbackRequest, p: Provider): Status {
    if !Consumes(pending, now, r) || r.code.None? then BadRequest
    else
      match ProviderRefusal(p, pending[r.state.value], r.code.value)
      case Some(status) => status
      case None => ServiceUnavailable
  }

  // ---- the shared state in place ---------------------------------------------------------------------

  class OidcState {
    var pending: PendingMap
    const sessionStore: TestSessionStore

    constructor (sessionStore: TestSessionStore)
      ensures pending == map[] && this.sessionStore == sessionStore && Bounded(pending)
    {
      pending := map[];
      this.sessionStore := sessionStore;
      new;
      assert forall ip :: OfClient(pending, ip) == {};
    }

    method Login(now: nat, stateKey: string, t: AuthorizationTransaction) returns (r: Result<(), Status>)
      requires Bounded(pending)
      modifies this
      ensures r.Ok? <==>
              && |Recent(old(pending), now, Some(t.clientIp))| < 8
              && |Recent(old(pending), now, None)| < 128
      ensures r.Err? ==> r.error == TooManyRequests
      ensures pending == Admitted(old(pending), now, stateKey, t) && Bounded(pending)
    {
      AdmittedBounded(pending, now, stateKey, t);
      RoomExactly(pending, now, t.clientIp);
      pending := map key | key in pending && Age(pending[key], now) < LOGIN_TTL :: pending[key];
      ghost var live := pending;
      var pendingForClient := |set key | key in pending && pending[key].clientIp == t.clientIp|;
      if pendingForClient >= MAX_PENDING_LOGINS_PER_CLIENT {
        return Err(TooManyRequests);
      }
      if |pending| >= MAX_PENDING_LOGINS {
        return Err(TooManyRequests);
      }
      pending := pending[stateKey := t];
      return Ok(());
    }

    /** A miss and a mismatch look alike, and neither consumes anything. */
    method TakeBoundTransaction(now: nat, returnedState: string, presented: string)
        returns (r: Result<AuthorizationTransaction, Status>)
      requires Bounded(pending)
      modifies this
      ensures r == if Takes(old(pending), now, returnedState, presented) then Ok(old(pending)[returnedState])
                   else Err(BadRequest)
      ensures r.Ok? <==>
              && returnedState in old(pending) && now < old(pending)[returnedState].createdAt + 300_000
              && old(pending)[returnedState].browserBindingHash == presented
      ensures pending == Taken(old(pending), now, returnedState, presented) && Bounded(pending)
    {
      TakenBounded(pending, now, returnedState, presented);
      pending := map key | key in pending && Age(pending[key], now) < LOGIN_TTL :: pending[key];
      if returnedState !in pending || pending[returnedState].browserBindingHash != presented {
        return Err(BadRequest);
      }
      r := Ok(pending[returnedState]);
      pending := pending - {returnedState};
    }

    /**
     * The whole callback. A session is stored exactly when the request consumes its transaction, the provider
     * vouches for it with that transaction's verifier and nonce, and the write reaches the store; the browser
     * gets it when the store also says so. A request that fails before the take leaves the pending map alone.
     */
    method Callback(now: nat, r: CallbackRequest, p: Provider, sessionId: string, storedAt: nat)
        returns (created: Result<Session, Status>)
      requires Bounded(pending)
      modifies this, sessionStore
      ensures var owed := Owed(old(pending), now, r, p);
              && (created.Ok? <==> owed.Some? && p.put.Delivered?)
              && (created.Ok? ==> owed == Some(created.value))
              && sessionStore.View() ==
                 if owed.Some? && !p.put.RequestLost?
                 then Lazy(old(sessionStore.View()), sessionStore.ttl, storedAt, PutOp(sessionId, owed.value)).0
                 else old(sessionStore.View())
      ensures created.Err? ==> created.error == Refusal(old(pending), now, r, p)
      ensures r.state.None? || r.presented.None? || (r.hasError <==> r.code.Some?) ==>
                created == Err(BadRequest) && pending == old(pending)
      ensures !Consumes(old(pending), now, r) || r.code.None? ==> created == Err(BadRequest)
      ensures Consumes(old(pending), now, r) && r.code.Some? ==>
                var t, code := old(pending)[r.state.value], r.code.value;
                && (created == Err(BadGateway) <==>
                    || (p.metadata.Ok? && p.exchange(code, t.pkceVerifier).None?)
                    || Informed(p, t, code, Unreachable)
                    || PassesOn(p, t, code, BadGateway))
                && (created == Err(Unauthorized) <==>
                    || (exists tokens :: Exchanged(p, t, code, tokens) && tokens.idToken.None?)
                    || Informed(p, t, code, Mismatch)
                    || PassesOn(p, t, code, Unauthorized))
                && (created == Err(ServiceUnavailable) <==>
                    || (!p.put.Delivered? && exists x :: Vouches(p, t, code, x))
                    || PassesOn(p, t, code, ServiceUnavailable))
      ensures pending == if WellFormed(r) then Taken(old(pending), now, r.state.value, r.presented.value)
                         else old(pending)
      ensures Bounded(pending)
    {
      if r.state.None? {
        return Err(BadRequest);
      }
      if r.hasError == r.code.Some? {
        return Err(BadRequest);
      }
      if r.presented.None? {
        return Err(BadRequest);
      }
      ghost var before := pending;
      var t :- TakeBoundTransaction(now, r.state.value, r.presented.value);
      if r.hasError {
        return Err(BadRequest);
      }
      RefusesExactly(p, t, r.code.value);
      StatusExact(p, t, r.code.value);
      var session :- Provide(p, t, r.code.value);
      assert Owes(before, now, r, p, session);
      if p.put.RequestLost? {
        return Err(ServiceUnavailable);
      }
      sessionStore.Put(storedAt, sessionId, session);
      if p.put.ReplyLost? {
        return Err(ServiceUnavailable);
      }
      return Ok(session);
    }
  }

  /** The provider's part: what the gates from the metadata to the user info make of its answers. */
  method Provide(p: Provider, t: AuthorizationTransaction, code: string) returns (r: Result<Session, Status>)
    ensures r.Ok? ==> Vouches(p, t, code, r.value)
    ensures r.Err? ==> ProviderRefusal(p, t, code) == Some(r.error) && forall x :: !Vouches(p, t, code, x)
    ensures r == Err(BadGateway) <==>
            || (p.metadata.Ok? && p.exchange(code, t.pkceVerifier).None?)
            || Informed(p, t, code, Unreachable)
            || PassesOn(p, t, code, BadGateway)
    ensures r == Err(Unauthorized) <==>
            || (exists tokens :: Exchanged(p, t, code, tokens) && tokens.idToken.None?)
            || Informed(p, t, code, Mismatch)
            || PassesOn(p, t, code, Unauthorized)
  {
    StatusExact(p, t, code);
    var _ :- p.metadata;
    var tokens := p.exchange(code, t.pkceVerifier);
    if tokens.None? {
      return Err(BadGateway);
    }
    if tokens.value.idToken.None? {
      return Err(Unauthorized);
    }
    var subject :- p.verify(tokens.value.idToken.value, t.nonce);
    var _ :- p.metadataAgain;
    match p.userInfo(tokens.value.accessToken, subject) {
      case Mismatch => return Err(Unauthorized);
      case Unreachable => return Err(BadGateway);
      case Claims(email, emailVerified) =>
        var identity := Identity(p.issuer, subject, email, if email.Some? then emailVerified else None);
        return Ok(Session(tokens.value.accessToken, tokens.value.refreshToken, tokens.value.expiresAt, identity));
    }
  }
}
