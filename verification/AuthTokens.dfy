/** Refresh-token rotation: login, refresh and logout of app/services/auth_service.py as functions on the users table,
    and what holds of every run of them. */
module AuthTokens {
  import opened Wrappers
  import opened Security
  import opened Models

  datatype TokenKind = Access | Refresh

  /** The registered claims of section 4.1 of RFC 7519 that the service sets; times in whole seconds. */
  datatype Claims = Claims(sub: UserId, kind: TokenKind, iat: int, exp: int, jti: nat)

  /** A bearer string: a token whose signature verifies, or anything else. */
  datatype Token = Signed(claims: Claims) | Unsigned(text: string)

  datatype TokenConfig = TokenConfig(accessMinutes: nat, refreshDays: nat)

  const SECOND: Time := 1_000_000

  function Seconds(t: Time): int {
    t / SECOND
  }

  function CreateToken(sub: UserId, kind: TokenKind, lifetime: Time, now: Time, jti: nat): Token {
    Signed(Claims(sub, kind, Seconds(now), Seconds(now + lifetime), jti))
  }

  function AccessToken(cfg: TokenConfig, sub: UserId, env: TokenEnv): Token {
    CreateToken(sub, Access, 60 * SECOND * cfg.accessMinutes, env.now, env.accessJti)
  }

  function RefreshToken(cfg: TokenConfig, sub: UserId, env: TokenEnv): Token {
    CreateToken(sub, Refresh, 24 * HOUR * cfg.refreshDays, env.now, env.refreshJti)
  }

  datatype AuthError = InvalidCredentials | InvalidToken | TokenHasExpired | Unauthorized

  /** Signature, then expiry, then kind. */
  function DecodeToken(token: Token, expected: TokenKind, now: Time): Result<Claims, AuthError> {
    match token
    case Unsigned(_) => Failure(InvalidToken)
    case Signed(claims) =>
      if claims.exp < Seconds(now) then Failure(TokenHasExpired)
      else if claims.kind != expected then Failure(InvalidToken)
      else Success(claims)
  }

  /** A row of `users`, without its profile. */
  datatype UserRow = UserRow(
    hashedPassword: Digest<string>,
    isActive: bool,
    refreshTokenHash: Option<Digest<Token>>,
    lastLoginAt: Option<Time>)

  datatype AuthEntry = UserLogin(user: UserId) | UserLogout(user: UserId)

  /** The users table, its unique index on the e-mail address, and the log. */
  datatype AuthStore = AuthStore(users: map<UserId, UserRow>, emails: map<string, UserId>, log: seq<AuthEntry>)

  /** The clock and the two random token identifiers. */
  datatype TokenEnv = TokenEnv(now: Time, accessJti: nat, refreshJti: nat)

  datatype AuthOp =
    | Login(email: string, password: string)
    | Rotate(token: Token)
    | Logout(bearer: Token)

  datatype AuthRequest = AuthRequest(op: AuthOp, env: TokenEnv)

  datatype AuthOutcome =
    | Granted(store: AuthStore, user: UserId, access: Token, refresh: Token)
    | LoggedOut(store: AuthStore, user: UserId)
    | Refused(error: AuthError)

  function DoLogin(cfg: TokenConfig, s: AuthStore, email: string, password: string, env: TokenEnv): AuthOutcome {
    if email !in s.emails || s.emails[email] !in s.users then Refused(InvalidCredentials)
    else
      var u := s.emails[email];
      if s.users[u].hashedPassword != Sha256(password) || !s.users[u].isActive then Refused(InvalidCredentials)
      else
        var refresh := RefreshToken(cfg, u, env);
        var row := s.users[u].(refreshTokenHash := Some(Sha256(refresh)), lastLoginAt := Some(env.now));
        Granted(s.(users := s.users[u := row], log := s.log + [UserLogin(u)]), u, AccessToken(cfg, u, env), refresh)
  }

  function DoRotate(cfg: TokenConfig, s: AuthStore, token: Token, env: TokenEnv): AuthOutcome {
    match DecodeToken(token, Refresh, env.now)
    case Failure(_) => Refused(InvalidToken)
    case Success(claims) =>
      var u := claims.sub;
      if u !in s.users || !s.users[u].isActive || s.users[u].refreshTokenHash != Some(Sha256(token)) then
        Refused(InvalidToken)
      else
        var refresh := RefreshToken(cfg, u, env);
        var row := s.users[u].(refreshTokenHash := Some(Sha256(refresh)));
        Granted(s.(users := s.users[u := row]), u, AccessToken(cfg, u, env), refresh)
  }

  /** `get_current_user`. */
  function Authenticate(s: AuthStore, bearer: Token, now: Time): Option<UserId> {
    match DecodeToken(bearer, Access, now)
    case Failure(_) => None
    case Success(claims) =>
      if claims.sub in s.users && s.users[claims.sub].isActive then Some(claims.sub) else None
  }

  function LoggedOff(s: AuthStore, u: UserId): AuthStore
    requires u in s.users
  {
    s.(users := s.users[u := s.users[u].(refreshTokenHash := None)], log := s.log + [UserLogout(u)])
  }

  function DoLogout(s: AuthStore, bearer: Token, env: TokenEnv): AuthOutcome {
    match Authenticate(s, bearer, env.now)
    case None => Refused(Unauthorized)
    case Some(u) =>
      assert u in s.users;
      LoggedOut(LoggedOff(s, u), u)
  }

  function AuthApply(cfg: TokenConfig, s: AuthStore, req: AuthRequest): AuthOutcome {
    match req.op
    case Login(email, password) => DoLogin(cfg, s, email, password, req.env)
    case Rotate(token) => DoRotate(cfg, s, token, req.env)
    case Logout(bearer) => DoLogout(s, bearer, req.env)
  }

  function AuthStep(cfg: TokenConfig, s: AuthStore, req: AuthRequest): AuthStore {
    match AuthApply(cfg, s, req)
    case Granted(s', _, _, _) => s'
    case LoggedOut(s', _) => s'
    case Refused(_) => s
  }

  function AuthRun(cfg: TokenConfig, s: AuthStore, reqs: seq<AuthRequest>): AuthStore {
    if reqs == [] then s
    else AuthStep(cfg, AuthRun(cfg, s, reqs[..|reqs| - 1]), reqs[|reqs| - 1])
  }

  /** What request i of a run is answered. */
  function AuthAnswer(cfg: TokenConfig, s: AuthStore, reqs: seq<AuthRequest>, i: nat): AuthOutcome
    requires i < |reqs|
  {
    AuthApply(cfg, AuthRun(cfg, s, reqs[..i]), reqs[i])
  }

  // What a run says about a user's refresh token, without looking at the table.

  /** The answer issued a refresh token to u, or ended u's session. */
  predicate Concerns(o: AuthOutcome, u: UserId) {
    !o.Refused? && o.user == u
  }

  predicate Issued(o: AuthOutcome, u: UserId, t: Token) {
    o.Granted? && o.user == u && o.refresh == t
  }

  /** Answer i of the run issued t to u, and no later one was about u. */
  ghost predicate LatestAt(cfg: TokenConfig, s: AuthStore, reqs: seq<AuthRequest>, u: UserId, t: Token, i: nat)
    requires i < |reqs|
  {
    && Issued(AuthAnswer(cfg, s, reqs, i), u, t)
    && forall j | i < j < |reqs| :: !Concerns(AuthAnswer(cfg, s, reqs, j), u)
  }

  /** t is the latest refresh token issued to u by login or refresh, with no later logout. */
  ghost predicate Latest(cfg: TokenConfig, s: AuthStore, reqs: seq<AuthRequest>, u: UserId, t: Token) {
    exists i: nat | i < |reqs| :: LatestAt(cfg, s, reqs, u, t, i)
  }

  /** Nobody has a session yet. */
  ghost predicate NoSessions(s: AuthStore) {
    forall u | u in s.users :: s.users[u].refreshTokenHash == None
  }

  lemma AnswerInPrefix(cfg: TokenConfig, s: AuthStore, reqs: seq<AuthRequest>, n: nat, i: nat)
    requires i < n <= |reqs|
    ensures AuthAnswer(cfg, s, reqs[..n], i) == AuthAnswer(cfg, s, reqs, i)
  {
    assert reqs[..n][..i] == reqs[..i];
  }

  /** One request: the users stay, and a stored hash changes only by an answer about its user. */
  lemma StepEffect(cfg: TokenConfig, s: AuthStore, req: AuthRequest, u: UserId)
    requires u in s.users
    ensures var o, s' := AuthApply(cfg, s, req), AuthStep(cfg, s, req);
      && s'.users.Keys == s.users.Keys && s'.emails == s.emails
      && s'.users[u].isActive == s.users[u].isActive
      && s'.users[u].hashedPassword == s.users[u].hashedPassword
      && s'.users[u].refreshTokenHash ==
         if !Concerns(o, u) then s.users[u].refreshTokenHash
         else if o.Granted? then Some(Sha256(o.refresh)) else None
  {
  }

  lemma {:induction false} UsersStay(cfg: TokenConfig, s: AuthStore, reqs: seq<AuthRequest>, u: UserId)
    ensures u in AuthRun(cfg, s, reqs).users <==> u in s.users
    ensures u in s.users ==> AuthRun(cfg, s, reqs).users[u].isActive == s.users[u].isActive
    ensures u in s.users ==> AuthRun(cfg, s, reqs).users[u].hashedPassword == s.users[u].hashedPassword
    ensures AuthRun(cfg, s, reqs).emails == s.emails
  {
    if reqs != [] {
      UsersStay(cfg, s, reqs[..|reqs| - 1], u);
    }
  }

  /** The table keeps exactly the hash of each user's latest token. */
  lemma {:induction false} HashIsOfLatest(cfg: TokenConfig, s: AuthStore, reqs: seq<AuthRequest>, u: UserId, t: Token)
    requires NoSessions(s) && u in s.users
    ensures u in AuthRun(cfg, s, reqs).users
    ensures AuthRun(cfg, s, reqs).users[u].refreshTokenHash == Some(Sha256(t)) <==> Latest(cfg, s, reqs, u, t)
  {
    UsersStay(cfg, s, reqs, u);
    if reqs != [] {
      var n := |reqs| - 1;
      var init := reqs[..n];
      HashIsOfLatest(cfg, s, init, u, t);
      StepEffect(cfg, AuthRun(cfg, s, init), reqs[n], u);
      var o := AuthAnswer(cfg, s, reqs, n);
      forall i | 0 <= i < n
        ensures AuthAnswer(cfg, s, init, i) == AuthAnswer(cfg, s, reqs, i)
      {
        AnswerInPrefix(cfg, s, reqs, n, i);
      }
      if Concerns(o, u) {
        if o.Granted? && o.refresh == t {
          assert LatestAt(cfg, s, reqs, u, t, n);
        }
      } else {
        LatestGrows(cfg, s, reqs, u, t);
      }
    }
  }

  /** An answer about somebody else changes nothing about u. */
  lemma LatestGrows(cfg: TokenConfig, s: AuthStore, reqs: seq<AuthRequest>, u: UserId, t: Token)
    requires reqs != [] && !Concerns(AuthAnswer(cfg, s, reqs, |reqs| - 1), u)
    ensures Latest(cfg, s, reqs, u, t) <==> Latest(cfg, s, reqs[..|reqs| - 1], u, t)
  {
    var n := |reqs| - 1;
    forall i | 0 <= i < n
      ensures AuthAnswer(cfg, s, reqs[..n], i) == AuthAnswer(cfg, s, reqs, i)
    {
      AnswerInPrefix(cfg, s, reqs, n, i);
    }
    forall i: nat | i < n
      ensures LatestAt(cfg, s, reqs, u, t, i) <==> LatestAt(cfg, s, reqs[..n], u, t, i)
    {
    }
  }

  predicate Usable(s: AuthStore, token: Token, now: Time) {
    && token.Signed? && token.claims.kind == Refresh && Seconds(now) <= token.claims.exp
    && token.claims.sub in s.users && s.users[token.claims.sub].isActive
  }

  /** A refresh is accepted exactly when its token is well-formed, unexpired, of an active user, and the latest one. */
  lemma AcceptedIffLatest(cfg: TokenConfig, s: AuthStore, reqs: seq<AuthRequest>, i: nat)
    requires NoSessions(s) && i < |reqs| && reqs[i].op.Rotate?
    ensures var t := reqs[i].op.token;
      AuthAnswer(cfg, s, reqs, i).Granted? <==>
      Usable(s, t, reqs[i].env.now) && Latest(cfg, s, reqs[..i], t.claims.sub, t)
  {
    var t := reqs[i].op.token;
    if t.Signed? {
      UsersStay(cfg, s, reqs[..i], t.claims.sub);
      if t.claims.sub in s.users {
        HashIsOfLatest(cfg, s, reqs[..i], t.claims.sub, t);
      }
    }
  }

  /** At any moment of any run, a user has at most one refresh token that would be accepted, now or at any later
      time. */
  lemma AtMostOneLive(cfg: TokenConfig, s: AuthStore, reqs: seq<AuthRequest>, t1: Token, t2: Token, env1: TokenEnv,
                      env2: TokenEnv)
    requires NoSessions(s)
    requires var now := AuthRun(cfg, s, reqs);
      && AuthApply(cfg, now, AuthRequest(Rotate(t1), env1)).Granted?
      && AuthApply(cfg, now, AuthRequest(Rotate(t2), env2)).Granted?
    requires t1.claims.sub == t2.claims.sub
    ensures t1 == t2 && Latest(cfg, s, reqs, t1.claims.sub, t1)
  {
    UsersStay(cfg, s, reqs, t1.claims.sub);
    HashIsOfLatest(cfg, s, reqs, t1.claims.sub, t1);
  }

  /** The random identifiers of the refresh tokens never repeat. */
  ghost predicate FreshIds(reqs: seq<AuthRequest>) {
    forall i, j | 0 <= i < j < |reqs| :: reqs[i].env.refreshJti != reqs[j].env.refreshJti
  }

  lemma IssuedCarriesId(cfg: TokenConfig, s: AuthStore, reqs: seq<AuthRequest>, i: nat, u: UserId, t: Token)
    requires i < |reqs| && Issued(AuthAnswer(cfg, s, reqs, i), u, t)
    ensures t.Signed? && t.claims.jti == reqs[i].env.refreshJti && t.claims.sub == u && t.claims.kind == Refresh
  {
  }

  /** Whatever the identifiers: between two acceptances of a refresh token it was issued again, by the first of the two
      rotations or after it. */
  lemma ReuseNeedsReissue(cfg: TokenConfig, s: AuthStore, reqs: seq<AuthRequest>, i: nat, j: nat)
    requires NoSessions(s) && i < j < |reqs|
    requires reqs[i].op.Rotate? && reqs[j].op == reqs[i].op
    requires AuthAnswer(cfg, s, reqs, i).Granted? && AuthAnswer(cfg, s, reqs, j).Granted?
    ensures exists k :: i <= k < j && Issued(AuthAnswer(cfg, s, reqs, k), reqs[i].op.token.claims.sub, reqs[i].op.token)
  {
    var t := reqs[i].op.token;
    AcceptedIffLatest(cfg, s, reqs, j);
    var b :| 0 <= b < j && LatestAt(cfg, s, reqs[..j], t.claims.sub, t, b);
    AnswerInPrefix(cfg, s, reqs, j, b);
    AnswerInPrefix(cfg, s, reqs, j, i);
    assert Concerns(AuthAnswer(cfg, s, reqs, i), t.claims.sub);
  }

  /** Each refresh token is accepted at most once in any run. */
  lemma AcceptedAtMostOnce(cfg: TokenConfig, s: AuthStore, reqs: seq<AuthRequest>, i: nat, j: nat)
    requires NoSessions(s) && FreshIds(reqs) && i < j < |reqs|
    requires reqs[i].op.Rotate? && reqs[j].op == reqs[i].op
    requires AuthAnswer(cfg, s, reqs, i).Granted?
    ensures AuthAnswer(cfg, s, reqs, j).Refused?
  {
    var t := reqs[i].op.token;
    if AuthAnswer(cfg, s, reqs, j).Granted? {
      ReuseNeedsReissue(cfg, s, reqs, i, j);
      var k :| i <= k < j && Issued(AuthAnswer(cfg, s, reqs, k), t.claims.sub, t);
      AcceptedIffLatest(cfg, s, reqs, i);
      var a :| 0 <= a < i && LatestAt(cfg, s, reqs[..i], t.claims.sub, t, a);
      AnswerInPrefix(cfg, s, reqs, i, a);
      IssuedCarriesId(cfg, s, reqs, a, t.claims.sub, t);
      IssuedCarriesId(cfg, s, reqs, k, t.claims.sub, t);
      assert false;
    }
  }

  /** Without that freshness the bound fails exactly when the rotation hands the same token out again. */
  lemma SecondUseIff(cfg: TokenConfig, s: AuthStore, t: Token, env: TokenEnv, env': TokenEnv)
    requires AuthApply(cfg, s, AuthRequest(Rotate(t), env)).Granted?
    ensures var first := AuthApply(cfg, s, AuthRequest(Rotate(t), env));
      AuthApply(cfg, first.store, AuthRequest(Rotate(t), env')).Granted? <==>
      Seconds(env'.now) <= t.claims.exp && t.claims.jti == env.refreshJti && t.claims.iat == Seconds(env.now)
        && t.claims.exp == Seconds(env.now + 24 * HOUR * cfg.refreshDays)
  {
  }

  /** After a logout, a refresh for that user is accepted again only if a login came in between. */
  lemma {:induction false} LogoutEndsTheSession(cfg: TokenConfig, s: AuthStore, reqs: seq<AuthRequest>, i: nat, k: nat,
                                                u: UserId)
    requires NoSessions(s) && i < k < |reqs|
    requires AuthAnswer(cfg, s, reqs, i).LoggedOut? && AuthAnswer(cfg, s, reqs, i).user == u
    requires reqs[k].op.Rotate? && Concerns(AuthAnswer(cfg, s, reqs, k), u)
    ensures exists j :: i < j < k && reqs[j].op.Login? && Concerns(AuthAnswer(cfg, s, reqs, j), u)
    decreases k
  {
    AcceptedIffLatest(cfg, s, reqs, k);
    var t := reqs[k].op.token;
    var j :| 0 <= j < k && LatestAt(cfg, s, reqs[..k], u, t, j);
    AnswerInPrefix(cfg, s, reqs, k, j);
    AnswerInPrefix(cfg, s, reqs, k, i);
    if reqs[j].op.Rotate? {
      LogoutEndsTheSession(cfg, s, reqs, i, j, u);
    }
  }
}
