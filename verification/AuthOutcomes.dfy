/** When the auth requests succeed, what the tokens they hand out are good for, and what they record. */
module AuthOutcomes {
  import opened Wrappers
  import opened Security
  import opened Models
  import opened AuthTokens

  /** In every run a login is granted exactly for the right password of an active account, and to that account. */
  lemma LoginGrantedIff(cfg: TokenConfig, s: AuthStore, reqs: seq<AuthRequest>, i: nat)
    requires i < |reqs| && reqs[i].op.Login?
    ensures var o, email := AuthAnswer(cfg, s, reqs, i), reqs[i].op.email;
      && (o.Granted? <==>
          email in s.emails && s.emails[email] in s.users && s.users[s.emails[email]].isActive
          && s.users[s.emails[email]].hashedPassword == Sha256(reqs[i].op.password))
      && (o.Granted? ==> o.user == s.emails[email])
      && (!o.Granted? ==> o == Refused(InvalidCredentials))
  {
    UsersStay(cfg, s, reqs[..i], 0);
    if reqs[i].op.email in s.emails {
      UsersStay(cfg, s, reqs[..i], s.emails[reqs[i].op.email]);
    }
  }

  /** A bearer token speaks for a user exactly when it is an access token, unexpired, of an active account. */
  lemma AuthenticatesIff(s: AuthStore, token: Token, now: Time, u: UserId)
    ensures Authenticate(s, token, now) == Some(u) <==>
      && token.Signed? && token.claims.kind == Access && now / 1_000_000 <= token.claims.exp
      && token.claims.sub == u && u in s.users && s.users[u].isActive
  {
  }

  /** The access token of a login or a refresh speaks for its user from then on until it expires, and not longer;
      nothing that happens in between, a logout included, takes it back. */
  lemma AccessTokenWorksUntilExpiry(cfg: TokenConfig, s: AuthStore, reqs: seq<AuthRequest>, i: nat, j: nat, now: Time)
    requires i < j <= |reqs| && AuthAnswer(cfg, s, reqs, i).Granted?
    ensures var o := AuthAnswer(cfg, s, reqs, i);
      Authenticate(AuthRun(cfg, s, reqs[..j]), o.access, now) ==
        if now / 1_000_000 <= (reqs[i].env.now + 60_000_000 * cfg.accessMinutes) / 1_000_000 then Some(o.user) else None
  {
    var u := AuthAnswer(cfg, s, reqs, i).user;
    GrantedToActive(cfg, AuthRun(cfg, s, reqs[..i]), reqs[i]);
    UsersStay(cfg, s, reqs[..i], u);
    UsersStay(cfg, s, reqs[..j], u);
    AccessClaims(cfg, u, reqs[i].env);
  }

  lemma AccessClaims(cfg: TokenConfig, u: UserId, env: TokenEnv)
    ensures AccessToken(cfg, u, env).claims.exp == (env.now + 60_000_000 * cfg.accessMinutes) / 1_000_000
  {
    assert 60 * SECOND * cfg.accessMinutes == 60_000_000 * cfg.accessMinutes;
  }

  lemma RefreshClaims(cfg: TokenConfig, u: UserId, env: TokenEnv)
    ensures RefreshToken(cfg, u, env).claims.exp == (env.now + 86_400_000_000 * cfg.refreshDays) / 1_000_000
  {
    assert 24 * HOUR * cfg.refreshDays == 86_400_000_000 * cfg.refreshDays;
  }

  lemma GrantedToActive(cfg: TokenConfig, s: AuthStore, req: AuthRequest)
    requires AuthApply(cfg, s, req).Granted?
    ensures var o := AuthApply(cfg, s, req);
      && o.user in s.users && s.users[o.user].isActive
      && o.access == AccessToken(cfg, o.user, req.env) && o.refresh == RefreshToken(cfg, o.user, req.env)
  {
  }

  /** The claims of the two tokens that a login or a refresh hands out. */
  lemma GrantedClaims(cfg: TokenConfig, s: AuthStore, req: AuthRequest)
    requires AuthApply(cfg, s, req).Granted?
    ensures var o, now := AuthApply(cfg, s, req), req.env.now;
      && o.access == Signed(Claims(o.user, Access, now / 1_000_000, (now + 60_000_000 * cfg.accessMinutes) / 1_000_000,
                                   req.env.accessJti))
      && o.refresh == Signed(Claims(o.user, Refresh, now / 1_000_000,
                                    (now + 86_400_000_000 * cfg.refreshDays) / 1_000_000, req.env.refreshJti))
  {
    GrantedToActive(cfg, s, req);
    AccessClaims(cfg, AuthApply(cfg, s, req).user, req.env);
    RefreshClaims(cfg, AuthApply(cfg, s, req).user, req.env);
  }

  /** The refresh token of a login or a refresh is accepted, while nothing else happens to its user, exactly until it
      expires. */
  lemma RefreshTokenWorksUntilExpiry(cfg: TokenConfig, s: AuthStore, reqs: seq<AuthRequest>, i: nat, j: nat)
    requires NoSessions(s) && i < j < |reqs| && AuthAnswer(cfg, s, reqs, i).Granted?
    requires reqs[j].op == Rotate(AuthAnswer(cfg, s, reqs, i).refresh)
    requires forall k | i < k < j :: !Concerns(AuthAnswer(cfg, s, reqs, k), AuthAnswer(cfg, s, reqs, i).user)
    ensures AuthAnswer(cfg, s, reqs, j).Granted? <==>
      reqs[j].env.now / 1_000_000 <= (reqs[i].env.now + 86_400_000_000 * cfg.refreshDays) / 1_000_000
  {
    var u, t := AuthAnswer(cfg, s, reqs, i).user, AuthAnswer(cfg, s, reqs, i).refresh;
    GrantedToActive(cfg, AuthRun(cfg, s, reqs[..i]), reqs[i]);
    UsersStay(cfg, s, reqs[..i], u);
    RefreshClaims(cfg, u, reqs[i].env);
    AcceptedIffLatest(cfg, s, reqs, j);
    forall k | i <= k < j
      ensures AuthAnswer(cfg, s, reqs[..j], k) == AuthAnswer(cfg, s, reqs, k)
    {
      AnswerInPrefix(cfg, s, reqs, j, k);
    }
    assert LatestAt(cfg, s, reqs[..j], u, t, i);
  }

  /** A logout is done exactly for the user that the bearer token speaks for. */
  lemma LogoutDoneIff(cfg: TokenConfig, s: AuthStore, reqs: seq<AuthRequest>, i: nat)
    requires i < |reqs| && reqs[i].op.Logout?
    ensures var o, t := AuthAnswer(cfg, s, reqs, i), reqs[i].op.bearer;
      && (o.LoggedOut? <==>
          t.Signed? && t.claims.kind == Access && reqs[i].env.now / 1_000_000 <= t.claims.exp
          && t.claims.sub in s.users && s.users[t.claims.sub].isActive)
      && (o.LoggedOut? ==> o.user == t.claims.sub)
      && (!o.LoggedOut? ==> o == Refused(Unauthorized))
  {
    if reqs[i].op.bearer.Signed? {
      UsersStay(cfg, s, reqs[..i], reqs[i].op.bearer.claims.sub);
    }
  }

  // What the tables record.

  /** The entries told from the answers: one for a granted login, one for a logout, none for a refresh or a refusal. */
  function LoggedIn(cfg: TokenConfig, s: AuthStore, reqs: seq<AuthRequest>): seq<AuthEntry> {
    if reqs == [] then []
    else
      var init, n := reqs[..|reqs| - 1], |reqs| - 1;
      var o := AuthAnswer(cfg, s, reqs, n);
      LoggedIn(cfg, s, init)
      + if o.Granted? && reqs[n].op.Login? then [UserLogin(o.user)]
        else if o.LoggedOut? then [UserLogout(o.user)]
        else []
  }

  /** The time of the user's last granted login, None if there was none. */
  function LastLogin(cfg: TokenConfig, s: AuthStore, reqs: seq<AuthRequest>, u: UserId): Option<Time> {
    if reqs == [] then None
    else
      var init, n := reqs[..|reqs| - 1], |reqs| - 1;
      var o := AuthAnswer(cfg, s, reqs, n);
      if o.Granted? && o.user == u && reqs[n].op.Login? then Some(reqs[n].env.now) else LastLogin(cfg, s, init, u)
  }

  /** In every run the log grows by exactly the logins and logouts, and last_login_at is the time of the last login. */
  lemma {:induction false} LoginsAreRecorded(cfg: TokenConfig, s: AuthStore, reqs: seq<AuthRequest>, u: UserId)
    requires u in s.users
    ensures var s' := AuthRun(cfg, s, reqs);
      && s'.log == s.log + LoggedIn(cfg, s, reqs)
      && u in s'.users
      && s'.users[u].lastLoginAt ==
         if LastLogin(cfg, s, reqs, u).Some? then LastLogin(cfg, s, reqs, u) else s.users[u].lastLoginAt
  {
    hide AuthStep, AuthApply;
    if reqs != [] {
      var init, n := reqs[..|reqs| - 1], |reqs| - 1;
      LoginsAreRecorded(cfg, s, init, u);
      StepRecords(cfg, AuthRun(cfg, s, init), reqs[n], u);
    }
  }

  lemma StepRecords(cfg: TokenConfig, s: AuthStore, req: AuthRequest, u: UserId)
    requires u in s.users
    ensures var o, s' := AuthApply(cfg, s, req), AuthStep(cfg, s, req);
      && s'.log == s.log + (if o.Granted? && req.op.Login? then [UserLogin(o.user)]
                            else if o.LoggedOut? then [UserLogout(o.user)]
                            else [])
      && u in s'.users
      && s'.users[u].lastLoginAt ==
         if o.Granted? && o.user == u && req.op.Login? then Some(req.env.now) else s.users[u].lastLoginAt
  {
  }
}
