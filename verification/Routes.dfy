/** The note routes behind `get_current_user`: a request carries a bearer token, and only a link access does without. */
module Routes {
  import opened Wrappers
  import opened Models
  import opened NoteRules
  import opened RequestHandler
  import opened AuthTokens
  import opened AuthOutcomes
  import opened AuthenticationLayer

  /** Whom a request speaks for: nobody in particular for the public link route, else the bearer's active user. */
  function Caller(accounts: AuthStore, bearer: Option<Token>, op: Op, now: Time): Option<UserId> {
    if op.AccessShareLink? then Some(0)
    else match bearer
      case None => None
      case Some(token) => Authenticate(accounts, token, now)
  }

  /** Every route but the public link route speaks for the account of its bearer's unexpired access token, while that is
      active, and for nobody else; the public one needs no token. */
  lemma CallerIsTheBearer(accounts: AuthStore, bearer: Option<Token>, op: Op, now: Time, u: UserId)
    ensures op.AccessShareLink? ==> Caller(accounts, bearer, op, now).Some?
    ensures !op.AccessShareLink? ==>
      (Caller(accounts, bearer, op, now) == Some(u) <==>
        && bearer.Some? && bearer.value.Signed? && bearer.value.claims.kind == Access
        && now / 1_000_000 <= bearer.value.claims.exp && bearer.value.claims.sub == u
        && u in accounts.users && accounts.users[u].isActive)
  {
    if bearer.Some? {
      AuthenticatesIff(accounts, bearer.value, now, u);
    }
  }

  /** No route refuses an authenticated user as unauthenticated. */
  lemma KnownUserIsNotRefused(cfg: Config, s: Store, req: Request)
    requires req.op.AccessShareLink? || req.user in s.users
    ensures Apply(cfg, s, req) != Failed(Unauthenticated)
  {
    hide EditRow, Plaintext, Shown, Stamp;
  }

  /** Both halves of the database: the note tables, and the accounts that own them. */
  class Api {
    const app: App
    const accounts: AuthApp

    constructor (app: App, accounts: AuthApp)
      ensures this.app == app && this.accounts == accounts
    {
      this.app, this.accounts := app, accounts;
    }

    /** One request to a note route. It is answered and stored as the rules say for the caller; it is refused as
        unauthenticated, and then changes nothing, exactly when no active user stands behind its token. */
    method Call(bearer: Option<Token>, op: Op, env: Env) returns (r: Result<Reply, Error>)
      requires app.db.store.users == accounts.db.store.users.Keys
      modifies app.db
      ensures match Caller(accounts.db.store, bearer, op, env.now)
        case None => r == Failure(Unauthenticated) && app.db.store == old(app.db.store)
        case Some(u) =>
          && r == AnswerTo(Apply(app.cfg, old(app.db.store), Request(u, op, env)))
          && app.db.store == Step(app.cfg, old(app.db.store), Request(u, op, env))
      ensures r == Failure(Unauthenticated) <==> Caller(accounts.db.store, bearer, op, env.now).None?
    {
      hide Apply, Step;
      var user := 0;
      if !op.AccessShareLink? {
        if bearer.None? {
          return Failure(Unauthenticated);
        }
        var session := new AuthSession(accounts.db);
        var service := new AuthService(accounts.cfg, session);
        var current := service.CurrentUser(bearer.value, env.now);
        if current == null {
          return Failure(Unauthenticated);
        }
        user := current.id;
      }
      KnownUserIsNotRefused(app.cfg, app.db.store, Request(user, op, env));
      r := app.Handle(Request(user, op, env));
    }
  }
}
