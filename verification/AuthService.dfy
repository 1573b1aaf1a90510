/** AuthService in its own form: methods that load user objects into a request's session, overwrite their token hash,
    save and log. Each is proved to compute the function of AuthTokens. */
module AuthenticationLayer {
  import opened Wrappers
  import opened Security
  import opened Models
  import opened AuthTokens

  /** The mapped class User, without its profile. */
  class User {
    const id: UserId
    var hashedPassword: Digest<string>
    var isActive: bool
    var refreshTokenHash: Option<Digest<Token>>
    var lastLoginAt: Option<Time>

    constructor (id: UserId, row: UserRow)
      ensures this.id == id && Row() == row
    {
      this.id := id;
      hashedPassword, isActive := row.hashedPassword, row.isActive;
      refreshTokenHash, lastLoginAt := row.refreshTokenHash, row.lastLoginAt;
    }

    function Row(): UserRow
      reads this
    {
      UserRow(hashedPassword, isActive, refreshTokenHash, lastLoginAt)
    }

    /** `session.refresh`: every column is read back. */
    method Refresh(row: UserRow)
      modifies this
      ensures Row() == row
    {
      hashedPassword, isActive := row.hashedPassword, row.isActive;
      refreshTokenHash, lastLoginAt := row.refreshTokenHash, row.lastLoginAt;
    }
  }

  class AuthDatabase {
    var store: AuthStore

    constructor (store: AuthStore)
      ensures this.store == store
    {
      this.store := store;
    }
  }

  /** UPDATE of the users whose objects differ from their rows. */
  function WriteUsers(rows: map<UserId, UserRow>, image: map<UserId, UserRow>): map<UserId, UserRow> {
    map u | u in rows :: if u in image then image[u] else rows[u]
  }

  /** A request's session over the users table and the log. */
  class AuthSession {
    const db: AuthDatabase
    var tx: AuthStore
    var users: map<UserId, User>
    var pending: seq<AuthEntry>

    constructor (db: AuthDatabase)
      ensures this.db == db && IsNew()
    {
      this.db := db;
      tx, users, pending := db.store, map[], [];
    }

    ghost predicate IsNew()
      reads this, db
    {
      tx == db.store && users == map[] && pending == []
    }

    ghost predicate Valid()
      reads this
    {
      forall u | u in users :: users[u].id == u && u in tx.users
    }

    function UserRows(): map<UserId, UserRow>
      reads this`users, users.Values
    {
      map u | u in users :: users[u].Row()
    }

    function Flushed(): AuthStore
      reads this, users.Values
    {
      tx.(users := WriteUsers(tx.users, UserRows()), log := tx.log + pending)
    }

    /** A flush, and so a commit, would write nothing. */
    ghost predicate Clean()
      reads this, users.Values
    {
      Valid() && pending == [] && forall u | u in users :: users[u].Row() == tx.users[u]
    }

    lemma CleanFlushesNothing()
      requires Clean()
      ensures Flushed() == tx
    {
      assert WriteUsers(tx.users, UserRows()) == tx.users;
    }

    method Flush()
      modifies this`tx, this`pending
      ensures tx == old(Flushed()) && pending == []
    {
      tx, pending := Flushed(), [];
    }

    method Commit()
      modifies this`tx, this`pending, db
      ensures db.store == old(Flushed())
    {
      Flush();
      db.store := tx;
    }

    method Rollback()
      modifies this
      ensures IsNew()
    {
      tx, users, pending := db.store, map[], [];
    }
  }

  class UserRepository {
    const session: AuthSession

    constructor (session: AuthSession)
      ensures this.session == session
    {
      this.session := session;
    }

    /** `get_by_id`, into a session that has loaded nobody. */
    method GetById(id: UserId) returns (user: User?)
      requires session.Clean() && session.users == map[]
      modifies session`users
      ensures session.Clean() && (user == null) == (id !in session.tx.users)
      ensures user != null ==>
        fresh(user) && user.id == id && user.Row() == session.tx.users[id] && session.users == map[id := user]
    {
      if id !in session.tx.users {
        return null;
      }
      var loaded := new User(id, session.tx.users[id]);
      session.users := map[id := loaded];
      user := loaded;
    }

    /** `get_by_email`, by the unique index. */
    method GetByEmail(email: string) returns (user: User?)
      requires session.Clean() && session.users == map[]
      modifies session`users
      ensures session.Clean()
      ensures var emails := session.tx.emails;
        (user == null) == (email !in emails || emails[email] !in session.tx.users)
      ensures user != null ==>
        && fresh(user) && user.id == session.tx.emails[email] && user.Row() == session.tx.users[user.id]
        && session.users == map[user.id := user]
    {
      if email !in session.tx.emails {
        return null;
      }
      user := GetById(session.tx.emails[email]);
    }

    /** `save`: add, flush, refresh. */
    method Save(user: User)
      requires session.Valid() && session.pending == [] && session.users == map[user.id := user]
      modifies session`tx, session`pending, user
      ensures session.tx == old(session.tx).(users := old(session.tx.users)[user.id := old(user.Row())])
      ensures user.Row() == old(user.Row()) && session.Clean()
    {
      OneUser(user);
      assert WriteUsers(session.tx.users, session.UserRows()) == session.tx.users[user.id := user.Row()];
      session.Flush();
      user.Refresh(session.tx.users[user.id]);
    }

    lemma OneUser(user: User)
      requires session.users == map[user.id := user]
      ensures session.UserRows() == map[user.id := user.Row()]
    {
    }

    /** `ActivityRepository.log` for an entry about a user. */
    method Log(entry: AuthEntry)
      requires session.Clean()
      modifies session`tx, session`pending
      ensures session.tx == old(session.tx).(log := old(session.tx.log) + [entry]) && session.Clean()
    {
      session.CleanFlushesNothing();
      session.pending := [entry];
      assert WriteUsers(session.tx.users, session.UserRows()) == session.tx.users;
      session.Flush();
    }
  }

  datatype AuthReply = Tokens(access: Token, refresh: Token) | Goodbye

  function ReplyTo(o: AuthOutcome): Result<AuthReply, AuthError> {
    match o
    case Granted(_, _, access, refresh) => Success(Tokens(access, refresh))
    case LoggedOut(_, _) => Success(Goodbye)
    case Refused(e) => Failure(e)
  }

  class AuthService {
    const cfg: TokenConfig
    const session: AuthSession
    const userRepo: UserRepository

    constructor (cfg: TokenConfig, session: AuthSession)
      ensures this.cfg == cfg && this.session == session && Wired() && fresh(userRepo)
    {
      this.cfg, this.session := cfg, session;
      userRepo := new UserRepository(session);
    }

    ghost predicate Wired() {
      userRepo.session == session
    }

    /** The answer is the one the rules give; after a success the session holds nothing but the rules' tables. */
    ghost predicate Follows(o: AuthOutcome, r: Result<AuthReply, AuthError>)
      reads session, session.users.Values
    {
      r == ReplyTo(o) && (!o.Refused? ==> session.tx == o.store && session.Clean())
    }

    method Login(email: string, password: string, env: TokenEnv) returns (r: Result<AuthReply, AuthError>)
      requires Wired() && session.IsNew()
      modifies session
      ensures Follows(DoLogin(cfg, old(session.tx), email, password, env), r)
    {
      var user := userRepo.GetByEmail(email);
      if user == null || user.hashedPassword != Sha256(password) {
        return Failure(InvalidCredentials);
      }
      if !user.isActive {
        return Failure(InvalidCredentials);
      }
      var accessToken := AccessToken(cfg, user.id, env);
      var refreshToken := RefreshToken(cfg, user.id, env);
      user.refreshTokenHash := Some(Sha256(refreshToken));
      user.lastLoginAt := Some(env.now);
      userRepo.Save(user);
      userRepo.Log(UserLogin(user.id));
      return Success(Tokens(accessToken, refreshToken));
    }

    method Refresh(token: Token, env: TokenEnv) returns (r: Result<AuthReply, AuthError>)
      requires Wired() && session.IsNew()
      modifies session
      ensures Follows(DoRotate(cfg, old(session.tx), token, env), r)
    {
      var payload := DecodeToken(token, TokenKind.Refresh, env.now);
      if payload.Failure? {
        return Failure(InvalidToken);
      }
      var user := userRepo.GetById(payload.value.sub);
      if user == null || !user.isActive {
        return Failure(InvalidToken);
      }
      if user.refreshTokenHash.None? || user.refreshTokenHash.value != Sha256(token) {
        return Failure(InvalidToken);
      }
      var accessToken := AccessToken(cfg, user.id, env);
      var refreshToken := RefreshToken(cfg, user.id, env);
      user.refreshTokenHash := Some(Sha256(refreshToken));
      userRepo.Save(user);
      return Success(Tokens(accessToken, refreshToken));
    }

    /** `get_current_user`, which the logout route and every route of a user's own notes go through. */
    method CurrentUser(bearer: Token, now: Time) returns (user: User?)
      requires Wired() && session.IsNew()
      modifies session`users
      ensures session.Clean()
      ensures match Authenticate(session.tx, bearer, now)
        case None => user == null
        case Some(u) =>
          user != null && fresh(user) && user.id == u && user.Row() == session.tx.users[u]
          && session.users == map[u := user]
    {
      var payload := DecodeToken(bearer, Access, now);
      if payload.Failure? {
        return null;
      }
      user := userRepo.GetById(payload.value.sub);
      if user != null && !user.isActive {
        user := null;
      }
    }

    method Logout(user: User)
      requires Wired() && session.Clean() && session.users == map[user.id := user]
      modifies session`tx, session`pending, user
      ensures user.id in old(session.tx.users)
      ensures session.tx == LoggedOff(old(session.tx), user.id) && session.Clean()
    {
      user.refreshTokenHash := None;
      userRepo.Save(user);
      userRepo.Log(UserLogout(user.id));
    }
  }

  /** The auth routes, each call in its own session: commit on success, rollback when it raises. */
  class AuthApp {
    const cfg: TokenConfig
    const db: AuthDatabase

    constructor (cfg: TokenConfig, db: AuthDatabase)
      ensures this.cfg == cfg && this.db == db
    {
      this.cfg, this.db := cfg, db;
    }

    method Handle(req: AuthRequest) returns (r: Result<AuthReply, AuthError>)
      modifies db
      ensures db.store == AuthStep(cfg, old(db.store), req)
      ensures r == ReplyTo(AuthApply(cfg, old(db.store), req))
      ensures r.Failure? ==> db.store == old(db.store)
    {
      var session := new AuthSession(db);
      var service := new AuthService(cfg, session);
      r := Dispatch(service, req);
      if r.Success? {
        session.CleanFlushesNothing();
        session.Commit();
      } else {
        session.Rollback();
      }
    }

    method Dispatch(service: AuthService, req: AuthRequest) returns (r: Result<AuthReply, AuthError>)
      requires service.cfg == cfg && service.Wired() && service.session.db == db && service.session.IsNew()
      modifies service.session
      ensures service.Follows(AuthApply(cfg, old(service.session.tx), req), r)
    {
      match req.op
      case Login(email, password) => r := service.Login(email, password, req.env);
      case Rotate(token) => r := service.Refresh(token, req.env);
      case Logout(bearer) =>
        var user := service.CurrentUser(bearer, req.env.now);
        if user == null {
          return Failure(Unauthorized);
        }
        service.Logout(user);
        return Success(Goodbye);
    }
  }
}
