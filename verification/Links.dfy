/** Share links over whole runs: quotas, expiry, and what a link's counter counts. */
module Links {
  import opened Wrappers
  import opened Security
  import opened Models
  import opened Queries
  import opened NoteRules
  import opened Invariants

  /** How many requests of the run were granted through this token. */
  function Grants(cfg: Config, users: set<UserId>, reqs: seq<Request>, token: RawToken): nat {
    if reqs == [] then 0
    else
      var init, last := reqs[..|reqs| - 1], reqs[|reqs| - 1];
      Grants(cfg, users, init, token)
      + if last.op == AccessShareLink(token) && Apply(cfg, Exec(cfg, users, init), last).Done? then 1 else 0
  }

  /** Updating one link changes the lookup of its own hash only. */
  lemma PutLinkFind(links: seq<LinkRow>, row: LinkRow, h: Digest<RawToken>)
    requires LinksUnique(links) && Find(links, LinkWith(row.tokenHash)).Unique?
    ensures Find(PutLink(links, row), LinkWith(h)) ==
      if h == row.tokenHash then Unique(row) else Find(links, LinkWith(h))
  {
    var ys := PutLink(links, row);
    FindSameIndices(links, ys, LinkWith(h));
    if exists i :: 0 <= i < |links| && LinkWith(h)(links[i]) {
      var i :| 0 <= i < |links| && LinkWith(h)(links[i]);
      assert Find(ys, LinkWith(h)) == Unique(ys[i]);
    }
  }

  /** One request: a link's row changes only by a granted access through its own token. */
  lemma LinkStep(cfg: Config, s: Store, req: Request, token: RawToken)
    requires LinksUnique(s.links)
    ensures var h := HashShareToken(token);
      var s' := Step(cfg, s, req);
      match GetLink(s, h)
      case Unique(l) =>
        GetLink(s', h) ==
          Unique(if req.op == AccessShareLink(token) && Apply(cfg, s, req).Done? then Hit(l) else l)
      case _ => GetLink(s', h).Unique? ==> GetLink(s', h).row.accessCount == 0
  {
    if Apply(cfg, s, req).Done? {
      match req.op
      case CreateShareLink(id, expiry, maxAccesses) =>
        CreateLinkStep(s, req.user, id, expiry, maxAccesses, req.env, HashShareToken(token));
      case AccessShareLink(t) => AccessLinkStep(s, t, req.env, token);
      case _ => OthersKeepLinks(cfg, s, req);
    }
  }

  lemma OthersKeepLinks(cfg: Config, s: Store, req: Request)
    requires !req.op.CreateShareLink? && !req.op.AccessShareLink?
    ensures Step(cfg, s, req).links == s.links
  {
  }

  lemma CreateLinkStep(s: Store, user: UserId, id: NoteId, expiry: Expiry, maxAccesses: Option<Quota>, env: Env,
                       h: Digest<RawToken>)
    requires LinksUnique(s.links) && DoCreateLink(s, user, id, expiry, maxAccesses, env).Done?
    ensures var s' := DoCreateLink(s, user, id, expiry, maxAccesses, env).store;
      match GetLink(s, h)
      case Unique(l) => GetLink(s', h) == Unique(l)
      case _ => GetLink(s', h).Unique? ==> GetLink(s', h).row.accessCount == 0
  {
    var s' := DoCreateLink(s, user, id, expiry, maxAccesses, env).store;
    FindAppend(s.links, s'.links[|s.links|], LinkWith(h));
  }

  lemma AccessLinkStep(s: Store, t: RawToken, env: Env, token: RawToken)
    requires LinksUnique(s.links) && DoAccessLink(s, t, env).Done?
    ensures var s' := DoAccessLink(s, t, env).store;
      match GetLink(s, HashShareToken(token))
      case Unique(l) => GetLink(s', HashShareToken(token)) == Unique(if t == token then Hit(l) else l)
      case _ => t != token && GetLink(s', HashShareToken(token)) == GetLink(s, HashShareToken(token))
  {
    PutLinkFind(s.links, Hit(GetLink(s, HashShareToken(t)).row), HashShareToken(token));
  }

  /** A link's access_count is the number of requests granted through its token; without a link there is none. */
  lemma {:induction false} CountIsGrants(cfg: Config, users: set<UserId>, reqs: seq<Request>, token: RawToken)
    ensures match GetLink(Exec(cfg, users, reqs), HashShareToken(token))
      case Unique(l) => l.accessCount == Grants(cfg, users, reqs, token)
      case _ => Grants(cfg, users, reqs, token) == 0
  {
    if reqs != [] {
      var init, last := reqs[..|reqs| - 1], reqs[|reqs| - 1];
      CountIsGrants(cfg, users, init, token);
      RunKeeps(cfg, users, init);
      LinkStep(cfg, Exec(cfg, users, init), last, token);
    }
  }

  /** The quota bounds the grants, and the link is inactive exactly when the quota is used up. */
  lemma QuotaIsRespected(cfg: Config, users: set<UserId>, reqs: seq<Request>, token: RawToken)
    requires GetLink(Exec(cfg, users, reqs), HashShareToken(token)).Unique?
    ensures var l := GetLink(Exec(cfg, users, reqs), HashShareToken(token)).row;
      match l.maxAccesses
      case None => l.isActive
      case Some(m) => Grants(cfg, users, reqs, token) <= m && (!l.isActive <==> Grants(cfg, users, reqs, token) == m)
  {
    RunKeeps(cfg, users, reqs);
    CountIsGrants(cfg, users, reqs, token);
    var s := Exec(cfg, users, reqs);
    var l := GetLink(s, HashShareToken(token)).row;
    assert l in s.links;
    assert LinkOk(l);
  }

  /** Exactly when an access is granted: the link exists, is not expired, has had fewer grants than its quota,
      and its note is live. */
  lemma AccessGrantedIff(cfg: Config, users: set<UserId>, reqs: seq<Request>, token: RawToken, env: Env)
    ensures var s := Exec(cfg, users, reqs);
      DoAccessLink(s, token, env).Done? <==>
        match GetLink(s, HashShareToken(token))
        case Unique(l) =>
          && env.now <= l.expiresAt
          && (l.maxAccesses.Some? ==> Grants(cfg, users, reqs, token) < l.maxAccesses.value)
          && l.noteId in s.notes && !s.notes[l.noteId].IsDeleted()
        case _ => false
  {
    var s := Exec(cfg, users, reqs);
    RunKeeps(cfg, users, reqs);
    CountIsGrants(cfg, users, reqs, token);
    if GetLink(s, HashShareToken(token)).Unique? {
      var l := GetLink(s, HashShareToken(token)).row;
      assert l in s.links;
      assert LinkOk(l);
    }
  }

  /** The second quota check never fires: a used-up link was already refused as inactive. */
  lemma LimitCheckNeverFires(cfg: Config, users: set<UserId>, reqs: seq<Request>, req: Request)
    ensures Apply(cfg, Exec(cfg, users, reqs), req) != Failed(TokenLimitReached)
  {
    hide DoAccessLink, Exec, DoCreate, DoGet, DoList, DoListShared, DoUpdate, DoDelete, DoShare, DoUnshare;
    hide DoPin, DoUnpin, DoGetVersion, DoRestore, DoCreateLink;
    var s := Exec(cfg, users, reqs);
    RunKeeps(cfg, users, reqs);
    if req.op.AccessShareLink? {
      AccessNeverAtLimit(s, req.op.token, req.env);
    } else {
      OnlyAccessMeetsLimit(cfg, s, req);
    }
  }

  lemma OnlyAccessMeetsLimit(cfg: Config, s: Store, req: Request)
    requires !req.op.AccessShareLink?
    ensures Apply(cfg, s, req) != Failed(TokenLimitReached)
  {
    hide Find, PutShare, WithoutShare, Shown, Plaintext, NextVersionNumber, EditRow, RestoreRow, Stamp;
  }

  lemma AccessNeverAtLimit(s: Store, token: RawToken, env: Env)
    requires LinksInv(s)
    ensures DoAccessLink(s, token, env) != Failed(TokenLimitReached)
  {
    var found := GetLink(s, HashShareToken(token));
    if found.Unique? {
      assert found.row in s.links;
      assert LinkOk(found.row);
    }
  }

  /** The terms of a link never change, its count never falls, and once inactive it is frozen. */
  lemma {:induction false} LinkOnlyCounts(cfg: Config, s: Store, reqs: seq<Request>, token: RawToken)
    requires Inv(cfg, s) && GetLink(s, HashShareToken(token)).Unique?
    ensures GetLink(Continue(cfg, s, reqs), HashShareToken(token)).Unique?
    ensures var l, l' := GetLink(s, HashShareToken(token)).row,
      GetLink(Continue(cfg, s, reqs), HashShareToken(token)).row;
      && l'.noteId == l.noteId && l'.createdBy == l.createdBy
      && l'.expiresAt == l.expiresAt && l'.maxAccesses == l.maxAccesses
      && l'.accessCount >= l.accessCount
      && (!l.isActive ==> l' == l)
  {
    if reqs != [] {
      var init := reqs[..|reqs| - 1];
      LinkOnlyCounts(cfg, s, init, token);
      ContinueKeeps(cfg, s, init);
      LinkStep(cfg, Continue(cfg, s, init), reqs[|reqs| - 1], token);
    }
  }

  lemma AnswerInParts(cfg: Config, users: set<UserId>, reqs: seq<Request>, i: nat)
    requires i <= |reqs|
    ensures Exec(cfg, users, reqs) == Continue(cfg, Exec(cfg, users, reqs[..i]), reqs[i..])
  {
    ContinueInParts(cfg, EmptyStore(users), reqs[..i], reqs[i..]);
    assert reqs == reqs[..i] + reqs[i..];
  }

  /** Every grant of the run happened no later than the expiry that the link still carries. */
  lemma GrantsAreInTime(cfg: Config, users: set<UserId>, reqs: seq<Request>, i: nat)
    requires i < |reqs|
    requires reqs[i].op.AccessShareLink? && Answer(cfg, users, reqs, i).Done?
    ensures var found := GetLink(Exec(cfg, users, reqs), HashShareToken(reqs[i].op.token));
      found.Unique? && reqs[i].env.now <= found.row.expiresAt
  {
    RunKeeps(cfg, users, reqs[..i]);
    AnswerInParts(cfg, users, reqs, i);
    LinkOnlyCounts(cfg, Exec(cfg, users, reqs[..i]), reqs[i..], reqs[i].op.token);
  }

  ghost predicate ClockNeverGoesBack(reqs: seq<Request>) {
    forall i, j | 0 <= i <= j < |reqs| :: reqs[i].env.now <= reqs[j].env.now
  }

  /** With a clock that never goes back, a token once refused as expired is never granted again. */
  lemma ExpiredStaysRefused(cfg: Config, users: set<UserId>, reqs: seq<Request>, i: nat, j: nat)
    requires i < j < |reqs| && ClockNeverGoesBack(reqs)
    requires reqs[i].op.AccessShareLink? && reqs[j].op == reqs[i].op
    requires Answer(cfg, users, reqs, i) == Failed(TokenExpired)
    ensures !Answer(cfg, users, reqs, j).Done?
  {
    var token := reqs[i].op.token;
    RunKeeps(cfg, users, reqs[..i]);
    AnswerInParts(cfg, users, reqs[..j], i);
    assert reqs[..j][..i] == reqs[..i];
    LinkOnlyCounts(cfg, Exec(cfg, users, reqs[..i]), reqs[..j][i..], token);
  }

  function Hours(e: Expiry): nat {
    match e
    case OneHour => 1
    case OneDay => 24
    case SevenDays => 168
  }

  /** A link is as it was asked for: through its token only its note is answered, within its lifetime from its
      creation, and no more often than its quota says. */
  lemma GrantsWithinTerms(cfg: Config, users: set<UserId>, reqs: seq<Request>, i: nat, j: nat)
    requires i < j < |reqs| && reqs[i].op.CreateShareLink? && reqs[j].op == AccessShareLink(reqs[i].env.token)
    requires Answer(cfg, users, reqs, i).Done? && Answer(cfg, users, reqs, j).Done?
    ensures reqs[j].env.now <= reqs[i].env.now + Hours(reqs[i].op.expiry) * HOUR
    ensures Answer(cfg, users, reqs, j).reply.NoteReply? && Answer(cfg, users, reqs, j).reply.id == reqs[i].op.id
    ensures reqs[i].op.maxAccesses.Some? ==>
      Grants(cfg, users, reqs[..j + 1], reqs[i].env.token) <= reqs[i].op.maxAccesses.value
  {
    hide Apply;
    var token := reqs[i].env.token;
    AccessIsApplied(cfg, Exec(cfg, users, reqs[..j]), reqs[j]);
    LinkAfter(cfg, users, reqs, i, j);
    LinkAfter(cfg, users, reqs, i, j + 1);
    QuotaIsRespected(cfg, users, reqs[..j + 1], token);
    GrantFollowsLink(Exec(cfg, users, reqs[..j]), token, reqs[j].env);
  }

  lemma AccessIsApplied(cfg: Config, s: Store, req: Request)
    requires req.op.AccessShareLink?
    ensures Apply(cfg, s, req) == DoAccessLink(s, req.op.token, req.env)
  {
  }

  lemma GrantFollowsLink(s: Store, token: RawToken, env: Env)
    requires DoAccessLink(s, token, env).Done?
    ensures GetLink(s, HashShareToken(token)).Unique?
    ensures var l := GetLink(s, HashShareToken(token)).row;
      env.now <= l.expiresAt && DoAccessLink(s, token, env).reply.NoteReply?
        && DoAccessLink(s, token, env).reply.id == l.noteId
  {
  }

  /** What request i created is still there, on the same terms, before request j. */
  lemma LinkAfter(cfg: Config, users: set<UserId>, reqs: seq<Request>, i: nat, j: nat)
    requires i < j <= |reqs| && reqs[i].op.CreateShareLink? && Answer(cfg, users, reqs, i).Done?
    ensures var found := GetLink(Exec(cfg, users, reqs[..j]), HashShareToken(reqs[i].env.token));
      && found.Unique? && found.row.noteId == reqs[i].op.id && found.row.maxAccesses == reqs[i].op.maxAccesses
      && found.row.expiresAt == reqs[i].env.now + Hours(reqs[i].op.expiry) * HOUR
  {
    var s := Exec(cfg, users, reqs[..i + 1]);
    assert reqs[..i + 1][..i] == reqs[..i];
    LinkIsCreated(Exec(cfg, users, reqs[..i]), reqs[i].user, reqs[i].op.id, reqs[i].op.expiry, reqs[i].op.maxAccesses,
      reqs[i].env);
    RunKeeps(cfg, users, reqs[..i + 1]);
    AnswerInParts(cfg, users, reqs[..j], i + 1);
    assert reqs[..j][..i + 1] == reqs[..i + 1];
    LinkOnlyCounts(cfg, s, reqs[..j][i + 1..], reqs[i].env.token);
  }

  lemma LinkIsCreated(s: Store, user: UserId, id: NoteId, expiry: Expiry, maxAccesses: Option<Quota>, env: Env)
    requires DoCreateLink(s, user, id, expiry, maxAccesses, env).Done?
    ensures var h := HashShareToken(env.token);
      GetLink(DoCreateLink(s, user, id, expiry, maxAccesses, env).store, h)
      == Unique(LinkRow(h, id, user, env.now + Hours(expiry) * HOUR, 0, maxAccesses, true))
  {
    var s' := DoCreateLink(s, user, id, expiry, maxAccesses, env).store;
    FindAppend(s.links, s'.links[|s.links|], LinkWith(HashShareToken(env.token)));
  }
}
