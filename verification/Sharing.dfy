/** Shares: the effective permission as a fold over the run, and the shared-with-me list. */
module Sharing {
  import opened Wrappers
  import opened Models
  import opened Queries
  import opened Listing
  import opened NoteRules
  import opened Invariants

  /** What the share table grants user u on note n. */
  function PermissionOf(s: Store, n: NoteId, u: UserId): Option<Permission> {
    match GetShare(s, n, u)
    case Unique(r) => Some(r.permission)
    case _ => None
  }

  /** The permission of the last successful share with no later successful unshare. */
  function Granted(cfg: Config, users: set<UserId>, reqs: seq<Request>, n: NoteId, u: UserId): Option<Permission> {
    if reqs == [] then None
    else
      var init, last := reqs[..|reqs| - 1], reqs[|reqs| - 1];
      if !Apply(cfg, Exec(cfg, users, init), last).Done? then Granted(cfg, users, init, n, u)
      else
        match last.op
        case ShareNote(id, target, permission) =>
          if id == n && target == u then Some(permission) else Granted(cfg, users, init, n, u)
        case UnshareNote(id, target) =>
          if id == n && target == u then None else Granted(cfg, users, init, n, u)
        case _ => Granted(cfg, users, init, n, u)
  }

  /** Changing one share's permission changes what that pair is granted and nothing else. */
  lemma PutSharePermission(s: Store, row: ShareRow, n: NoteId, u: UserId)
    requires SharesUnique(s.shares) && GetShare(s, row.noteId, row.withId).Unique?
    ensures PermissionOf(s.(shares := PutShare(s.shares, row)), n, u) ==
      if row.noteId == n && row.withId == u then Some(row.permission) else PermissionOf(s, n, u)
  {
    hide Find;
    var ys := PutShare(s.shares, row);
    var p := ShareOf(n, u);
    FindSameIndices(s.shares, ys, p);
    if exists i :: 0 <= i < |s.shares| && p(s.shares[i]) {
      var i :| 0 <= i < |s.shares| && p(s.shares[i]);
      assert Find(ys, p) == Unique(ys[i]);
    } else {
      assert Find(ys, p) == Absent;
      assert GetShare(s, row.noteId, row.withId).row in s.shares;
    }
  }

  lemma {:induction false} WithoutShareFind(shares: seq<ShareRow>, id: NoteId, target: UserId, n: NoteId, u: UserId)
    requires SharesUnique(shares)
    ensures Find(WithoutShare(shares, id, target), ShareOf(n, u)) ==
      if id == n && target == u then Absent else Find(shares, ShareOf(n, u))
  {
    if shares != [] {
      var init, last := shares[..|shares| - 1], shares[|shares| - 1];
      WithoutShareFind(init, id, target, n, u);
      assert shares == init + [last];
      FindAppend(init, last, ShareOf(n, u));
      FindAppend(WithoutShare(init, id, target), last, ShareOf(n, u));
    }
  }

  lemma ShareGrants(s: Store, user: UserId, id: NoteId, target: UserId, permission: Permission, env: Env,
                    n: NoteId, u: UserId)
    requires SharesUnique(s.shares) && DoShare(s, user, id, target, permission, env).Done?
    ensures PermissionOf(DoShare(s, user, id, target, permission, env).store, n, u) ==
      if id == n && target == u then Some(permission) else PermissionOf(s, n, u)
  {
    match GetShare(s, id, target)
    case Unique(share) => PutSharePermission(s, share.(permission := permission), n, u);
    case _ => FindAppend(s.shares, ShareRow(id, target, user, permission), ShareOf(n, u));
  }

  lemma StepGrants(cfg: Config, s: Store, req: Request, n: NoteId, u: UserId)
    requires SharesUnique(s.shares) && Apply(cfg, s, req).Done?
    ensures PermissionOf(Step(cfg, s, req), n, u) ==
      match req.op
      case ShareNote(id, target, permission) =>
        if id == n && target == u then Some(permission) else PermissionOf(s, n, u)
      case UnshareNote(id, target) => if id == n && target == u then None else PermissionOf(s, n, u)
      case _ => PermissionOf(s, n, u)
  {
    hide Find, PutShare, WithoutShare, PermissionOf;
    match req.op
    case ShareNote(id, target, permission) => ShareGrants(s, req.user, id, target, permission, req.env, n, u);
    case UnshareNote(id, target) => UnshareRevokes(s, req.user, id, target, req.env, n, u);
    case _ =>
      OthersKeepShares(cfg, s, req);
      SameSharesSamePermission(s, Step(cfg, s, req), n, u);
  }

  lemma SameSharesSamePermission(s: Store, s': Store, n: NoteId, u: UserId)
    requires s'.shares == s.shares
    ensures PermissionOf(s', n, u) == PermissionOf(s, n, u)
  {
  }

  lemma UnshareRevokes(s: Store, user: UserId, id: NoteId, target: UserId, env: Env, n: NoteId, u: UserId)
    requires SharesUnique(s.shares) && DoUnshare(s, user, id, target, env).Done?
    ensures PermissionOf(DoUnshare(s, user, id, target, env).store, n, u) ==
      if id == n && target == u then None else PermissionOf(s, n, u)
  {
    hide Find, WithoutShare;
    WithoutShareFind(s.shares, id, target, n, u);
  }

  lemma OthersKeepShares(cfg: Config, s: Store, req: Request)
    requires !req.op.ShareNote? && !req.op.UnshareNote?
    ensures Step(cfg, s, req).shares == s.shares
  {
  }

  /** After any run, a user's permission is that of the last successful share with no later unshare. */
  lemma {:induction false} PermissionIsFold(cfg: Config, users: set<UserId>, reqs: seq<Request>, n: NoteId, u: UserId)
    ensures PermissionOf(Exec(cfg, users, reqs), n, u) == Granted(cfg, users, reqs, n, u)
  {
    if reqs != [] {
      var init := reqs[..|reqs| - 1];
      PermissionIsFold(cfg, users, init, n, u);
      RunKeeps(cfg, users, init);
      if Apply(cfg, Exec(cfg, users, init), reqs[|reqs| - 1]).Done? {
        StepGrants(cfg, Exec(cfg, users, init), reqs[|reqs| - 1], n, u);
      }
    }
  }

  /** At most one share per note and user, and none to the owner, in every reachable store. */
  lemma SharesAreUniqueAndForeign(cfg: Config, users: set<UserId>, reqs: seq<Request>)
    ensures var s := Exec(cfg, users, reqs);
      && (forall i, j | 0 <= i < j < |s.shares| ::
            (s.shares[i].noteId, s.shares[i].withId) != (s.shares[j].noteId, s.shares[j].withId))
      && (forall r | r in s.shares :: r.noteId in s.notes && s.notes[r.noteId].ownerId != r.withId)
  {
    RunKeeps(cfg, users, reqs);
    var s := Exec(cfg, users, reqs);
    forall i, j | 0 <= i < j < |s.shares|
      ensures (s.shares[i].noteId, s.shares[i].withId) != (s.shares[j].noteId, s.shares[j].withId)
    {
      assert !ShareOf(s.shares[i].noteId, s.shares[i].withId)(s.shares[j]);
    }
    forall r | r in s.shares
      ensures r.noteId in s.notes && s.notes[r.noteId].ownerId != r.withId
    {
      assert ShareOk(r, s);
    }
  }

  /** The read guard agrees with the fold: a user gets a live note iff owner or granted anything. */
  lemma ReadGuardAgrees(cfg: Config, users: set<UserId>, reqs: seq<Request>, n: NoteId, u: UserId)
    ensures var s := Exec(cfg, users, reqs);
      DoGet(s, u, n).Done? <==>
        n in s.notes && !s.notes[n].IsDeleted() && (s.notes[n].ownerId == u || Granted(cfg, users, reqs, n, u).Some?)
  {
    RunKeeps(cfg, users, reqs);
    PermissionIsFold(cfg, users, reqs, n, u);
    PermissionsUnambiguous(Exec(cfg, users, reqs), n, u);
  }

  /** The same guard before a version: versions stay readable after deletion, and exist exactly for 1..k. */
  lemma VersionGuardAgrees(cfg: Config, users: set<UserId>, reqs: seq<Request>, n: NoteId, u: UserId, k: int)
    ensures var s := Exec(cfg, users, reqs);
      DoGetVersion(s, u, n, k).Done? <==>
        && n in s.notes && (s.notes[n].ownerId == u || Granted(cfg, users, reqs, n, u).Some?)
        && 1 <= k <= |VersionsOf(s.versions, n)|
  {
    RunKeeps(cfg, users, reqs);
    PermissionIsFold(cfg, users, reqs, n, u);
    PermissionsUnambiguous(Exec(cfg, users, reqs), n, u);
    FindNumbered(VersionsOf(Exec(cfg, users, reqs).versions, n), k);
  }

  /** Past its guards an update can only fail on undecryptable content. */
  predicate PassesGuards(o: Outcome) {
    o.Done? || o == Failed(DecryptionFailed)
  }

  /** The write guard agrees with the fold; and with a usable key version an update past the guard never fails. */
  lemma WriteGuardAgrees(cfg: Config, users: set<UserId>, reqs: seq<Request>, n: NoteId, u: UserId, data: UpdateData,
                         env: Env)
    ensures var s := Exec(cfg, users, reqs);
      PassesGuards(DoUpdate(cfg, s, u, n, data, env)) <==>
        n in s.notes && !s.notes[n].IsDeleted()
        && (s.notes[n].ownerId == u || Granted(cfg, users, reqs, n, u) == Some(Write))
    ensures cfg.keyVersion != "" ==>
      DoUpdate(cfg, Exec(cfg, users, reqs), u, n, data, env) != Failed(DecryptionFailed)
  {
    var s := Exec(cfg, users, reqs);
    RunKeeps(cfg, users, reqs);
    PermissionIsFold(cfg, users, reqs, n, u);
    PermissionsUnambiguous(s, n, u);
    if n in s.notes && cfg.keyVersion != "" {
      PlaintextIsText(s.notes[n]);
      EditKeepsRow(cfg, s.notes[n], data, env.nonce);
    }
  }

  // The shared-with-me list.

  /** The distinct live notes shared with u. */
  function SharedWithMe(s: Store, u: UserId): set<NoteId> {
    set r | r in s.shares && r.withId == u && r.noteId in s.notes && !s.notes[r.noteId].IsDeleted() :: r.noteId
  }

  lemma {:induction false} JoinIsDistinct(shares: seq<ShareRow>, notes: map<NoteId, NoteRow>, u: UserId)
    requires SharesUnique(shares)
    ensures Distinct(SharedJoin(shares, notes, u))
  {
    if shares != [] {
      var init, last := shares[..|shares| - 1], shares[|shares| - 1];
      JoinIsDistinct(init, notes, u);
      var rest := SharedJoin(init, notes, u);
      if last.withId == u {
        forall i | 0 <= i < |rest|
          ensures rest[i] != last.noteId
        {
          assert rest[i] in rest;
          var j :| 0 <= j < |init| && init[j].noteId == rest[i] && init[j].withId == u;
          assert !ShareOf(shares[j].noteId, shares[j].withId)(last);
        }
      }
    }
  }

  lemma {:induction false} DistinctSize<T>(xs: seq<T>, s: set<T>)
    requires Distinct(xs) && forall x :: x in xs <==> x in s
    ensures |xs| == |s|
  {
    if xs == [] {
      assert s == {};
    } else {
      var init, last := xs[..|xs| - 1], xs[|xs| - 1];
      assert xs == init + [last];
      forall x
        ensures x in init <==> x in s - {last}
      {
        assert x in xs <==> x in init || x == last;
      }
      DistinctSize(init, s - {last});
    }
  }

  /** The join shows no note twice, and its total counts the distinct live notes shared with the user. */
  lemma SharedListIsExact(cfg: Config, users: set<UserId>, reqs: seq<Request>, u: UserId)
    ensures var s := Exec(cfg, users, reqs);
      && Distinct(SharedList(s, u))
      && (forall n :: n in SharedList(s, u) <==> n in SharedWithMe(s, u))
      && |SharedJoin(s.shares, s.notes, u)| == |SharedWithMe(s, u)|
      && Sorted(s.notes, false, SharedList(s, u))
  {
    hide Exec, SharedJoin, SharedWithMe, Sort;
    RunKeeps(cfg, users, reqs);
    var s := Exec(cfg, users, reqs);
    var join := SharedJoin(s.shares, s.notes, u);
    JoinIsDistinct(s.shares, s.notes, u);
    JoinMembers(s, u);
    assert forall i | 0 <= i < |join| :: join[i] in join;
    DistinctByMultiset(join, SharedList(s, u));
    SameMembers(join, SharedList(s, u));
    SortSorts(s.notes, false, join);
    DistinctSize(join, SharedWithMe(s, u));
  }

  lemma JoinMembers(s: Store, u: UserId)
    ensures forall n :: n in SharedJoin(s.shares, s.notes, u) <==> n in SharedWithMe(s, u)
  {
    var join := SharedJoin(s.shares, s.notes, u);
    forall n
      ensures n in join <==> n in SharedWithMe(s, u)
    {
      if n in SharedWithMe(s, u) {
        var r :| r in s.shares && r.withId == u && r.noteId == n && n in s.notes && !s.notes[n].IsDeleted();
        var i :| 0 <= i < |s.shares| && s.shares[i] == r;
        assert n in join;
      }
    }
  }
}
