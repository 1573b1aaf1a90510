/** When each request succeeds, why it is refused, what it answers, and what a run makes of a note's owner, privacy,
    pin and deletion. */
module Outcomes {
  import opened Wrappers
  import opened Security
  import opened Models
  import opened Queries
  import opened NoteRules
  import opened Invariants
  import opened Representation
  import opened History
  import opened Sharing
  import opened Links

  predicate Missing(s: Store, n: NoteId) {
    n !in s.notes
  }

  predicate Gone(s: Store, n: NoteId) {
    n in s.notes && s.notes[n].deletedAt.Some?
  }

  /** A live note of this owner. */
  predicate OwnsLive(s: Store, n: NoteId, u: UserId) {
    n in s.notes && s.notes[n].deletedAt.None? && s.notes[n].ownerId == u
  }

  predicate Stranger(s: Store, n: NoteId, u: UserId) {
    n in s.notes && s.notes[n].ownerId != u
  }

  function VersionCount(s: Store, n: NoteId): nat {
    |VersionsOf(s.versions, n)|
  }

  // Exactly when each request of the owner succeeds, in every run.

  lemma CreateSucceedsIff(cfg: Config, s: Store, u: UserId, title: string, content: string, isPrivate: bool, env: Env)
    ensures DoCreate(cfg, s, u, title, content, isPrivate, env).Done? <==> env.newId !in s.notes
  {
  }

  /** The new note is the creator's, live and unpinned, with the title, text and privacy that were asked for; the answer
      shows it under a key version that is not empty. */
  lemma CreatedAsAsked(cfg: Config, s: Store, u: UserId, title: string, content: string, isPrivate: bool, env: Env)
    requires DoCreate(cfg, s, u, title, content, isPrivate, env).Done?
    ensures var o := DoCreate(cfg, s, u, title, content, isPrivate, env);
      && env.newId !in s.notes && o.store.notes.Keys == s.notes.Keys + {env.newId}
      && (forall n | n in s.notes :: o.store.notes[n] == s.notes[n])
      && var row := o.store.notes[env.newId];
        && OneLayer(row) && Plaintext(row).Some?
        && Abs(row) == AbsNote(Moment(title, Text(content)), isPrivate)
        && row.ownerId == u && !row.isPinned && row.pinnedAt == None && row.deletedAt == None
        && row.updatedAt == env.now
        && o.reply.NoteReply? && o.reply.id == env.newId
        && o.reply.row.title == title && o.reply.row.isPrivate == isPrivate && o.reply.row.ownerId == u
        && (cfg.keyVersion != "" ==> o.reply.row.content == Text(content))
  {
    var row := DoCreate(cfg, s, u, title, content, isPrivate, env).store.notes[env.newId];
    assert Layers(Text(content)) == 0;
    if isPrivate {
      assert Layers(row.content) == 1 + Layers(row.content.body);
    }
  }

  /** The owner, and nobody else, deletes a live note. */
  lemma DeleteSucceedsIff(s: Store, u: UserId, n: NoteId, env: Env)
    ensures DoDelete(s, u, n, env).Done? <==> OwnsLive(s, n, u)
  {
  }

  /** The owner pins a live unpinned note exactly while fewer notes than the limit are pinned. */
  lemma PinSucceedsIff(cfg: Config, s: Store, u: UserId, n: NoteId, env: Env)
    ensures DoPin(cfg, s, u, n, env).Done? <==>
      && OwnsLive(s, n, u) && !s.notes[n].isPinned
      && |set m | m in s.notes && s.notes[m].ownerId == u && s.notes[m].isPinned && s.notes[m].deletedAt.None?|
         < cfg.maxPinned
  {
    assert PinnedNotes(s, u)
        == set m | m in s.notes && s.notes[m].ownerId == u && s.notes[m].isPinned && s.notes[m].deletedAt.None?;
  }

  lemma UnpinSucceedsIff(s: Store, u: UserId, n: NoteId, env: Env)
    ensures DoUnpin(s, u, n, env).Done? <==> n in s.notes && s.notes[n].ownerId == u && s.notes[n].isPinned
  {
  }

  /** The owner shares a live note with another user exactly when that user exists and does not have the permission
      already. */
  lemma ShareSucceedsIff(cfg: Config, users: set<UserId>, reqs: seq<Request>, u: UserId, n: NoteId, target: UserId,
                         permission: Permission, env: Env)
    ensures DoShare(Exec(cfg, users, reqs), u, n, target, permission, env).Done? <==>
      && OwnsLive(Exec(cfg, users, reqs), n, u) && target != u && target in users
      && Granted(cfg, users, reqs, n, target) != Some(permission)
  {
    hide Exec, Granted, Find;
    var s := Exec(cfg, users, reqs);
    RunKeeps(cfg, users, reqs);
    PermissionIsFold(cfg, users, reqs, n, target);
    PermissionsUnambiguous(s, n, target);
    if GetShare(s, n, target).Unique? {
      SharedUserExists(cfg, s, n, target);
    }
  }

  lemma SharedUserExists(cfg: Config, s: Store, n: NoteId, u: UserId)
    requires SharesInv(s) && GetShare(s, n, u).Unique?
    ensures u in s.users
  {
    var row := GetShare(s, n, u).row;
    assert row in s.shares;
    assert ShareOk(row, s);
  }

  /** The owner withdraws exactly a share that is granted, also of a deleted note. */
  lemma UnshareSucceedsIff(cfg: Config, users: set<UserId>, reqs: seq<Request>, u: UserId, n: NoteId, target: UserId,
                           env: Env)
    ensures var s := Exec(cfg, users, reqs);
      DoUnshare(s, u, n, target, env).Done? <==>
        n in s.notes && s.notes[n].ownerId == u && Granted(cfg, users, reqs, n, target).Some?
  {
    hide Exec, Granted, Find, WithoutShare;
    var s := Exec(cfg, users, reqs);
    RunKeeps(cfg, users, reqs);
    PermissionIsFold(cfg, users, reqs, n, target);
    PermissionsUnambiguous(s, n, target);
  }

  /** A restore past its guards can only fail on undecryptable content. The owner of a live note restores any of its
      versions 1..k and no other, and under a key version that is not empty the restore never fails. */
  lemma RestoreSucceedsIff(cfg: Config, users: set<UserId>, reqs: seq<Request>, u: UserId, n: NoteId, k: int, env: Env)
    ensures var s := Exec(cfg, users, reqs);
      PassesGuards(DoRestore(cfg, s, u, n, k, env)) <==> OwnsLive(s, n, u) && 1 <= k <= VersionCount(s, n)
    ensures cfg.keyVersion != "" ==> DoRestore(cfg, Exec(cfg, users, reqs), u, n, k, env) != Failed(DecryptionFailed)
  {
    hide Exec, VersionsOf, Find;
    var s := Exec(cfg, users, reqs);
    RunKeeps(cfg, users, reqs);
    assert Numbered(VersionsOf(s.versions, n));
    FindNumbered(VersionsOf(s.versions, n), k);
    if n in s.notes && cfg.keyVersion != "" {
      PlaintextIsText(s.notes[n]);
    }
  }

  /** The owner of a live note creates a link, unless the random token has been drawn before. */
  lemma CreateLinkSucceedsIff(s: Store, u: UserId, n: NoteId, expiry: Expiry, maxAccesses: Option<Quota>, env: Env)
    ensures DoCreateLink(s, u, n, expiry, maxAccesses, env).Done? <==>
      && OwnsLive(s, n, u)
      && forall i | 0 <= i < |s.links| :: s.links[i].tokenHash != HashShareToken(env.token)
  {
    var h := HashShareToken(env.token);
    assert GetLink(s, h).Absent? <==> forall i | 0 <= i < |s.links| :: !LinkWith(h)(s.links[i]);
    forall i | 0 <= i < |s.links|
      ensures LinkWith(h)(s.links[i]) <==> s.links[i].tokenHash == h
    {
    }
  }

  /** The answer carries the raw token, once, and the link as stored. */
  lemma CreatedLinkAnswer(s: Store, u: UserId, n: NoteId, expiry: Expiry, maxAccesses: Option<Quota>, env: Env)
    requires DoCreateLink(s, u, n, expiry, maxAccesses, env).Done?
    ensures var o := DoCreateLink(s, u, n, expiry, maxAccesses, env);
      o.reply.LinkReply? && o.reply.token == env.token
      && GetLink(o.store, HashShareToken(env.token)) == Unique(o.reply.link) && o.reply.link.createdBy == u
  {
    LinkIsCreated(s, u, n, expiry, maxAccesses, env);
  }

  /** Only owners ever open a note to the public: in every run each link was created by its note's owner. */
  lemma {:induction false} LinksAreTheOwners(cfg: Config, users: set<UserId>, reqs: seq<Request>)
    ensures var s := Exec(cfg, users, reqs);
      forall l | l in s.links :: l.noteId in s.notes && l.createdBy == s.notes[l.noteId].ownerId
  {
    if reqs != [] {
      var init, req := reqs[..|reqs| - 1], reqs[|reqs| - 1];
      var s := Exec(cfg, users, init);
      LinksAreTheOwners(cfg, users, init);
      forall l | l in Step(cfg, s, req).links
        ensures l.noteId in Step(cfg, s, req).notes && l.createdBy == Step(cfg, s, req).notes[l.noteId].ownerId
      {
        LinkOrigin(cfg, s, req, l);
        OwnersStay(cfg, s, req, l.noteId);
      }
    }
  }

  /** A link of the new tables is one of the old, counted perhaps, or was made by this request for its own note. */
  lemma LinkOrigin(cfg: Config, s: Store, req: Request, l: LinkRow)
    requires l in Step(cfg, s, req).links
    ensures (exists o :: o in s.links && o.noteId == l.noteId && o.createdBy == l.createdBy)
      || (l.noteId in s.notes && s.notes[l.noteId].ownerId == l.createdBy)
  {
    if Apply(cfg, s, req).Done? && req.op.AccessShareLink? {
      AccessedOrigin(s, req.op.token, req.env, l);
    } else if Apply(cfg, s, req).Done? && req.op.CreateShareLink? {
      NewLinkOrigin(s, req.user, req.op.id, req.op.expiry, req.op.maxAccesses, req.env, l);
    } else if Apply(cfg, s, req).Done? {
      OthersKeepLinks(cfg, s, req);
    }
  }

  lemma NewLinkOrigin(s: Store, u: UserId, n: NoteId, expiry: Expiry, maxAccesses: Option<Quota>, env: Env, l: LinkRow)
    requires DoCreateLink(s, u, n, expiry, maxAccesses, env).Done?
    requires l in DoCreateLink(s, u, n, expiry, maxAccesses, env).store.links
    ensures l in s.links || (l.noteId in s.notes && s.notes[l.noteId].ownerId == l.createdBy)
  {
  }

  lemma AccessedOrigin(s: Store, token: RawToken, env: Env, l: LinkRow)
    requires DoAccessLink(s, token, env).Done? && l in DoAccessLink(s, token, env).store.links
    ensures exists o :: o in s.links && o.noteId == l.noteId && o.createdBy == l.createdBy
  {
    var links := DoAccessLink(s, token, env).store.links;
    var row := GetLink(s, HashShareToken(token)).row;
    assert row in s.links;
    var i :| 0 <= i < |links| && links[i] == l;
    assert s.links[i] in s.links;
  }

  lemma OwnersStay(cfg: Config, s: Store, req: Request, n: NoteId)
    requires n in s.notes
    ensures n in Step(cfg, s, req).notes && Step(cfg, s, req).notes[n].ownerId == s.notes[n].ownerId
  {
    hide Find, PutShare, WithoutShare, PutLink, Hit, Shown, Plaintext, NextVersionNumber;
  }

  // Owner, privacy, pin and deletion told from the successful requests alone.

  datatype Profile = Profile(owner: UserId, isPrivate: bool, pinnedAt: Option<Time>, deletedAt: Option<Time>)

  function Profiled(past: Option<Profile>, n: NoteId, req: Request): Option<Profile> {
    match (req.op, past)
    case (CreateNote(_, _, isPrivate), _) =>
      if req.env.newId == n then Some(Profile(req.user, isPrivate, None, None)) else past
    case (UpdateNote(id, data), Some(p)) =>
      if id == n then Some(p.(isPrivate := data.isPrivate.GetOr(p.isPrivate))) else past
    case (DeleteNote(id), Some(p)) =>
      if id == n then Some(p.(deletedAt := Some(req.env.now), pinnedAt := None)) else past
    case (PinNote(id), Some(p)) => if id == n then Some(p.(pinnedAt := Some(req.env.now))) else past
    case (UnpinNote(id), Some(p)) => if id == n then Some(p.(pinnedAt := None)) else past
    case _ => past
  }

  function ProfileTold(cfg: Config, users: set<UserId>, reqs: seq<Request>, n: NoteId): Option<Profile> {
    if reqs == [] then None
    else
      var init, last := reqs[..|reqs| - 1], reqs[|reqs| - 1];
      var past := ProfileTold(cfg, users, init, n);
      if Apply(cfg, Exec(cfg, users, init), last).Done? then Profiled(past, n, last) else past
  }

  function ProfileOf(s: Store, n: NoteId): Option<Profile> {
    if n in s.notes then
      Some(Profile(s.notes[n].ownerId, s.notes[n].isPrivate, s.notes[n].pinnedAt, s.notes[n].deletedAt))
    else None
  }

  lemma CreateProfiles(cfg: Config, s: Store, req: Request, n: NoteId)
    requires req.op.CreateNote? && Apply(cfg, s, req).Done?
    ensures ProfileOf(Step(cfg, s, req), n) == Profiled(ProfileOf(s, n), n, req)
  {
  }

  lemma UpdateProfiles(cfg: Config, s: Store, user: UserId, id: NoteId, data: UpdateData, env: Env, n: NoteId)
    requires DoUpdate(cfg, s, user, id, data, env).Done?
    ensures ProfileOf(DoUpdate(cfg, s, user, id, data, env).store, n)
      == Profiled(ProfileOf(s, n), n, Request(user, UpdateNote(id, data), env))
  {
    hide Plaintext, NextVersionNumber;
    UpdateEffect(cfg, s, user, id, data, env);
  }

  lemma RestoreProfiles(cfg: Config, s: Store, user: UserId, id: NoteId, k: int, env: Env, n: NoteId)
    requires DoRestore(cfg, s, user, id, k, env).Done?
    ensures ProfileOf(DoRestore(cfg, s, user, id, k, env).store, n) == ProfileOf(s, n)
  {
    hide Find, VersionsOf, Plaintext, NextVersionNumber, Shown;
  }

  lemma FlagProfiles(cfg: Config, s: Store, req: Request, n: NoteId)
    requires (req.op.DeleteNote? || req.op.PinNote? || req.op.UnpinNote?) && Apply(cfg, s, req).Done?
    ensures ProfileOf(Step(cfg, s, req), n) == Profiled(ProfileOf(s, n), n, req)
  {
    hide Shown;
  }

  lemma StepProfiles(cfg: Config, s: Store, req: Request, n: NoteId)
    requires Apply(cfg, s, req).Done?
    ensures ProfileOf(Step(cfg, s, req), n) == Profiled(ProfileOf(s, n), n, req)
  {
    hide ProfileOf, DoCreate, DoUpdate, DoRestore, DoDelete, DoPin, DoUnpin;
    if req.op.CreateNote? {
      CreateProfiles(cfg, s, req, n);
    } else if req.op.UpdateNote? {
      UpdateProfiles(cfg, s, req.user, req.op.id, req.op.data, req.env, n);
    } else if req.op.RestoreVersion? {
      RestoreProfiles(cfg, s, req.user, req.op.id, req.op.number, req.env, n);
    } else if req.op.DeleteNote? || req.op.PinNote? || req.op.UnpinNote? {
      FlagProfiles(cfg, s, req, n);
    } else {
      OthersKeepTables(cfg, s, req);
      SameNotesSameProfile(s, Step(cfg, s, req), n);
    }
  }

  lemma SameNotesSameProfile(s: Store, s': Store, n: NoteId)
    requires s'.notes == s.notes
    ensures ProfileOf(s', n) == ProfileOf(s, n)
  {
  }

  /** In every run a note belongs to who created it; its privacy is the one it was created with or last given by an
      update; it is pinned since the last successful pin with no later unpin or delete, and deleted since its delete. */
  lemma {:induction false} ProfileIsFold(cfg: Config, users: set<UserId>, reqs: seq<Request>, n: NoteId)
    ensures ProfileOf(Exec(cfg, users, reqs), n) == ProfileTold(cfg, users, reqs, n)
    ensures var s := Exec(cfg, users, reqs); n in s.notes ==> (s.notes[n].isPinned <==> s.notes[n].pinnedAt.Some?)
  {
    RunKeeps(cfg, users, reqs);
    assert n in Exec(cfg, users, reqs).notes ==> PinOk(Exec(cfg, users, reqs).notes[n]);
    if reqs != [] {
      var init := reqs[..|reqs| - 1];
      ProfileIsFold(cfg, users, init, n);
      if Apply(cfg, Exec(cfg, users, init), reqs[|reqs| - 1]).Done? {
        StepProfiles(cfg, Exec(cfg, users, init), reqs[|reqs| - 1], n);
      }
    }
  }

  // Why a request is refused.

  /** What is true of the tables and stands in the way of the request, in no order. */
  predicate Reason(cfg: Config, s: Store, req: Request, e: Error) {
    if req.op.AccessShareLink? then AccessReason(s, req.op.token, req.env.now, e)
    else (e == Unauthenticated && req.user !in s.users) || NoteReason(cfg, s, req.user, req.op, req.env, e)
  }

  predicate AccessReason(s: Store, token: RawToken, now: Time, e: Error) {
    match GetLink(s, HashShareToken(token))
    case Absent => e == TokenInvalid
    case Ambiguous => false
    case Unique(l) =>
      || (e == TokenInvalid && l.maxAccesses.Some? && l.accessCount >= l.maxAccesses.value)
      || (e == TokenExpired && now > l.expiresAt)
      || (e == NotFound && Gone(s, l.noteId))
  }

  /** Reading asks for ownership or any share, updating for ownership or a write share, the rest for ownership. */
  predicate MayNot(s: Store, u: UserId, op: Op, n: NoteId) {
    Stranger(s, n, u)
    && match op
      case GetNote(_) => PermissionOf(s, n, u) == None
      case GetNoteVersion(_, _) => PermissionOf(s, n, u) == None
      case UpdateNote(_, _) => PermissionOf(s, n, u) != Some(Write)
      case _ => true
  }

  /** The requests that a deleted note is closed to. */
  predicate NeedsLive(op: Op) {
    op.GetNote? || op.UpdateNote? || op.DeleteNote? || op.ShareNote? || op.PinNote? || op.RestoreVersion?
    || op.CreateShareLink?
  }

  predicate NoteReason(cfg: Config, s: Store, u: UserId, op: Op, env: Env, e: Error) {
    match op
    case CreateNote(_, _, _) => e == IntegrityViolation && env.newId in s.notes
    case ListNotes(_, _) => false
    case ListShared(_) => false
    case UnshareNote(id, target) =>
      || (e == InsufficientPermissions && (Missing(s, id) || Stranger(s, id, u)))
      || (e == NotFound && PermissionOf(s, id, target) == None)
    case AccessShareLink(_) => false
    case GetNote(id) => Closed(s, u, op, id, e)
    case UpdateNote(id, _) => Closed(s, u, op, id, e)
    case DeleteNote(id) => Closed(s, u, op, id, e)
    case GetNoteVersion(id, k) => Closed(s, u, op, id, e) || (e == NotFound && !(1 <= k <= VersionCount(s, id)))
    case RestoreVersion(id, k) => Closed(s, u, op, id, e) || (e == NotFound && !(1 <= k <= VersionCount(s, id)))
    case ShareNote(id, target, permission) =>
      || Closed(s, u, op, id, e)
      || (e == Conflict && (target == u || PermissionOf(s, id, target) == Some(permission)))
      || (e == IntegrityViolation && target !in s.users)
    case PinNote(id) =>
      || Closed(s, u, op, id, e)
      || (e == Conflict && id in s.notes && s.notes[id].isPinned)
      || (e == PinLimitExceeded && |PinnedNotes(s, u)| >= cfg.maxPinned)
    case UnpinNote(id) => Closed(s, u, op, id, e) || (e == Conflict && id in s.notes && !s.notes[id].isPinned)
    case CreateShareLink(id, _, _) =>
      Closed(s, u, op, id, e) || (e == IntegrityViolation && !GetLink(s, HashShareToken(env.token)).Absent?)
  }

  /** The reasons that most requests on a note share. */
  predicate Closed(s: Store, u: UserId, op: Op, n: NoteId, e: Error) {
    || (e == NotFound && Missing(s, n))
    || (e == NoteIsDeleted && Gone(s, n) && NeedsLive(op))
    || (e == InsufficientPermissions && MayNot(s, u, op, n))
  }

  /** A success has no reason against it, and a refusal names one that holds. */
  ghost predicate Justified(cfg: Config, s: Store, req: Request) {
    match Apply(cfg, s, req)
    case Done(_, _) => forall e :: !Reason(cfg, s, req, e)
    case Failed(e) => Reason(cfg, s, req, e) || (e == DecryptionFailed && cfg.keyVersion == "")
  }

  lemma AccessJustified(cfg: Config, s: Store, req: Request)
    requires LinksInv(s) && req.op.AccessShareLink?
    ensures Justified(cfg, s, req)
  {
    hide Find, PutLink, Shown;
    LinkOfToken(s, HashShareToken(req.op.token));
  }

  lemma LinkOfToken(s: Store, h: Digest<RawToken>)
    requires LinksInv(s)
    ensures !GetLink(s, h).Ambiguous?
    ensures GetLink(s, h).Unique? ==> LinkOk(GetLink(s, h).row) && GetLink(s, h).row.noteId in s.notes
  {
    if GetLink(s, h).Unique? {
      assert GetLink(s, h).row in s.links;
    }
  }

  lemma ReadJustified(cfg: Config, s: Store, req: Request)
    requires SharesUnique(s.shares) && VersionsInv(s)
    requires req.op.GetNote? || req.op.GetNoteVersion? || req.op.ListNotes? || req.op.ListShared?
    ensures Justified(cfg, s, req)
  {
    hide Find, VersionsOf, Shown, Views;
    if req.op.GetNote? || req.op.GetNoteVersion? {
      PermissionsUnambiguous(s, req.op.id, req.user);
    }
    if req.op.GetNoteVersion? {
      assert Numbered(VersionsOf(s.versions, req.op.id));
      FindNumbered(VersionsOf(s.versions, req.op.id), req.op.number);
    }
  }

  lemma UpdateJustified(cfg: Config, s: Store, req: Request)
    requires SharesUnique(s.shares) && (cfg.keyVersion != "" ==> TextInv(s)) && req.op.UpdateNote?
    ensures Justified(cfg, s, req)
  {
    hide Find, NextVersionNumber, Shown, EditRow, Stamp;
    PermissionsUnambiguous(s, req.op.id, req.user);
    if req.op.id in s.notes && cfg.keyVersion != "" {
      PlaintextIsText(s.notes[req.op.id]);
      EditKeepsRow(cfg, s.notes[req.op.id], req.op.data, req.env.nonce);
    }
  }

  lemma RestoreJustified(cfg: Config, s: Store, req: Request)
    requires VersionsInv(s) && (cfg.keyVersion != "" ==> TextInv(s)) && req.op.RestoreVersion?
    ensures Justified(cfg, s, req)
  {
    hide Find, VersionsOf, NextVersionNumber, Shown, Stamp, Layers, RestoreRow, Snapshot, PutNote, NoteRules.Log;
    hide PermissionOf, PinnedNotes, GetShare;
    assert Numbered(VersionsOf(s.versions, req.op.id));
    FindNumbered(VersionsOf(s.versions, req.op.id), req.op.number);
    if req.op.id in s.notes && cfg.keyVersion != "" {
      PlaintextIsText(s.notes[req.op.id]);
    }
  }

  lemma ShareJustified(cfg: Config, s: Store, req: Request)
    requires SharesInv(s) && (req.op.ShareNote? || req.op.UnshareNote?)
    ensures Justified(cfg, s, req)
  {
    hide Find, PutShare, WithoutShare;
    PermissionsUnambiguous(s, req.op.id, req.op.target);
    if GetShare(s, req.op.id, req.op.target).Unique? {
      SharedUserExists(cfg, s, req.op.id, req.op.target);
    }
  }

  lemma OwnerJustified(cfg: Config, s: Store, req: Request)
    requires req.op.CreateNote? || req.op.DeleteNote? || req.op.PinNote? || req.op.UnpinNote? || req.op.CreateShareLink?
    ensures Justified(cfg, s, req)
  {
    hide Find, PinnedNotes, Shown, Stamp;
  }

  /** In every run a request succeeds exactly when nothing stands in its way, and is refused for a reason that holds. */
  lemma AnswersAreJustified(cfg: Config, users: set<UserId>, reqs: seq<Request>, req: Request)
    ensures Justified(cfg, Exec(cfg, users, reqs), req)
  {
    hide Justified, Exec;
    var s := Exec(cfg, users, reqs);
    RunKeeps(cfg, users, reqs);
    match req.op
    case AccessShareLink(_) => AccessJustified(cfg, s, req);
    case GetNote(_) => ReadJustified(cfg, s, req);
    case GetNoteVersion(_, _) => ReadJustified(cfg, s, req);
    case ListNotes(_, _) => ReadJustified(cfg, s, req);
    case ListShared(_) => ReadJustified(cfg, s, req);
    case UpdateNote(_, _) => UpdateJustified(cfg, s, req);
    case RestoreVersion(_, _) => RestoreJustified(cfg, s, req);
    case ShareNote(_, _, _) => ShareJustified(cfg, s, req);
    case UnshareNote(_, _) => ShareJustified(cfg, s, req);
    case CreateNote(_, _, _) => OwnerJustified(cfg, s, req);
    case DeleteNote(_) => OwnerJustified(cfg, s, req);
    case PinNote(_) => OwnerJustified(cfg, s, req);
    case UnpinNote(_) => OwnerJustified(cfg, s, req);
    case CreateShareLink(_, _, _) => OwnerJustified(cfg, s, req);
  }

  /** A deleted note is told as deleted to whoever asks, before ownership is looked at. */
  lemma DeletionIsToldFirst(cfg: Config, s: Store, u: UserId, n: NoteId, data: UpdateData, k: int, env: Env)
    requires Gone(s, n)
    ensures DoGet(s, u, n) == Failed(NoteIsDeleted) && DoUpdate(cfg, s, u, n, data, env) == Failed(NoteIsDeleted)
    ensures DoDelete(s, u, n, env) == Failed(NoteIsDeleted) && DoPin(cfg, s, u, n, env) == Failed(NoteIsDeleted)
    ensures DoRestore(cfg, s, u, n, k, env) == Failed(NoteIsDeleted)
  {
  }

  /** Sharing, links, unpinning and versions tell a stranger nothing but the lack of permission. */
  lemma StrangersAreToldNothing(cfg: Config, users: set<UserId>, reqs: seq<Request>, u: UserId, n: NoteId,
                                target: UserId, permission: Permission, expiry: Expiry, maxAccesses: Option<Quota>,
                                k: int, env: Env)
    requires Stranger(Exec(cfg, users, reqs), n, u)
    ensures var s := Exec(cfg, users, reqs);
      && DoShare(s, u, n, target, permission, env) == Failed(InsufficientPermissions)
      && DoUnshare(s, u, n, target, env) == Failed(InsufficientPermissions)
      && DoUnpin(s, u, n, env) == Failed(InsufficientPermissions)
      && DoCreateLink(s, u, n, expiry, maxAccesses, env) == Failed(InsufficientPermissions)
      && (Granted(cfg, users, reqs, n, u) == None ==> DoGetVersion(s, u, n, k) == Failed(InsufficientPermissions))
  {
    hide Exec, Granted, Find;
    RunKeeps(cfg, users, reqs);
    PermissionIsFold(cfg, users, reqs, n, u);
    PermissionsUnambiguous(Exec(cfg, users, reqs), n, u);
  }

  /** Where several reasons hold: on a live note a stranger is told so before pins and versions are looked at; being
      pinned comes before the limit; sharing with oneself comes before deletion; a used-up link is invalid rather than
      expired, and an expired one expired rather than without its note. */
  lemma RefusalOrder(cfg: Config, users: set<UserId>, reqs: seq<Request>, u: UserId, n: NoteId, k: int,
                     permission: Permission, token: RawToken, env: Env)
    ensures var s := Exec(cfg, users, reqs);
      && (Stranger(s, n, u) && !Gone(s, n) ==>
          DoPin(cfg, s, u, n, env) == DoRestore(cfg, s, u, n, k, env) == Failed(InsufficientPermissions))
      && (OwnsLive(s, n, u) && s.notes[n].isPinned ==> DoPin(cfg, s, u, n, env) == Failed(Conflict))
      && (n in s.notes && s.notes[n].ownerId == u ==> DoShare(s, u, n, u, permission, env) == Failed(Conflict))
      && (AccessReason(s, token, env.now, TokenInvalid) ==> DoAccessLink(s, token, env) == Failed(TokenInvalid))
      && (AccessReason(s, token, env.now, TokenExpired) && !AccessReason(s, token, env.now, TokenInvalid) ==>
          DoAccessLink(s, token, env) == Failed(TokenExpired))
  {
    hide Exec, Find, PinnedNotes, VersionsOf, PutLink, Hit, Shown, Plaintext;
    RunKeeps(cfg, users, reqs);
    LinkOfToken(Exec(cfg, users, reqs), HashShareToken(token));
  }

  // What a success answers.

  predicate AnswersNote(op: Op) {
    op.CreateNote? || op.GetNote? || op.UpdateNote? || op.PinNote? || op.UnpinNote? || op.RestoreVersion?
    || op.AccessShareLink?
  }

  lemma NoteReplies(cfg: Config, s: Store, req: Request)
    requires Apply(cfg, s, req).Done? && AnswersNote(req.op)
    ensures var o := Apply(cfg, s, req);
      && o.reply.NoteReply? && o.reply.id in o.store.notes && o.reply.row == Shown(o.store.notes[o.reply.id])
      && match req.op
        case CreateNote(_, _, _) => o.reply.id == req.env.newId
        case AccessShareLink(token) =>
          GetLink(s, HashShareToken(token)).Unique? && o.reply.id == GetLink(s, HashShareToken(token)).row.noteId
        case _ => o.reply.id == req.op.id
  {
    hide Find, PutLink, Hit, Shown, Plaintext, NextVersionNumber, EditRow, RestoreRow, Stamp;
  }

  /** In every run under a key version that is not empty, the note answered is the one asked about, as it is stored
      afterwards in every column but the content, which is its plaintext. */
  lemma NoteRepliesShowTheNote(cfg: Config, users: set<UserId>, reqs: seq<Request>, req: Request)
    requires cfg.keyVersion != "" && AnswersNote(req.op) && Apply(cfg, Exec(cfg, users, reqs), req).Done?
    ensures var s := Exec(cfg, users, reqs); var o := Apply(cfg, s, req);
      && o.reply.NoteReply? && o.reply.id in o.store.notes && Plaintext(o.store.notes[o.reply.id]).Some?
      && o.reply.row == o.store.notes[o.reply.id].(content := Plaintext(o.store.notes[o.reply.id]).value)
      && match req.op
        case CreateNote(_, _, _) => o.reply.id == req.env.newId
        case AccessShareLink(token) =>
          GetLink(s, HashShareToken(token)).Unique? && o.reply.id == GetLink(s, HashShareToken(token)).row.noteId
        case _ => o.reply.id == req.op.id
  {
    hide Apply, Exec, Layers;
    var s := Exec(cfg, users, reqs);
    RunKeeps(cfg, users, reqs);
    StepKeepsText(cfg, s, req);
    NoteReplies(cfg, s, req);
    PlaintextIsText(Apply(cfg, s, req).store.notes[Apply(cfg, s, req).reply.id]);
  }

  /** A successful share answers the share as it now stands. */
  lemma ShareReplies(cfg: Config, s: Store, u: UserId, n: NoteId, target: UserId, permission: Permission, env: Env)
    requires SharesInv(s) && DoShare(s, u, n, target, permission, env).Done?
    ensures DoShare(s, u, n, target, permission, env).reply == ShareReply(ShareRow(n, target, u, permission))
  {
    if GetShare(s, n, target).Unique? {
      var row := GetShare(s, n, target).row;
      assert row in s.shares;
      assert ShareOk(row, s);
    }
  }

  // Nonces.

  lemma UpdateNonce(cfg: Config, row: NoteRow, data: UpdateData, nonce: Nonce)
    requires LayersFit(row) && EditRow(cfg, row, data, nonce).Some?
    ensures var c := EditRow(cfg, row, data, nonce).value.content;
      c.Cipher? ==> c == row.content || c.nonce == nonce
  {
    FitsIffReadable(row);
  }

  lemma RestoreNonce(cfg: Config, s: Store, user: UserId, id: NoteId, k: int, env: Env)
    requires Layered(s) && DoRestore(cfg, s, user, id, k, env).Done?
    ensures id in s.notes
    ensures var s' := DoRestore(cfg, s, user, id, k, env).store;
      && id in s'.notes && (forall n | n in s.notes && n != id :: n in s'.notes && s'.notes[n] == s.notes[n])
      && s'.notes.Keys == s.notes.Keys
      && (s'.notes[id].content.Cipher? ==> s'.notes[id].content.nonce == env.nonce)
  {
    hide NextVersionNumber, Plaintext, Shown, Layers;
    var v := GetVersion(s, id, k).row;
    assert v in VersionsOf(s.versions, id);
  }

  /** Whatever ciphertext a request stores where it was not before is made with that request's own nonce. */
  lemma CiphertextIsFresh(cfg: Config, s: Store, req: Request, n: NoteId)
    requires Layered(s) && Apply(cfg, s, req).Done? && n in Step(cfg, s, req).notes
    requires n !in s.notes || Step(cfg, s, req).notes[n].content != s.notes[n].content
    ensures var c := Step(cfg, s, req).notes[n].content; c.Cipher? ==> c.nonce == req.env.nonce
  {
    hide EditRow, Find, NextVersionNumber, Plaintext, Shown, DoRestore, Layers;
    if req.op.UpdateNote? {
      UpdateEffect(cfg, s, req.user, req.op.id, req.op.data, req.env);
      UpdateNonce(cfg, s.notes[req.op.id], req.op.data, req.env.nonce);
    } else if req.op.RestoreVersion? {
      RestoreNonce(cfg, s, req.user, req.op.id, req.op.number, req.env);
    } else if req.op.DeleteNote? || req.op.PinNote? || req.op.UnpinNote? {
      if n in s.notes {
        FlagsKeepText(cfg, s, req, n);
      }
    } else if !req.op.CreateNote? {
      OthersKeepTables(cfg, s, req);
    }
  }
}
