/** What each request of app/services/note_service.py does to the committed store, as functions.

    The imperative service in NoteService.dfy is proved to compute these; the theorems about runs
    are proved about them. */
module NoteRules {
  import opened Wrappers
  import opened Security
  import opened Models
  import opened Queries
  import opened Pagination
  import opened Listing

  /** What the environment supplies to one request: the clock, randomness and a fresh UUID. */
  datatype Env = Env(now: Time, nonce: Nonce, newId: NoteId, token: RawToken)

  /** NoteUpdateRequest: every field may be absent. */
  datatype UpdateData = UpdateData(title: Option<string>, content: Option<string>, isPrivate: Option<bool>)

  datatype Op =
    | CreateNote(title: string, content: string, isPrivate: bool)
    | GetNote(id: NoteId)
    | ListNotes(page: PageParams, search: Option<set<NoteId>>)
    | ListShared(page: PageParams)
    | UpdateNote(id: NoteId, data: UpdateData)
    | DeleteNote(id: NoteId)
    | ShareNote(id: NoteId, target: UserId, permission: Permission)
    | UnshareNote(id: NoteId, target: UserId)
    | PinNote(id: NoteId)
    | UnpinNote(id: NoteId)
    | GetNoteVersion(id: NoteId, number: int)
    | RestoreVersion(id: NoteId, number: int)
    | CreateShareLink(id: NoteId, expiry: Expiry, maxAccesses: Option<Quota>)
    | AccessShareLink(token: RawToken)

  datatype Request = Request(user: UserId, op: Op, env: Env)

  /** What a successful request answers; note rows are given with the content the client sees. */
  datatype Reply =
    | NoReply
    | NoteReply(id: NoteId, row: NoteRow)
    | NotesReply(notes: seq<(NoteId, NoteRow)>, total: nat)
    | ShareReply(share: ShareRow)
    | VersionReply(version: VersionRow)
    | LinkReply(link: LinkRow, token: RawToken)

  datatype Outcome = Done(store: Store, reply: Reply) | Failed(error: Error)

  /** Python's truthiness of `encryption_key_version`. */
  predicate HasKey(row: NoteRow) {
    row.keyVersion.Some? && row.keyVersion.value != ""
  }

  const UNAVAILABLE: Content := Text("[Content unavailable — decryption failed]")

  /** The row as `_decrypt_note_for_response` leaves it on the returned object. */
  function Shown(row: NoteRow): NoteRow {
    if row.isPrivate && HasKey(row) then
      row.(content := match DecryptContent(row.content) case Some(c) => c case None => UNAVAILABLE)
    else row
  }

  /** The content a snapshot stores, None when decryption raises. */
  function Plaintext(row: NoteRow): Option<Content> {
    if row.isPrivate then DecryptContent(row.content) else Some(row.content)
  }

  /** An UPDATE is sent only for a changed row, and it stamps the row. */
  function Stamp(stored: NoteRow, edited: NoteRow, now: Time): NoteRow {
    if edited == stored then stored else edited.(updatedAt := now)
  }

  function PutNote(s: Store, id: NoteId, row: NoteRow, now: Time): Store
    requires id in s.notes
  {
    s.(notes := s.notes[id := Stamp(s.notes[id], row, now)])
  }

  function Log(s: Store, user: Option<UserId>, action: Action, id: NoteId, extra: Extra, now: Time): Store {
    s.(log := s.log + [LogEntry(user, action, id, extra, now)])
  }

  /** The answer that carries the stored note. */
  function NoteAnswer(s: Store, id: NoteId): Reply
    requires id in s.notes
  {
    NoteReply(id, Shown(s.notes[id]))
  }

  /** `_assert_can_read` and `_assert_can_write`: None lets the user pass. */
  function Barrier(s: Store, id: NoteId, user: UserId, write: bool): Option<Error>
    requires id in s.notes
  {
    if s.notes[id].ownerId == user then None
    else
      match GetShare(s, id, user)
      case Unique(share) =>
        if write && share.permission != Write then Some(InsufficientPermissions) else None
      case Absent => Some(InsufficientPermissions)
      case Ambiguous => Some(MultipleResults)
  }

  function DoCreate(cfg: Config, s: Store, user: UserId, title: string, content: string, isPrivate: bool,
                    env: Env): Outcome {
    if env.newId in s.notes then Failed(IntegrityViolation)
    else
      var row := NoteRow(user, title,
        if isPrivate then EncryptContent(Text(content), env.nonce) else Text(content),
        isPrivate, if isPrivate then Some(cfg.keyVersion) else None,
        false, None, None, env.now);
      var s' := Log(s.(notes := s.notes[env.newId := row]), Some(user), NoteCreated, env.newId,
        CreatedAs(title, isPrivate), env.now);
      Done(s', NoteAnswer(s', env.newId))
  }

  function DoGet(s: Store, user: UserId, id: NoteId): Outcome {
    if id !in s.notes then Failed(NotFound)
    else if s.notes[id].IsDeleted() then Failed(NoteIsDeleted)
    else match Barrier(s, id, user, false)
      case Some(e) => Failed(e)
      case None => Done(s, NoteAnswer(s, id))
  }

  function Views(s: Store, ids: seq<NoteId>): (r: seq<(NoteId, NoteRow)>)
    requires Known(s.notes, ids)
    ensures |r| == |ids| && forall i | 0 <= i < |ids| :: r[i] == (ids[i], Shown(s.notes[ids[i]]))
  {
    seq(|ids|, i requires 0 <= i < |ids| => (ids[i], Shown(s.notes[ids[i]])))
  }

  /** One page of an ordered result, every note as the client sees it. */
  function PageAnswer(s: Store, xs: seq<NoteId>, total: nat, page: PageParams): Outcome
    requires Known(s.notes, xs)
  {
    assert Known(s.notes, Window(xs, page));
    Done(s, NotesReply(Views(s, Window(xs, page)), total))
  }

  function DoList(s: Store, user: UserId, page: PageParams, search: Option<set<NoteId>>): Outcome {
    PageAnswer(s, OwnedList(s, user, search, true), |OwnedNotes(s, user, search)|, page)
  }

  function DoListShared(s: Store, user: UserId, page: PageParams): Outcome {
    PageAnswer(s, SharedList(s, user), |SharedJoin(s.shares, s.notes, user)|, page)
  }

  /** The title and content assignments of `update_note`. */
  function EditContent(cfg: Config, row: NoteRow, data: UpdateData, nonce: Nonce): NoteRow {
    var titled := row.(title := data.title.GetOr(row.title));
    if data.content.None? then titled
    else if row.isPrivate || data.isPrivate == Some(true) then
      titled.(content := EncryptContent(Text(data.content.value), nonce), keyVersion := Some(cfg.keyVersion))
    else titled.(content := Text(data.content.value))
  }

  /** The privacy flip of `update_note`; None when decryption raises. */
  function EditPrivacy(cfg: Config, row: NoteRow, data: UpdateData, nonce: Nonce): Option<NoteRow> {
    if data.isPrivate == None || data.isPrivate.value == row.isPrivate then Some(row)
    else if data.isPrivate.value then
      if data.content.None? then
        Some(row.(content := EncryptContent(row.content, nonce), keyVersion := Some(cfg.keyVersion), isPrivate := true))
      else Some(row.(isPrivate := true))
    else if HasKey(row) then
      match DecryptContent(row.content)
      case Some(c) => Some(row.(content := c, keyVersion := None, isPrivate := false))
      case None => None
    else Some(row.(keyVersion := None, isPrivate := false))
  }

  function EditRow(cfg: Config, row: NoteRow, data: UpdateData, nonce: Nonce): Option<NoteRow> {
    EditPrivacy(cfg, EditContent(cfg, row, data, nonce), data, nonce)
  }

  /** The row appended to the history before a note is changed. */
  function Snapshot(s: Store, id: NoteId, text: Content, user: UserId): VersionRow
    requires id in s.notes
  {
    VersionRow(id, NextVersionNumber(s, id), s.notes[id].title, text, user)
  }

  /** What `update_note` does once its guards have passed: snapshot, assign, save, log. */
  function Edit(cfg: Config, s: Store, user: UserId, id: NoteId, data: UpdateData, env: Env): Outcome
    requires id in s.notes
  {
    match (Plaintext(s.notes[id]), EditRow(cfg, s.notes[id], data, env.nonce))
    case (Some(text), Some(row)) =>
      var v := Snapshot(s, id, text, user);
      var s' := Log(PutNote(s, id, row, env.now).(versions := s.versions + [v]),
                    Some(user), NoteUpdated, id, VersionSaved(v.number), env.now);
      Done(s', NoteAnswer(s', id))
    case _ => Failed(DecryptionFailed)
  }

  function DoUpdate(cfg: Config, s: Store, user: UserId, id: NoteId, data: UpdateData, env: Env): Outcome {
    if id !in s.notes then Failed(NotFound)
    else if s.notes[id].IsDeleted() then Failed(NoteIsDeleted)
    else match Barrier(s, id, user, true)
      case Some(e) => Failed(e)
      case None =>
        Edit(cfg, s, user, id, data, env)
  }

  function DoDelete(s: Store, user: UserId, id: NoteId, env: Env): Outcome {
    if id !in s.notes then Failed(NotFound)
    else if s.notes[id].IsDeleted() then Failed(NoteIsDeleted)
    else if s.notes[id].ownerId != user then Failed(InsufficientPermissions)
    else
      var row := s.notes[id].(deletedAt := Some(env.now), isPinned := false, pinnedAt := None);
      Done(Log(PutNote(s, id, row, env.now), Some(user), NoteDeleted, id, NoExtra, env.now), NoReply)
  }

  function DoShare(s: Store, user: UserId, id: NoteId, target: UserId, permission: Permission, env: Env): Outcome {
    if id !in s.notes then Failed(NotFound)
    else if s.notes[id].ownerId != user then Failed(InsufficientPermissions)
    else if target == user then Failed(Conflict)
    else if s.notes[id].IsDeleted() then Failed(NoteIsDeleted)
    else
      var row := ShareRow(id, target, user, permission);
      match GetShare(s, id, target)
      case Unique(share) =>
        if share.permission == permission then Failed(Conflict)
        else
          var share' := share.(permission := permission);
          Done(s.(shares := PutShare(s.shares, share')), ShareReply(share'))
      case Absent =>
        if target !in s.users then Failed(IntegrityViolation)
        else Done(Log(s.(shares := s.shares + [row]), Some(user), NoteShared, id, SharedWith(target, permission),
          env.now),
                  ShareReply(row))
      case Ambiguous => Failed(MultipleResults)
  }

  function DoUnshare(s: Store, user: UserId, id: NoteId, target: UserId, env: Env): Outcome {
    if id !in s.notes || s.notes[id].ownerId != user then Failed(InsufficientPermissions)
    else
      match GetShare(s, id, target)
      case Unique(share) =>
        Done(Log(s.(shares := WithoutShare(s.shares, id, target)), Some(user), NoteUnshared, id, RemovedUser(target),
          env.now),
          NoReply)
      case Absent => Failed(NotFound)
      case Ambiguous => Failed(MultipleResults)
  }

  function DoPin(cfg: Config, s: Store, user: UserId, id: NoteId, env: Env): Outcome {
    if id !in s.notes then Failed(NotFound)
    else if s.notes[id].IsDeleted() then Failed(NoteIsDeleted)
    else if s.notes[id].ownerId != user then Failed(InsufficientPermissions)
    else if s.notes[id].isPinned then Failed(Conflict)
    else if |PinnedNotes(s, user)| >= cfg.maxPinned then Failed(PinLimitExceeded)
    else
      var s' := Log(PutNote(s, id, s.notes[id].(isPinned := true, pinnedAt := Some(env.now)), env.now),
                    Some(user), NotePinned, id, NoExtra, env.now);
      Done(s', NoteAnswer(s', id))
  }

  function DoUnpin(s: Store, user: UserId, id: NoteId, env: Env): Outcome {
    if id !in s.notes then Failed(NotFound)
    else if s.notes[id].ownerId != user then Failed(InsufficientPermissions)
    else if !s.notes[id].isPinned then Failed(Conflict)
    else
      var s' := Log(PutNote(s, id, s.notes[id].(isPinned := false, pinnedAt := None), env.now),
                    Some(user), NoteUnpinned, id, NoExtra, env.now);
      Done(s', NoteAnswer(s', id))
  }

  function DoGetVersion(s: Store, user: UserId, id: NoteId, number: int): Outcome {
    if id !in s.notes then Failed(NotFound)
    else match Barrier(s, id, user, false)
      case Some(e) => Failed(e)
      case None =>
        match GetVersion(s, id, number)
        case Unique(v) => Done(s, VersionReply(v))
        case Absent => Failed(NotFound)
        case Ambiguous => Failed(MultipleResults)
  }

  /** The assignments of `restore_version`. */
  function RestoreRow(cfg: Config, row: NoteRow, v: VersionRow, nonce: Nonce): NoteRow {
    if row.isPrivate then
      row.(title := v.title, content := EncryptContent(v.content, nonce), keyVersion := Some(cfg.keyVersion))
    else row.(title := v.title, content := v.content)
  }

  /** What `restore_version` does once its guards have passed and version v is found. */
  function Restore(cfg: Config, s: Store, user: UserId, id: NoteId, v: VersionRow, env: Env): Outcome
    requires id in s.notes
  {
    match Plaintext(s.notes[id])
    case None => Failed(DecryptionFailed)
    case Some(text) =>
      var snap := Snapshot(s, id, text, user);
      var row := RestoreRow(cfg, s.notes[id], v, env.nonce);
      var s' := Log(PutNote(s, id, row, env.now).(versions := s.versions + [snap]),
                    Some(user), NoteVersionRestored, id, Restored(v.number, snap.number), env.now);
      Done(s', NoteAnswer(s', id))
  }

  function DoRestore(cfg: Config, s: Store, user: UserId, id: NoteId, number: int, env: Env): Outcome {
    if id !in s.notes then Failed(NotFound)
    else if s.notes[id].IsDeleted() then Failed(NoteIsDeleted)
    else if s.notes[id].ownerId != user then Failed(InsufficientPermissions)
    else match GetVersion(s, id, number)
      case Absent => Failed(NotFound)
      case Ambiguous => Failed(MultipleResults)
      case Unique(v) => Restore(cfg, s, user, id, v, env)
  }

  function Lifetime(e: Expiry): Time {
    match e
    case OneHour => HOUR
    case OneDay => 24 * HOUR
    case SevenDays => 7 * 24 * HOUR
  }

  function DoCreateLink(s: Store, user: UserId, id: NoteId, expiry: Expiry, maxAccesses: Option<nat>,
                        env: Env): Outcome {
    if id !in s.notes then Failed(NotFound)
    else if s.notes[id].ownerId != user then Failed(InsufficientPermissions)
    else if s.notes[id].IsDeleted() then Failed(NoteIsDeleted)
    else if !GetLink(s, HashShareToken(env.token)).Absent? then Failed(IntegrityViolation)
    else
      var link := LinkRow(HashShareToken(env.token), id, user, env.now + Lifetime(expiry), 0, maxAccesses, true);
      Done(Log(s.(links := s.links + [link]), Some(user), NoteShareLinkCreated, id, LinkTerms(expiry, maxAccesses),
        env.now),
           LinkReply(link, env.token))
  }

  /** One more access; a used-up quota deactivates the link. */
  function Hit(link: LinkRow): LinkRow {
    var counted := link.(accessCount := link.accessCount + 1);
    if counted.QuotaReached() then counted.(isActive := false) else counted
  }

  function DoAccessLink(s: Store, token: RawToken, env: Env): Outcome {
    match GetLink(s, HashShareToken(token))
    case Absent => Failed(TokenInvalid)
    case Ambiguous => Failed(MultipleResults)
    case Unique(link) =>
      if !link.isActive then Failed(TokenInvalid)
      else if link.IsExpired(env.now) then Failed(TokenExpired)
      else if link.QuotaReached() then Failed(TokenLimitReached)
      else if link.noteId !in s.notes then Failed(IntegrityViolation)
      else if s.notes[link.noteId].IsDeleted() then Failed(NotFound)
      else
        var s' := Log(s.(links := PutLink(s.links, Hit(link))), None, NoteShareLinkAccessed, link.noteId,
                      AccessCount(Hit(link).accessCount), env.now);
        Done(s', NoteAnswer(s', link.noteId))
  }

  function Apply(cfg: Config, s: Store, req: Request): Outcome {
    if req.op.AccessShareLink? then DoAccessLink(s, req.op.token, req.env)
    else if req.user !in s.users then Failed(Unauthenticated)
    else
      match req.op
      case CreateNote(title, content, isPrivate) => DoCreate(cfg, s, req.user, title, content, isPrivate, req.env)
      case GetNote(id) => DoGet(s, req.user, id)
      case ListNotes(page, search) => DoList(s, req.user, page, search)
      case ListShared(page) => DoListShared(s, req.user, page)
      case UpdateNote(id, data) => DoUpdate(cfg, s, req.user, id, data, req.env)
      case DeleteNote(id) => DoDelete(s, req.user, id, req.env)
      case ShareNote(id, target, permission) => DoShare(s, req.user, id, target, permission, req.env)
      case UnshareNote(id, target) => DoUnshare(s, req.user, id, target, req.env)
      case PinNote(id) => DoPin(cfg, s, req.user, id, req.env)
      case UnpinNote(id) => DoUnpin(s, req.user, id, req.env)
      case GetNoteVersion(id, number) => DoGetVersion(s, req.user, id, number)
      case RestoreVersion(id, number) => DoRestore(cfg, s, req.user, id, number, req.env)
      case CreateShareLink(id, expiry, maxAccesses) => DoCreateLink(s, req.user, id, expiry, maxAccesses, req.env)
  }

  /** The committed store after a request: commit on success, rollback on any exception. */
  function Step(cfg: Config, s: Store, req: Request): Store {
    match Apply(cfg, s, req)
    case Done(s', _) => s'
    case Failed(_) => s
  }

  /** The committed store after a serial run of requests from store s. */
  function Continue(cfg: Config, s: Store, reqs: seq<Request>): Store {
    if reqs == [] then s
    else Step(cfg, Continue(cfg, s, reqs[..|reqs| - 1]), reqs[|reqs| - 1])
  }

  /** The committed store after a serial run from an empty database. */
  function Exec(cfg: Config, users: set<UserId>, reqs: seq<Request>): Store {
    Continue(cfg, EmptyStore(users), reqs)
  }

  /** What request number i of a run is answered. */
  function Answer(cfg: Config, users: set<UserId>, reqs: seq<Request>, i: nat): Outcome
    requires i < |reqs|
  {
    Apply(cfg, Exec(cfg, users, reqs[..i]), reqs[i])
  }
}
