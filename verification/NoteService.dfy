/** app/services/note_service.py in its own form: methods that load row objects, assign their fields, save, log
    and decrypt the returned object in place. Each is proved to compute the function of NoteRules. */
module ServiceLayer {
  import opened Wrappers
  import opened Security
  import opened Models
  import opened Queries
  import opened Pagination
  import opened Listing
  import opened NoteRules
  import opened UnitOfWork
  import opened Orm
  import opened Repositories

  class NoteService {
    const cfg: Config
    const session: Session
    const noteRepo: NoteRepository
    const activityRepo: ActivityRepository

    constructor (cfg: Config, session: Session)
      ensures this.cfg == cfg && this.session == session && Wired()
      ensures fresh(noteRepo) && fresh(activityRepo)
    {
      this.cfg, this.session := cfg, session;
      noteRepo := new NoteRepository(session);
      activityRepo := new ActivityRepository(session);
    }

    /** Both repositories work on the service's session. */
    ghost predicate Wired() {
      noteRepo.session == session && activityRepo.session == session
    }

    /** A request starts with a session that has loaded and written nothing. */
    ghost predicate Ready()
      reads session, session.db
    {
      Wired() && session.IsNew()
    }

    /** The transaction is the store the rules ask for, it holds nothing a commit would still write, and the note
        is returned as the rules show it. */
    ghost predicate Answers(o: Outcome, r: Result<Note, Error>)
      reads session, session.notes.Values, session.shares.Values, session.links.Values
      reads if r.Success? then {r.value} else {}
    {
      match o
      case Failed(e) => r == Failure(e)
      case Done(s, reply) =>
        r.Success? && session.tx == s && session.Clean() && reply == NoteReply(r.value.id, r.value.Row())
    }

    lemma NewIsClean()
      requires session.IsNew()
      ensures session.Clean()
    {
      assert session.NoteRows() == map[] && session.ShareRows() == map[] && session.LinkRows() == map[];
      assert WriteShares(session.tx.shares, map[]) == session.tx.shares;
      assert WriteLinks(session.tx.links, map[]) == session.tx.links;
    }

    // Helpers.

    /** The note a request is about, loaded into its new session. */
    method LoadNote(id: NoteId) returns (note: Note?)
      requires Ready()
      modifies session`notes
      ensures session.Clean() && session.shares == map[] && session.links == map[]
      ensures (note == null) == (id !in session.tx.notes)
      ensures note != null ==>
        && fresh(note) && note.id == id && note.Row() == session.tx.notes[id] && !note.isDecrypted
        && session.notes == map[id := note]
    {
      NewIsClean();
      note := noteRepo.GetById(id);
    }

    /** `_assert_can_read` and `_assert_can_write`; None lets the user pass. */
    method AssertCan(note: Note, user: UserId, write: bool) returns (error: Option<Error>)
      requires Wired() && session.Clean() && note.id in session.tx.notes
      requires note.ownerId == session.tx.notes[note.id].ownerId
      modifies session`shares
      ensures session.Clean()
      ensures error == Barrier(session.tx, note.id, user, write)
    {
      if note.ownerId == user {
        return None;
      }
      var share, ambiguous := noteRepo.GetShare(note.id, user);
      if ambiguous {
        return Some(MultipleResults);
      }
      if share != null && (!write || share.permission == Write) {
        return None;
      }
      return Some(InsufficientPermissions);
    }

    /** Snapshot the current state as a version before changing it; None when decryption raises. */
    method AddSnapshot(note: Note, user: UserId) returns (v: Option<VersionRow>)
      requires session.pending == [] && note.id in session.tx.notes && note.Row() == session.tx.notes[note.id]
      modifies session`pending
      ensures v == match Plaintext(note.Row())
        case None => None
        case Some(text) => Some(Snapshot(session.tx, note.id, text, user))
      ensures v.Some? ==> session.pending == [NewVersion(v.value)]
    {
      var number := NextVersionNumber(session.tx, note.id);
      var current := note.content;
      if note.isPrivate {
        match DecryptContent(note.content) {
          case None => return None;
          case Some(c) => current := c;
        }
      }
      v := Some(VersionRow(note.id, number, note.title, current, user));
      session.Add(NewVersion(v.value));
    }

    /** The assignments of `update_note`; false when decryption raises. */
    method AssignFields(note: Note, data: UpdateData, nonce: Nonce) returns (ok: bool)
      modifies note
      ensures ok == EditRow(cfg, old(note.Row()), data, nonce).Some?
      ensures ok ==> note.Row() == EditRow(cfg, old(note.Row()), data, nonce).value
      ensures note.isDecrypted == old(note.isDecrypted)
    {
      if data.title.Some? {
        note.title := data.title.value;
      }
      if data.content.Some? {
        if note.isPrivate || data.isPrivate == Some(true) {
          note.content, note.keyVersion := EncryptContent(Text(data.content.value), nonce), Some(cfg.keyVersion);
        } else {
          note.content := Text(data.content.value);
        }
      }
      if data.isPrivate.Some? && data.isPrivate.value != note.isPrivate {
        if data.isPrivate.value {
          if data.content.None? {
            note.content, note.keyVersion := EncryptContent(note.content, nonce), Some(cfg.keyVersion);
          }
        } else {
          if note.keyVersion.Some? && note.keyVersion.value != "" {
            match DecryptContent(note.content) {
              case None => return false;
              case Some(c) => note.content := c;
            }
          }
          note.keyVersion := None;
        }
        note.isPrivate := data.isPrivate.value;
      }
      return true;
    }

    /** `_decrypt_note_for_response`: the object is taken out of the session before its content is overwritten with
        the plaintext, and a marked object is left alone. */
    method DecryptNoteForResponse(note: Note)
      requires session.Valid()
      modifies session`notes, note
      ensures session.Valid()
      ensures old(note.isDecrypted) || !(old(note.isPrivate) && HasKey(old(note.Row()))) ==>
        note.Row() == old(note.Row()) && note.isDecrypted == old(note.isDecrypted)
          && session.notes == old(session.notes)
      ensures !old(note.isDecrypted) ==> note.Row() == Shown(old(note.Row()))
      ensures !old(note.isDecrypted) && old(note.isPrivate) && HasKey(old(note.Row())) ==>
        && session.notes == (if note.id in old(session.notes) && old(session.notes)[note.id] == note
                             then old(session.notes) - {note.id} else old(session.notes))
        && (note.isDecrypted <==> DecryptContent(old(note.content)).Some?)
    {
      if note.isPrivate && note.keyVersion.Some? && note.keyVersion.value != "" {
        if note.isDecrypted {
          return;
        }
        if note.id in session.notes && session.notes[note.id] == note {
          session.Expunge(note);
        }
        match DecryptContent(note.content) {
          case Some(c) =>
            note.content := c;
            note.isDecrypted := true;
          case None =>
            note.content := UNAVAILABLE;
        }
      }
    }

    /** Decrypting the one loaded note of a clean session leaves the session clean. */
    method Respond(note: Note)
      requires session.Clean() && session.notes == map[note.id := note] && !note.isDecrypted
      modifies session`notes, note
      ensures note.Row() == Shown(old(note.Row()))
      ensures session.Clean()
    {
      hide session.NoteRows, session.ShareRows, session.LinkRows, CleanTables, Shown;
      NoNotesClean(note);
      DecryptNoteForResponse(note);
      LoadedRows(note);
    }

    /** What the session holds of a clean note and of no note at all. */
    lemma NoNotesClean(note: Note)
      requires session.Clean() && session.notes == map[note.id := note]
      ensures CleanTables(session.tx, map[], session.ShareRows(), session.LinkRows())
      ensures CleanTables(session.tx, map[note.id := note.Row()], session.ShareRows(), session.LinkRows())
    {
      LoadedRows(note);
    }

    lemma LoadedRows(note: Note)
      ensures session.notes == map[note.id := note] ==> session.NoteRows() == map[note.id := note.Row()]
      ensures session.notes == map[] ==> session.NoteRows() == map[]
    {
    }

    /** Only this note is loaded, and everything else the session holds is clean. */
    ghost predicate Editing(note: Note)
      reads session, session.notes.Values, session.shares.Values, session.links.Values
    {
      && session.Valid() && session.notes == map[note.id := note]
      && CleanTables(session.tx, map[], session.ShareRows(), session.LinkRows())
    }

    lemma EditingIsCleanBut(note: Note)
      requires Wired() && Editing(note)
      ensures noteRepo.CleanBut(note)
    {
      assert session.NoteRows() - {note.id} == map[];
    }

    lemma LoadedIsEditing(note: Note)
      requires session.Clean() && session.notes == map[note.id := note]
      ensures Editing(note)
    {
      assert NotesClean(session.tx, map[]);
    }

    /** Save, log, decrypt for the response: the tail of every request that changes a note and answers with it. */
    method SaveLogRespond(note: Note, user: UserId, action: Action, now: Time)
      requires Wired() && Editing(note) && !note.isDecrypted && session.pending == []
      modifies session`tx, session`pending, session`notes, note
      ensures note.id in old(session.tx.notes)
      ensures session.tx == NoteRules.Log(PutNote(old(session.tx), note.id, old(note.Row()), now), Some(user), action,
        note.id, NoExtra, now)
      ensures note.Row() == Shown(session.tx.notes[note.id])
      ensures session.Clean()
    {
      hide session.NoteRows, session.ShareRows, session.LinkRows, CleanTables, Find;
      EditingIsCleanBut(note);
      var saved := noteRepo.Save(note, None, now);
      assert old(session.tx.versions) + [] == old(session.tx.versions);
      LogRespond(note, user, action, NoExtra, now);
    }

    method LogRespond(note: Note, user: UserId, action: Action, extra: Extra, now: Time)
      requires Wired() && session.Clean() && session.notes == map[note.id := note] && !note.isDecrypted
      requires note.id in session.tx.notes
      modifies session`tx, session`pending, session`notes, note
      ensures session.tx == NoteRules.Log(old(session.tx), Some(user), action, note.id, extra, now)
      ensures note.Row() == Shown(old(note.Row()))
      ensures session.Clean()
    {
      hide session.NoteRows, session.ShareRows, session.LinkRows, CleanTables;
      var logged := activityRepo.Log(Some(user), action, note.id, extra, now);
      Respond(note);
    }

    /** The same tail when a snapshot of the note was added before; its number is free. */
    method SaveSnapshotLogRespond(note: Note, ghost v: VersionRow, user: UserId, action: Action, extra: Extra,
                                  now: Time)
      requires Wired() && Editing(note) && !note.isDecrypted && session.pending == [NewVersion(v)]
      requires v.noteId == note.id && v.number == NextVersionNumber(session.tx, note.id)
      modifies session`tx, session`pending, session`notes, note
      ensures note.id in old(session.tx.notes)
      ensures session.tx == NoteRules.Log(
        PutNote(old(session.tx), note.id, old(note.Row()), now).(versions := old(session.tx.versions) + [v]),
        Some(user), action, note.id, extra, now)
      ensures note.Row() == Shown(session.tx.notes[note.id])
      ensures session.Clean()
    {
      hide session.NoteRows, session.ShareRows, session.LinkRows, CleanTables, Find;
      EditingIsCleanBut(note);
      NextNumberIsFree(session.tx, note.id);
      var saved := noteRepo.Save(note, Some(v), now);
      LogRespond(note, user, action, extra, now);
    }

    // The requests.

    method CreateNote(user: UserId, title: string, content: string, isPrivate: bool, env: Env)
      returns (r: Result<Note, Error>)
      requires Ready() && user in session.tx.users
      modifies session
      ensures Answers(DoCreate(cfg, old(session.tx), user, title, content, isPrivate, env), r)
    {
      NewIsClean();
      var stored, keyVersion := Text(content), None;
      if isPrivate {
        stored, keyVersion := EncryptContent(Text(content), env.nonce), Some(cfg.keyVersion);
      }
      var row := NoteRow(user, title, stored, isPrivate, keyVersion, false, None, None, env.now);
      var note := noteRepo.Create(env.newId, row, env.now);
      if note == null {
        return Failure(IntegrityViolation);
      }
      var logged := activityRepo.Log(Some(user), NoteCreated, note.id, CreatedAs(title, isPrivate), env.now);
      Respond(note);
      return Success(note);
    }

    method GetNote(user: UserId, id: NoteId) returns (r: Result<Note, Error>)
      requires Ready()
      modifies session
      ensures Answers(DoGet(old(session.tx), user, id), r)
    {
      var note := LoadNote(id);
      if note == null {
        return Failure(NotFound);
      }
      if note.deletedAt.Some? {
        return Failure(NoteIsDeleted);
      }
      var barrier := AssertCan(note, user, false);
      if barrier.Some? {
        return Failure(barrier.value);
      }
      Respond(note);
      return Success(note);
    }

    /** The part of `update_note` after its guards: snapshot, assign, save, log, decrypt. */
    method EditNote(note: Note, user: UserId, data: UpdateData, env: Env) returns (r: Result<Note, Error>)
      requires Wired() && session.Clean() && session.notes == map[note.id := note] && !note.isDecrypted
      requires note.id in session.tx.notes && note.Row() == session.tx.notes[note.id]
      modifies session`tx, session`pending, session`notes, note
      ensures Answers(Edit(cfg, old(session.tx), user, note.id, data, env), r)
    {
      hide session.NoteRows, session.ShareRows, session.LinkRows, CleanTables, NotesClean;
      hide Find, EditRow, Shown, Stamp, Plaintext, NextVersionNumber;
      LoadedIsEditing(note);
      var snapshot := AddSnapshot(note, user);
      if snapshot.None? {
        return Failure(DecryptionFailed);
      }
      var edited := AssignFields(note, data, env.nonce);
      if !edited {
        return Failure(DecryptionFailed);
      }
      SaveSnapshotLogRespond(note, snapshot.value, user, NoteUpdated, VersionSaved(snapshot.value.number), env.now);
      return Success(note);
    }

    method UpdateNote(user: UserId, id: NoteId, data: UpdateData, env: Env) returns (r: Result<Note, Error>)
      requires Ready()
      modifies session
      ensures Answers(DoUpdate(cfg, old(session.tx), user, id, data, env), r)
    {
      var note := LoadNote(id);
      if note == null {
        return Failure(NotFound);
      }
      if note.deletedAt.Some? {
        return Failure(NoteIsDeleted);
      }
      var barrier := AssertCan(note, user, true);
      if barrier.Some? {
        return Failure(barrier.value);
      }
      r := EditNote(note, user, data, env);
    }

    method DeleteNote(user: UserId, id: NoteId, env: Env) returns (r: Result<(), Error>)
      requires Ready()
      modifies session
      ensures match DoDelete(old(session.tx), user, id, env)
        case Failed(e) => r == Failure(e)
        case Done(s, reply) => r == Success(()) && reply == NoReply && session.tx == s && session.Clean()
    {
      var note := LoadNote(id);
      if note == null {
        return Failure(NotFound);
      }
      if note.deletedAt.Some? {
        return Failure(NoteIsDeleted);
      }
      if note.ownerId != user {
        return Failure(InsufficientPermissions);
      }
      MarkDeleted(note, env.now);
      var logged := activityRepo.Log(Some(user), NoteDeleted, note.id, NoExtra, env.now);
      return Success(());
    }

    method MarkDeleted(note: Note, now: Time)
      requires Wired() && session.Clean() && session.notes == map[note.id := note]
      modifies session`tx, session`pending, note
      ensures note.id in old(session.tx.notes)
      ensures session.tx == PutNote(old(session.tx), note.id,
        old(note.Row()).(deletedAt := Some(now), isPinned := false, pinnedAt := None), now)
      ensures session.Clean()
    {
      hide session.NoteRows, session.ShareRows, session.LinkRows, CleanTables, NotesClean, Find;
      LoadedIsEditing(note);
      note.deletedAt, note.isPinned, note.pinnedAt := Some(now), false, None;
      EditingIsCleanBut(note);
      assert session.tx.versions + [] == session.tx.versions;
      var saved := noteRepo.Save(note, None, now);
    }

    method ShareNote(user: UserId, id: NoteId, target: UserId, permission: Permission, env: Env)
      returns (r: Result<NoteShare, Error>)
      requires Ready()
      modifies session
      ensures match DoShare(old(session.tx), user, id, target, permission, env)
        case Failed(e) => r == Failure(e)
        case Done(s, reply) => r.Success? && session.tx == s && session.Clean() && reply == ShareReply(r.value.Row())
    {
      var note := LoadNote(id);
      if note == null {
        return Failure(NotFound);
      }
      if note.ownerId != user {
        return Failure(InsufficientPermissions);
      }
      if target == user {
        return Failure(Conflict);
      }
      if note.deletedAt.Some? {
        return Failure(NoteIsDeleted);
      }
      var existing, ambiguous := noteRepo.GetShare(id, target);
      if ambiguous {
        return Failure(MultipleResults);
      }
      if existing != null {
        if existing.permission != permission {
          ChangePermission(existing, permission, env.now);
          return Success(existing);
        }
        return Failure(Conflict);
      }
      r := AddShare(user, id, target, permission, env);
    }

    method ChangePermission(share: NoteShare, permission: Permission, now: Time)
      requires session.Clean() && session.shares == map[(share.noteId, share.withId) := share]
      modifies session`tx, session`pending, share
      ensures share.Row() == old(share.Row()).(permission := permission)
      ensures session.tx == old(session.tx).(shares := PutShare(old(session.tx.shares), share.Row()))
      ensures session.Clean()
    {
      hide session.NoteRows, session.ShareRows, session.LinkRows, NotesClean, WriteShares, WriteLinks;
      OneShare(share);
      ghost var image := session.ShareRows();
      share.permission := permission;
      OneShare(share);
      FlushShareUpdate(session.tx, share.Row(), session.NoteRows(), image, session.LinkRows(), now);
      assert image[(share.noteId, share.withId) := share.Row()] == session.ShareRows();
      var ok := session.Flush(now);
    }

    lemma OneShare(share: NoteShare)
      requires session.shares == map[(share.noteId, share.withId) := share]
      ensures session.ShareRows() == map[(share.noteId, share.withId) := share.Row()]
    {
    }

    method AddShare(user: UserId, id: NoteId, target: UserId, permission: Permission, env: Env)
      returns (r: Result<NoteShare, Error>)
      requires Wired() && session.Clean() && session.shares == map[] && id in session.tx.notes
      requires Find(session.tx.shares, ShareOf(id, target)).Absent?
      modifies session
      ensures var row := ShareRow(id, target, user, permission);
        if target !in old(session.tx.users) then r == Failure(IntegrityViolation)
        else
          && r.Success? && r.value.Row() == row && session.Clean()
          && session.tx == NoteRules.Log(old(session.tx).(shares := old(session.tx.shares) + [row]),
                                         Some(user), NoteShared, id, SharedWith(target, permission), env.now)
    {
      var share := noteRepo.InsertShare(ShareRow(id, target, user, permission), env.now);
      if share == null {
        return Failure(IntegrityViolation);
      }
      var logged := activityRepo.Log(Some(user), NoteShared, id, SharedWith(target, permission), env.now);
      return Success(share);
    }

    method UnshareNote(user: UserId, id: NoteId, target: UserId, env: Env) returns (r: Result<(), Error>)
      requires Ready()
      modifies session
      ensures match DoUnshare(old(session.tx), user, id, target, env)
        case Failed(e) => r == Failure(e)
        case Done(s, reply) => r == Success(()) && reply == NoReply && session.tx == s && session.Clean()
    {
      var note := LoadNote(id);
      if note == null || note.ownerId != user {
        return Failure(InsufficientPermissions);
      }
      var share, ambiguous := noteRepo.GetShare(id, target);
      if ambiguous {
        return Failure(MultipleResults);
      }
      if share == null {
        return Failure(NotFound);
      }
      noteRepo.DeleteShare(share, env.now);
      var logged := activityRepo.Log(Some(user), NoteUnshared, id, RemovedUser(target), env.now);
      return Success(());
    }

    method PinNote(user: UserId, id: NoteId, env: Env) returns (r: Result<Note, Error>)
      requires Ready()
      modifies session
      ensures Answers(DoPin(cfg, old(session.tx), user, id, env), r)
    {
      hide session.NoteRows, session.ShareRows, session.LinkRows, CleanTables, PinnedNotes;
      var note := LoadNote(id);
      if note == null {
        return Failure(NotFound);
      }
      if note.deletedAt.Some? {
        return Failure(NoteIsDeleted);
      }
      if note.ownerId != user {
        return Failure(InsufficientPermissions);
      }
      if note.isPinned {
        return Failure(Conflict);
      }
      var pinnedCount := |PinnedNotes(session.tx, user)|;
      if pinnedCount >= cfg.maxPinned {
        return Failure(PinLimitExceeded);
      }
      LoadedIsEditing(note);
      note.isPinned, note.pinnedAt := true, Some(env.now);
      SaveLogRespond(note, user, NotePinned, env.now);
      return Success(note);
    }

    method UnpinNote(user: UserId, id: NoteId, env: Env) returns (r: Result<Note, Error>)
      requires Ready()
      modifies session
      ensures Answers(DoUnpin(old(session.tx), user, id, env), r)
    {
      hide session.NoteRows, session.ShareRows, session.LinkRows, CleanTables;
      var note := LoadNote(id);
      if note == null {
        return Failure(NotFound);
      }
      if note.ownerId != user {
        return Failure(InsufficientPermissions);
      }
      if !note.isPinned {
        return Failure(Conflict);
      }
      LoadedIsEditing(note);
      note.isPinned, note.pinnedAt := false, None;
      SaveLogRespond(note, user, NoteUnpinned, env.now);
      return Success(note);
    }

    method GetVersion(user: UserId, id: NoteId, number: int) returns (r: Result<VersionRow, Error>)
      requires Ready()
      modifies session
      ensures match DoGetVersion(old(session.tx), user, id, number)
        case Failed(e) => r == Failure(e)
        case Done(s, reply) => r.Success? && session.tx == s && session.Clean() && reply == VersionReply(r.value)
    {
      var note := LoadNote(id);
      if note == null {
        return Failure(NotFound);
      }
      var barrier := AssertCan(note, user, false);
      if barrier.Some? {
        return Failure(barrier.value);
      }
      match Queries.GetVersion(session.tx, id, number)
      case Absent => return Failure(NotFound);
      case Ambiguous => return Failure(MultipleResults);
      case Unique(v) => return Success(v);
    }

    method RestoreVersion(user: UserId, id: NoteId, number: int, env: Env) returns (r: Result<Note, Error>)
      requires Ready()
      modifies session
      ensures Answers(DoRestore(cfg, old(session.tx), user, id, number, env), r)
    {
      var note := LoadNote(id);
      if note == null {
        return Failure(NotFound);
      }
      if note.deletedAt.Some? {
        return Failure(NoteIsDeleted);
      }
      if note.ownerId != user {
        return Failure(InsufficientPermissions);
      }
      match Queries.GetVersion(session.tx, id, number)
      case Absent => return Failure(NotFound);
      case Ambiguous => return Failure(MultipleResults);
      case Unique(v) => r := RestoreFrom(note, v, user, env);
    }

    /** The part of `restore_version` after its guards. */
    method RestoreFrom(note: Note, v: VersionRow, user: UserId, env: Env) returns (r: Result<Note, Error>)
      requires Wired() && session.Clean() && session.notes == map[note.id := note] && !note.isDecrypted
      requires note.id in session.tx.notes && note.Row() == session.tx.notes[note.id]
      modifies session`tx, session`pending, session`notes, note
      ensures Answers(Restore(cfg, old(session.tx), user, note.id, v, env), r)
    {
      hide session.NoteRows, session.ShareRows, session.LinkRows, CleanTables, NotesClean;
      hide Find, Shown, Stamp, Plaintext, NextVersionNumber;
      LoadedIsEditing(note);
      var snapshot := AddSnapshot(note, user);
      if snapshot.None? {
        return Failure(DecryptionFailed);
      }
      AssignRestored(note, v, env.nonce);
      SaveSnapshotLogRespond(note, snapshot.value, user, NoteVersionRestored,
        Restored(v.number, snapshot.value.number), env.now);
      return Success(note);
    }

    /** The assignments of `restore_version`. */
    method AssignRestored(note: Note, v: VersionRow, nonce: Nonce)
      modifies note
      ensures note.Row() == RestoreRow(cfg, old(note.Row()), v, nonce) && note.isDecrypted == old(note.isDecrypted)
    {
      note.title := v.title;
      if note.isPrivate {
        note.content, note.keyVersion := EncryptContent(v.content, nonce), Some(cfg.keyVersion);
      } else {
        note.content := v.content;
      }
    }

    method CreateShareLink(user: UserId, id: NoteId, expiry: Expiry, maxAccesses: Option<Quota>, env: Env)
      returns (r: Result<ShareLink, Error>)
      requires Ready()
      modifies session
      ensures match DoCreateLink(old(session.tx), user, id, expiry, maxAccesses, env)
        case Failed(e) => r == Failure(e)
        case Done(s, reply) =>
          r.Success? && session.tx == s && session.Clean() && reply == LinkReply(r.value.Row(), env.token)
    {
      hide session.NoteRows, session.ShareRows, session.LinkRows, CleanTables, Find;
      var note := LoadNote(id);
      if note == null {
        return Failure(NotFound);
      }
      if note.ownerId != user {
        return Failure(InsufficientPermissions);
      }
      if note.deletedAt.Some? {
        return Failure(NoteIsDeleted);
      }
      r := AddLink(user, id, expiry, maxAccesses, env);
    }

    method AddLink(user: UserId, id: NoteId, expiry: Expiry, maxAccesses: Option<Quota>, env: Env)
      returns (r: Result<ShareLink, Error>)
      requires Wired() && session.Clean() && session.links == map[] && id in session.tx.notes
      modifies session
      ensures var row := LinkRow(HashShareToken(env.token), id, user, env.now + Lifetime(expiry), 0, maxAccesses, true);
        if !GetLink(old(session.tx), row.tokenHash).Absent? then r == Failure(IntegrityViolation)
        else
          && r.Success? && r.value.Row() == row && session.Clean()
          && session.tx == NoteRules.Log(old(session.tx).(links := old(session.tx.links) + [row]),
                                         Some(user), NoteShareLinkCreated, id, LinkTerms(expiry, maxAccesses), env.now)
    {
      var row := LinkRow(HashShareToken(env.token), id, user, env.now + Lifetime(expiry), 0, maxAccesses, true);
      var link := noteRepo.InsertLink(row, env.now);
      if link == null {
        return Failure(IntegrityViolation);
      }
      var logged := activityRepo.Log(Some(user), NoteShareLinkCreated, id, LinkTerms(expiry, maxAccesses), env.now);
      return Success(link);
    }

    /** The link is counted, and may be deactivated, before its note is looked at: a refusal at the end leaves those
        writes in the transaction, for the rollback to drop. */
    method AccessShareLink(token: RawToken, env: Env) returns (r: Result<Note, Error>)
      requires Ready()
      modifies session
      ensures Answers(DoAccessLink(old(session.tx), token, env), r)
    {
      hide session.NoteRows, session.ShareRows, session.LinkRows, CleanTables, Find, Shown, PutLink, session.Clean;
      NewIsClean();
      var link, note, ambiguous := noteRepo.GetShareLinkByHash(HashShareToken(token));
      if ambiguous {
        return Failure(MultipleResults);
      }
      if link == null || !link.isActive {
        return Failure(TokenInvalid);
      }
      if env.now > link.expiresAt {
        return Failure(TokenExpired);
      }
      if link.maxAccesses.Some? && link.maxAccesses.value != 0 && link.accessCount >= link.maxAccesses.value {
        return Failure(TokenLimitReached);
      }
      CountAccess(link, env.now);
      var logged := activityRepo.Log(None, NoteShareLinkAccessed, link.noteId, AccessCount(link.accessCount), env.now);
      if !logged {
        return Failure(IntegrityViolation);
      }
      if note == null || note.deletedAt.Some? {
        return Failure(NotFound);
      }
      Respond(note);
      return Success(note);
    }

    /** The assignments of `access_share_link` and their flush. */
    method CountAccess(link: ShareLink, now: Time)
      requires session.Clean() && session.links == map[link.tokenHash := link]
      modifies session`tx, session`pending, link
      ensures link.Row() == Hit(old(link.Row()))
      ensures session.tx == old(session.tx).(links := PutLink(old(session.tx.links), link.Row()))
      ensures session.Clean()
    {
      hide session.NoteRows, session.ShareRows, session.LinkRows, NotesClean, WriteShares, WriteLinks, Hit;
      OneLink(link);
      ghost var image := session.LinkRows();
      CountOne(link);
      OneLink(link);
      FlushLinkUpdate(session.tx, link.Row(), session.NoteRows(), session.ShareRows(), image, now);
      assert image[link.tokenHash := link.Row()] == session.LinkRows();
      var ok := session.Flush(now);
    }

    method CountOne(link: ShareLink)
      modifies link
      ensures link.Row() == Hit(old(link.Row()))
    {
      link.accessCount := link.accessCount + 1;
      if link.maxAccesses.Some? && link.maxAccesses.value != 0 && link.accessCount >= link.maxAccesses.value {
        link.isActive := false;
      }
    }

    lemma OneLink(link: ShareLink)
      requires session.links == map[link.tokenHash := link]
      ensures session.LinkRows() == map[link.tokenHash := link.Row()]
    {
    }

    method ListNotes(user: UserId, page: PageParams, search: Option<set<NoteId>>) returns (notes: seq<Note>, total: nat)
      requires Ready()
      modifies session
      ensures Lists(DoList(old(session.tx), user, page, search), notes, total)
    {
      hide session.NoteRows, session.ShareRows, session.LinkRows, CleanTables, OwnedList, OwnedNotes, Window;
      NewIsClean();
      notes, total := noteRepo.GetOwnedNotes(user, page, search, true);
      DecryptAll(notes, Window(OwnedList(session.tx, user, search, true), page));
    }

    method ListSharedNotes(user: UserId, page: PageParams) returns (notes: seq<Note>, total: nat)
      requires Ready()
      modifies session
      ensures Lists(DoListShared(old(session.tx), user, page), notes, total)
    {
      hide session.NoteRows, session.ShareRows, session.LinkRows, CleanTables, SharedList, SharedJoin, Window;
      NewIsClean();
      notes, total := noteRepo.GetSharedNotes(user, page);
      DecryptAll(notes, Window(SharedList(session.tx, user), page));
    }

    /** The list as the rules give it, item by item. */
    ghost predicate Lists(o: Outcome, notes: seq<Note>, total: nat)
      reads session, session.notes.Values, session.shares.Values, session.links.Values, notes
    {
      && o.Done? && o.store == session.tx && session.Clean()
      && o.reply.NotesReply? && o.reply.total == total && |o.reply.notes| == |notes|
      && forall i | 0 <= i < |notes| :: o.reply.notes[i] == (notes[i].id, notes[i].Row())
    }

    /** The object as it was loaded from this row. */
    ghost predicate Untouched(note: Note, row: NoteRow)
      reads note
    {
      note.Row() == row && !note.isDecrypted
    }

    /** The object shows this row to the client, and decrypting it once more would change nothing. */
    ghost predicate Displays(note: Note, row: NoteRow)
      reads note
    {
      note.Row() == Shown(row) && (note.isDecrypted || Shown(Shown(row)) == Shown(row))
    }

    /** Decrypting shows the row, whether or not it was shown before. */
    method Display(note: Note, ghost row: NoteRow)
      requires session.Valid() && (Untouched(note, row) || Displays(note, row))
      modifies session`notes, note
      ensures session.Valid() && Displays(note, row)
      ensures old(Displays(note, row)) ==> note.Row() == old(note.Row()) && note.isDecrypted == old(note.isDecrypted)
      ensures session.notes == old(session.notes) || session.notes == old(session.notes) - {note.id}
      ensures note.id in session.notes && session.notes[note.id] == note ==>
        note.Row() == old(note.Row()) && note.isDecrypted == old(note.isDecrypted)
    {
      DecryptNoteForResponse(note);
    }

    /** Every object of the session that stands for a note is as its row says. */
    ghost predicate RowsHold()
      reads session, session.notes.Values
    {
      session.Valid() && forall n | n in session.notes :: session.notes[n].Row() == session.tx.notes[n]
    }

    lemma CleanRowsHold()
      requires session.Clean()
      ensures RowsHold() && SidesClean()
    {
      forall n | n in session.notes
        ensures session.notes[n].Row() == session.tx.notes[n]
      {
        assert session.NoteRows()[n] == session.notes[n].Row();
      }
    }

    lemma LoadedAreUntouched()
      requires RowsHold() && forall n | n in session.notes :: !session.notes[n].isDecrypted
      ensures forall n | n in session.notes :: Untouched(session.notes[n], session.tx.notes[n])
    {
    }

    lemma DisplaysShow()
      ensures forall note: Note, row: NoteRow | Displays(note, row) :: note.Row() == Shown(row)
    {
    }

    ghost predicate SidesClean()
      reads session`pending, session`tx, session`shares, session`links, session.shares.Values, session.links.Values
    {
      session.pending == [] && CleanTables(session.tx, map[], session.ShareRows(), session.LinkRows())
    }

    lemma RowsHoldClean()
      requires RowsHold() && SidesClean()
      ensures session.Clean()
    {
    }

    /** The list comprehension over `_decrypt_note_for_response`. */
    method DecryptAll(notes: seq<Note>, ghost ids: seq<NoteId>)
      requires Wired() && session.Clean() && noteRepo.Loaded(notes, ids)
      modifies session`notes, session.notes.Values
      ensures session.Clean() && |notes| == |ids|
      ensures forall i | 0 <= i < |ids| ::
        ids[i] in session.tx.notes && notes[i].id == ids[i] && notes[i].Row() == Shown(session.tx.notes[ids[i]])
    {
      hide session.NoteRows, session.ShareRows, session.LinkRows, CleanTables, Shown, session.Clean, SidesClean,
        Untouched, Displays;
      CleanRowsHold();
      LoadedAreUntouched();
      ghost var loaded := session.notes;
      for i := 0 to |notes|
        invariant RowsHold() && SidesClean()
        invariant forall n | n in session.notes :: n in loaded && session.notes[n] == loaded[n]
        invariant forall n | n in loaded ::
          Untouched(loaded[n], session.tx.notes[n]) || Displays(loaded[n], session.tx.notes[n])
        invariant forall j | 0 <= j < i :: Displays(notes[j], session.tx.notes[ids[j]])
      {
        assert notes[i] == loaded[ids[i]];
        Display(notes[i], session.tx.notes[ids[i]]);
      }
      RowsHoldClean();
      DisplaysShow();
    }
  }
}
