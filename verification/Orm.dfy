/** The request-scoped session: an identity map of mutable objects over a transaction's view of the tables.

    A row object loaded twice is one object. Changes to it reach the tables only when the session is
    flushed, and flushing writes every object the session still holds that differs from its row; an
    expunged object is written no more. `commit` flushes once more before it publishes. */
module Orm {
  import opened Wrappers
  import opened Security
  import opened Models
  import opened UnitOfWork

  /** The mapped class Note, with the plain attribute `_is_decrypted` that no column stores. */
  class Note {
    const id: NoteId
    var ownerId: UserId
    var title: string
    var content: Content
    var isPrivate: bool
    var keyVersion: Option<string>
    var isPinned: bool
    var pinnedAt: Option<Time>
    var deletedAt: Option<Time>
    var updatedAt: Time
    var isDecrypted: bool

    constructor (id: NoteId, row: NoteRow)
      ensures this.id == id && Row() == row && !isDecrypted
    {
      this.id := id;
      ownerId, title, content, isPrivate, keyVersion := row.ownerId, row.title, row.content, row.isPrivate,
        row.keyVersion;
      isPinned, pinnedAt, deletedAt, updatedAt := row.isPinned, row.pinnedAt, row.deletedAt, row.updatedAt;
      isDecrypted := false;
    }

    function Row(): NoteRow
      reads this
    {
      NoteRow(ownerId, title, content, isPrivate, keyVersion, isPinned, pinnedAt, deletedAt, updatedAt)
    }

    /** `session.refresh`: every column is read back. */
    method Refresh(row: NoteRow)
      modifies this
      ensures Row() == row && isDecrypted == old(isDecrypted)
    {
      ownerId, title, content, isPrivate, keyVersion := row.ownerId, row.title, row.content, row.isPrivate,
        row.keyVersion;
      isPinned, pinnedAt, deletedAt, updatedAt := row.isPinned, row.pinnedAt, row.deletedAt, row.updatedAt;
    }
  }

  class NoteShare {
    const noteId: NoteId
    const withId: UserId
    const byId: UserId
    var permission: Permission

    constructor (row: ShareRow)
      ensures Row() == row && noteId == row.noteId && withId == row.withId
    {
      noteId, withId, byId, permission := row.noteId, row.withId, row.byId, row.permission;
    }

    function Row(): ShareRow
      reads this
    {
      ShareRow(noteId, withId, byId, permission)
    }
  }

  class ShareLink {
    const tokenHash: Digest<RawToken>
    const noteId: NoteId
    const createdBy: UserId
    const expiresAt: Time
    const maxAccesses: Option<nat>
    var accessCount: nat
    var isActive: bool

    constructor (row: LinkRow)
      ensures Row() == row && tokenHash == row.tokenHash && noteId == row.noteId
    {
      tokenHash, noteId, createdBy, expiresAt := row.tokenHash, row.noteId, row.createdBy, row.expiresAt;
      maxAccesses, accessCount, isActive := row.maxAccesses, row.accessCount, row.isActive;
    }

    function Row(): LinkRow
      reads this
    {
      LinkRow(tokenHash, noteId, createdBy, expiresAt, accessCount, maxAccesses, isActive)
    }
  }

  class Database {
    var store: Store

    constructor (users: set<UserId>)
      ensures store == EmptyStore(users)
    {
      store := EmptyStore(users);
    }
  }

  class Session {
    const db: Database
    /** The tables as this transaction sees them: what it read plus what it flushed. */
    var tx: Store
    /** The identity map, one table each. */
    var notes: map<NoteId, Note>
    var shares: map<(NoteId, UserId), NoteShare>
    var links: map<Digest<RawToken>, ShareLink>
    /** Rows added and not yet inserted. */
    var pending: seq<NewRow>

    constructor (db: Database)
      ensures this.db == db && IsNew()
    {
      this.db := db;
      tx := db.store;
      notes, shares, links, pending := map[], map[], map[], [];
    }

    ghost predicate Valid()
      reads this
    {
      && (forall n | n in notes :: notes[n].id == n && n in tx.notes)
      && (forall k | k in shares :: (shares[k].noteId, shares[k].withId) == k)
      && (forall h | h in links :: links[h].tokenHash == h)
    }

    /** As the dependency hands it out: nothing loaded, nothing written. */
    ghost predicate IsNew()
      reads this, db
    {
      tx == db.store && notes == map[] && shares == map[] && links == map[] && pending == []
    }

    function NoteRows(): map<NoteId, NoteRow>
      reads this`notes, notes.Values
    {
      map n | n in notes :: notes[n].Row()
    }

    function ShareRows(): map<(NoteId, UserId), ShareRow>
      reads this`shares, shares.Values
    {
      map k | k in shares :: shares[k].Row()
    }

    function LinkRows(): map<Digest<RawToken>, LinkRow>
      reads this`links, links.Values
    {
      map h | h in links :: links[h].Row()
    }

    /** No object the session holds differs from its row: a flush, and so a commit, would write nothing. */
    ghost predicate Clean()
      reads this, notes.Values, shares.Values, links.Values
    {
      Valid() && pending == [] && CleanTables(tx, NoteRows(), ShareRows(), LinkRows())
    }

    function Flushed(now: Time): Option<Store>
      reads this, notes.Values, shares.Values, links.Values
    {
      FlushTables(tx, pending, NoteRows(), ShareRows(), LinkRows(), now)
    }

    /** The session holds this object for its identity from now on. */
    method Register(note: Note)
      requires Valid() && note.id in tx.notes
      modifies this`notes
      ensures Valid() && notes == old(notes)[note.id := note]
      ensures NoteRows() == old(NoteRows())[note.id := note.Row()]
    {
      notes := notes[note.id := note];
    }

    method RegisterShare(share: NoteShare)
      requires Valid()
      modifies this`shares
      ensures Valid() && shares == old(shares)[(share.noteId, share.withId) := share]
      ensures ShareRows() == old(ShareRows())[(share.noteId, share.withId) := share.Row()]
    {
      shares := shares[(share.noteId, share.withId) := share];
    }

    method ForgetShare(share: NoteShare)
      requires Valid()
      modifies this`shares
      ensures Valid() && shares == old(shares) - {(share.noteId, share.withId)}
      ensures ShareRows() == old(ShareRows()) - {(share.noteId, share.withId)}
    {
      shares := shares - {(share.noteId, share.withId)};
    }

    method RegisterLink(link: ShareLink)
      requires Valid()
      modifies this`links
      ensures Valid() && links == old(links)[link.tokenHash := link]
      ensures LinkRows() == old(LinkRows())[link.tokenHash := link.Row()]
    {
      links := links[link.tokenHash := link];
    }

    method Add(r: NewRow)
      modifies this`pending
      ensures pending == old(pending) + [r]
    {
      pending := pending + [r];
    }

    /** INSERTs the added rows and UPDATEs the changed ones; false is an IntegrityError. */
    method Flush(now: Time) returns (ok: bool)
      modifies this`tx, this`pending
      ensures ok == old(Flushed(now)).Some?
      ensures ok ==> tx == old(Flushed(now)).value && pending == []
      ensures !ok ==> tx == old(tx) && pending == old(pending)
    {
      match Flushed(now) {
        case None => ok := false;
        case Some(s) =>
          tx, pending := s, [];
          ok := true;
      }
    }

    /** The common pair `session.add(row); await session.flush()`. */
    method AddAndFlush(r: NewRow, now: Time) returns (ok: bool)
      requires pending == []
      modifies this`tx, this`pending
      ensures ok == FlushTables(old(tx), [r], NoteRows(), ShareRows(), LinkRows(), now).Some?
      ensures ok ==> pending == [] && Some(tx) == FlushTables(old(tx), [r], NoteRows(), ShareRows(), LinkRows(), now)
      ensures !ok ==> tx == old(tx)
    {
      hide NoteRows, ShareRows, LinkRows;
      Add(r);
      assert pending == [r];
      ok := Flush(now);
    }

    /** `commit`: a last flush, then the transaction becomes the committed store. */
    method Commit(now: Time) returns (ok: bool)
      modifies this`tx, this`pending, db
      ensures ok == old(Flushed(now)).Some?
      ensures ok ==> db.store == old(Flushed(now)).value
      ensures !ok ==> db.store == old(db.store)
    {
      ok := Flush(now);
      if ok {
        db.store := tx;
      }
    }

    /** `rollback`: the transaction's writes and its objects are dropped. */
    method Rollback()
      modifies this
      ensures IsNew()
    {
      tx := db.store;
      notes, shares, links, pending := map[], map[], map[], [];
    }

    method Expunge(note: Note)
      requires note.id in notes
      modifies this`notes
      ensures notes == old(notes) - {note.id}
    {
      notes := notes - {note.id};
    }
  }
}
