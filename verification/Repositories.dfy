/** base_repository.py, note_repository.py and activity_repository.py over a session. */
module Repositories {
  import opened Wrappers
  import opened Security
  import opened Models
  import opened Queries
  import opened Pagination
  import opened Listing
  import opened NoteRules
  import opened UnitOfWork
  import opened Orm

  class NoteRepository {
    const session: Session

    constructor (session: Session)
      ensures this.session == session
    {
      this.session := session;
    }

    /** `get_by_id`: the SELECT's row, as the object the identity map holds for it, if it holds one. */
    method GetById(id: NoteId) returns (note: Note?)
      requires session.Valid()
      modifies session`notes
      ensures session.Valid()
      ensures id !in session.tx.notes ==> note == null && session.notes == old(session.notes)
      ensures id in session.tx.notes ==>
        note != null && note.id == id && session.notes == old(session.notes)[id := note]
      ensures id in old(session.notes) ==> note == old(session.notes)[id] && session.notes == old(session.notes)
      ensures id !in old(session.notes) && id in session.tx.notes ==>
        fresh(note) && note.Row() == session.tx.notes[id] && !note.isDecrypted
        && session.NoteRows() == old(session.NoteRows())[id := note.Row()]
    {
      if id !in session.tx.notes {
        note := null;
      } else if id in session.notes {
        note := session.notes[id];
      } else {
        note := new Note(id, session.tx.notes[id]);
        session.Register(note);
      }
    }

    /** `create`: add, flush, refresh. */
    method Create(id: NoteId, row: NoteRow, now: Time) returns (note: Note?)
      requires session.Clean()
      modifies session`tx, session`pending, session`notes
      ensures (note == null) == (id in old(session.tx.notes) || row.ownerId !in old(session.tx.users))
      ensures note != null ==>
        && fresh(note) && note.id == id && note.Row() == row && !note.isDecrypted
        && session.notes == old(session.notes)[id := note]
        && session.tx == old(session.tx).(notes := old(session.tx.notes)[id := row])
        && session.Clean()
    {
      hide session.NoteRows, session.ShareRows, session.LinkRows, CleanTables;
      var ok := FlushCreated(id, row, now);
      if !ok {
        note := null;
      } else {
        note := new Note(id, row);
        session.Register(note);
      }
    }

    method FlushCreated(id: NoteId, row: NoteRow, now: Time) returns (ok: bool)
      requires session.Clean()
      modifies session`tx, session`pending
      ensures ok == (id !in old(session.tx.notes) && row.ownerId in old(session.tx.users))
      ensures ok ==>
        && session.tx == old(session.tx).(notes := old(session.tx.notes)[id := row])
        && session.Valid() && session.pending == []
        && CleanTables(session.tx, session.NoteRows()[id := row], session.ShareRows(), session.LinkRows())
    {
      hide session.NoteRows, session.ShareRows, session.LinkRows, CleanTables;
      FlushNewNote(session.tx, id, row, session.NoteRows(), session.ShareRows(), session.LinkRows(), now);
      ok := session.AddAndFlush(NewNote(id, row), now);
    }

    /** Every loaded object but this note is clean. */
    ghost predicate CleanBut(note: Note)
      reads this, session, session.notes.Values, session.shares.Values, session.links.Values
    {
      && session.Valid() && note.id in session.notes && session.notes[note.id] == note
      && CleanTables(session.tx, session.NoteRows() - {note.id}, session.ShareRows(), session.LinkRows())
    }

    /** `save`: add, flush, refresh. A snapshot added before goes out with the same flush. */
    method Save(note: Note, ghost snapshot: Option<VersionRow>, now: Time) returns (ok: bool)
      requires CleanBut(note)
      requires session.pending == if snapshot.Some? then [NewVersion(snapshot.value)] else []
      requires snapshot.Some? ==> snapshot.value.noteId == note.id
      modifies session`tx, session`pending, note
      ensures ok == (snapshot.Some? ==>
        Find(old(session.tx.versions), VersionKey(note.id, snapshot.value.number)).Absent?)
      ensures ok ==>
        && session.tx == old(session.tx).(
             versions := old(session.tx.versions) + if snapshot.Some? then [snapshot.value] else [],
             notes := old(session.tx.notes)[note.id := Stamp(old(session.tx.notes[note.id]), old(note.Row()), now)])
        && note.Row() == session.tx.notes[note.id] && note.isDecrypted == old(note.isDecrypted)
        && session.Clean()
    {
      hide session.NoteRows, session.ShareRows, session.LinkRows, CleanTables, NotesClean, Stamp, Find;
      ghost var ns := session.NoteRows() - {note.id};
      LoadedRows(note);
      ok := FlushNote(note, snapshot, ns, now);
      if ok {
        RefreshNote(note, ns);
      }
    }

    lemma LoadedRows(note: Note)
      requires note.id in session.notes && session.notes[note.id] == note
      ensures session.NoteRows() == (session.NoteRows() - {note.id})[note.id := note.Row()]
    {
    }

    method RefreshNote(note: Note, ghost ns: NoteImage)
      requires session.Valid() && note.id in session.notes && session.notes[note.id] == note && session.pending == []
      requires session.NoteRows() == ns[note.id := note.Row()]
      requires CleanTables(session.tx, ns[note.id := session.tx.notes[note.id]], session.ShareRows(),
        session.LinkRows())
      modifies note
      ensures note.Row() == session.tx.notes[note.id] && note.isDecrypted == old(note.isDecrypted)
      ensures session.Clean()
    {
      hide session.ShareRows, session.LinkRows, CleanTables;
      note.Refresh(session.tx.notes[note.id]);
      var rows := session.NoteRows();
      forall n | n in rows && n != note.id
        ensures rows[n] == old(session.NoteRows())[n]
      {
      }
      assert rows == ns[note.id := note.Row()];
    }

    method FlushNote(note: Note, ghost snapshot: Option<VersionRow>, ghost ns: NoteImage, now: Time) returns (ok: bool)
      requires session.Valid() && note.id in session.tx.notes
      requires CleanTables(session.tx, ns, session.ShareRows(), session.LinkRows())
      requires session.NoteRows() == ns[note.id := note.Row()]
      requires session.pending == if snapshot.Some? then [NewVersion(snapshot.value)] else []
      requires snapshot.Some? ==> snapshot.value.noteId == note.id
      modifies session`tx, session`pending
      ensures ok == (snapshot.Some? ==>
        Find(old(session.tx.versions), VersionKey(note.id, snapshot.value.number)).Absent?)
      ensures ok ==>
        && session.tx == old(session.tx).(
             versions := old(session.tx.versions) + if snapshot.Some? then [snapshot.value] else [],
             notes := old(session.tx.notes)[note.id := Stamp(old(session.tx.notes[note.id]), note.Row(), now)])
        && session.pending == []
        && CleanTables(session.tx, ns[note.id := session.tx.notes[note.id]], session.ShareRows(), session.LinkRows())
    {
      hide session.NoteRows, session.ShareRows, session.LinkRows;
      ghost var s := session.tx;
      if snapshot.Some? {
        FlushSave(s, snapshot.value, note.id, note.Row(), ns, session.ShareRows(), session.LinkRows(), now);
      } else {
        FlushUpdate(s, note.id, note.Row(), ns, session.ShareRows(), session.LinkRows(), now);
        assert s.versions + [] == s.versions;
      }
      ok := session.Flush(now);
    }

    /** `get_share`, as an object of the identity map; ambiguous stands for MultipleResultsFound. */
    method GetShare(id: NoteId, user: UserId) returns (share: NoteShare?, ambiguous: bool)
      requires session.Clean()
      modifies session`shares
      ensures session.Clean()
      ensures ambiguous == Find(session.tx.shares, ShareOf(id, user)).Ambiguous?
      ensures (share == null) == !Find(session.tx.shares, ShareOf(id, user)).Unique?
      ensures share == null || (id, user) in old(session.shares) ==> session.shares == old(session.shares)
      ensures share != null && (id, user) in old(session.shares) ==> share == old(session.shares)[(id, user)]
      ensures share != null && (id, user) !in old(session.shares) ==>
        && fresh(share) && share.Row() == Find(session.tx.shares, ShareOf(id, user)).row
        && share.noteId == id && share.withId == user
        && session.shares == old(session.shares)[(id, user) := share]
    {
      hide session.NoteRows, session.ShareRows, session.LinkRows;
      share, ambiguous := null, false;
      match Find(session.tx.shares, ShareOf(id, user)) {
        case Absent =>
        case Ambiguous => ambiguous := true;
        case Unique(row) =>
          assert row.noteId == id && row.withId == user;
          if (id, user) in session.shares {
            share := session.shares[(id, user)];
          } else {
            LoadedShareIsClean(session.tx.shares, session.ShareRows(), row);
            share := new NoteShare(row);
            session.RegisterShare(share);
          }
      }
    }

    lemma NotLoaded()
      ensures session.ShareRows().Keys == session.shares.Keys && session.LinkRows().Keys == session.links.Keys
    {
    }

    /** A new share row: add, flush, refresh. */
    method InsertShare(row: ShareRow, now: Time) returns (share: NoteShare?)
      requires session.Clean() && row.noteId in session.tx.notes
      requires (row.noteId, row.withId) !in session.shares
      requires Find(session.tx.shares, ShareOf(row.noteId, row.withId)).Absent?
      modifies session`tx, session`pending, session`shares
      ensures (share == null) == (row.withId !in old(session.tx.users))
      ensures share != null ==>
        && fresh(share) && share.Row() == row && session.Clean()
        && session.tx == old(session.tx).(shares := old(session.tx.shares) + [row])
    {
      hide session.NoteRows, session.ShareRows, session.LinkRows, CleanTables, Find;
      var ok := FlushShare(row, now);
      share := null;
      if ok {
        share := new NoteShare(row);
        session.RegisterShare(share);
      }
    }

    method FlushShare(row: ShareRow, now: Time) returns (ok: bool)
      requires session.Clean() && row.noteId in session.tx.notes
      requires (row.noteId, row.withId) !in session.shares
      requires Find(session.tx.shares, ShareOf(row.noteId, row.withId)).Absent?
      modifies session`tx, session`pending
      ensures ok == (row.withId in old(session.tx.users))
      ensures ok ==>
        && session.tx == old(session.tx).(shares := old(session.tx.shares) + [row])
        && session.Valid() && session.pending == []
        && CleanTables(session.tx, session.NoteRows(), session.ShareRows()[(row.noteId, row.withId) := row],
          session.LinkRows())
    {
      hide session.NoteRows, session.ShareRows, session.LinkRows, Find, NotesClean, WriteShares, WriteLinks;
      hide CleanTables;
      NotLoaded();
      FlushNewShare(session.tx, row, session.NoteRows(), session.ShareRows(), session.LinkRows(), now);
      ok := session.AddAndFlush(NewShare(row), now);
    }

    /** A new link row: add, flush, refresh. */
    method InsertLink(row: LinkRow, now: Time) returns (link: ShareLink?)
      requires session.Clean() && row.noteId in session.tx.notes && row.tokenHash !in session.links
      modifies session`tx, session`pending, session`links
      ensures (link == null) == !Find(old(session.tx.links), LinkWith(row.tokenHash)).Absent?
      ensures link != null ==>
        && fresh(link) && link.Row() == row && session.Clean()
        && session.tx == old(session.tx).(links := old(session.tx.links) + [row])
    {
      hide session.NoteRows, session.ShareRows, session.LinkRows, CleanTables, Find;
      var ok := FlushLink(row, now);
      link := null;
      if ok {
        link := new ShareLink(row);
        session.RegisterLink(link);
      }
    }

    method FlushLink(row: LinkRow, now: Time) returns (ok: bool)
      requires session.Clean() && row.noteId in session.tx.notes && row.tokenHash !in session.links
      modifies session`tx, session`pending
      ensures ok == Find(old(session.tx.links), LinkWith(row.tokenHash)).Absent?
      ensures ok ==>
        && session.tx == old(session.tx).(links := old(session.tx.links) + [row])
        && session.Valid() && session.pending == []
        && CleanTables(session.tx, session.NoteRows(), session.ShareRows(), session.LinkRows()[row.tokenHash := row])
    {
      hide session.NoteRows, session.ShareRows, session.LinkRows, Find, NotesClean, WriteShares, WriteLinks;
      hide CleanTables;
      NotLoaded();
      FlushNewLink(session.tx, row, session.NoteRows(), session.ShareRows(), session.LinkRows(), now);
      ok := session.AddAndFlush(NewLink(row), now);
    }

    /** `get_share_link_by_hash`: the link and, by the eager load of `ShareLink.note`, the note it leads to. */
    method GetShareLinkByHash(hash: Digest<RawToken>) returns (link: ShareLink?, note: Note?, ambiguous: bool)
      requires session.Clean() && session.notes == map[] && session.links == map[]
      modifies session`notes, session`links
      ensures session.Clean()
      ensures ambiguous == Find(session.tx.links, LinkWith(hash)).Ambiguous?
      ensures (link == null) == !Find(session.tx.links, LinkWith(hash)).Unique?
      ensures link != null ==>
        && fresh(link) && link.Row() == Find(session.tx.links, LinkWith(hash)).row && link.tokenHash == hash
        && session.links == map[hash := link]
        && (note == null) == (link.noteId !in session.tx.notes)
      ensures link != null && note != null ==>
        && fresh(note) && note.id == link.noteId && note.Row() == session.tx.notes[note.id] && !note.isDecrypted
        && session.notes == map[note.id := note]
    {
      hide session.NoteRows, session.ShareRows, session.LinkRows, CleanTables;
      link, note, ambiguous := null, null, false;
      match Find(session.tx.links, LinkWith(hash)) {
        case Absent =>
        case Ambiguous => ambiguous := true;
        case Unique(row) =>
          assert LinkWith(hash)(row);
          link := LoadLink(row);
          if row.noteId in session.tx.notes {
            note := LoadNext(row.noteId);
          }
      }
    }

    method LoadLink(row: LinkRow) returns (link: ShareLink)
      requires session.Clean() && session.links == map[]
      requires Find(session.tx.links, LinkWith(row.tokenHash)) == Unique(row)
      modifies session`links
      ensures session.Clean() && fresh(link) && link.Row() == row && session.links == map[row.tokenHash := link]
    {
      hide session.NoteRows, session.ShareRows, session.LinkRows, Find, NotesClean, WriteShares, WriteLinks;
      LoadedLinkIsClean(session.tx.links, session.LinkRows(), row);
      link := new ShareLink(row);
      session.RegisterLink(link);
    }

    /** One more row of a result: its object joins the clean session, unless it is there already. */
    method LoadNext(id: NoteId) returns (note: Note)
      requires session.Clean() && id in session.tx.notes
      modifies session`notes
      ensures session.Clean() && session.notes == old(session.notes)[id := note]
      ensures id in old(session.notes) ==> note == old(session.notes)[id]
      ensures note.Row() == session.tx.notes[id]
      ensures id !in old(session.notes) ==> fresh(note) && !note.isDecrypted
    {
      hide session.NoteRows, session.ShareRows, session.LinkRows, WriteShares, WriteLinks;
      note := GetById(id);
      CleanNote(id);
    }

    lemma CleanNote(id: NoteId)
      requires session.Clean() && id in session.notes
      ensures id in session.tx.notes && session.notes[id].Row() == session.tx.notes[id]
    {
      assert session.NoteRows()[id] == session.notes[id].Row();
    }

    /** The objects for the rows of a result, in its order; a row met twice is one object. */
    method LoadAll(ids: seq<NoteId>) returns (notes: seq<Note>)
      requires session.Clean() && session.notes == map[] && Known(session.tx.notes, ids)
      modifies session`notes
      ensures session.Clean() && Loaded(notes, ids)
      ensures forall n | n in session.notes :: fresh(session.notes[n])
    {
      hide session.NoteRows, session.ShareRows, session.LinkRows, CleanTables;
      notes := [];
      for i := 0 to |ids|
        invariant session.Clean() && |notes| == i
        invariant forall j | 0 <= j < i :: ids[j] in session.notes && session.notes[ids[j]] == notes[j]
        invariant forall n | n in session.notes :: fresh(session.notes[n]) && !session.notes[n].isDecrypted
      {
        var note := LoadNext(ids[i]);
        notes := notes + [note];
      }
    }

    /** `get_owned_notes`. */
    method GetOwnedNotes(owner: UserId, page: PageParams, search: Option<set<NoteId>>, pinnedFirst: bool)
      returns (notes: seq<Note>, total: nat)
      requires session.Clean() && session.notes == map[]
      modifies session`notes
      ensures session.Clean() && Loaded(notes, Window(OwnedList(session.tx, owner, search, pinnedFirst), page))
      ensures total == |OwnedNotes(session.tx, owner, search)|
      ensures forall n | n in session.notes :: fresh(session.notes[n])
    {
      hide session.NoteRows, session.ShareRows, session.LinkRows, session.Clean, OwnedNotes, OwnedList, Window;
      total := |OwnedNotes(session.tx, owner, search)|;
      OwnedWindowKnown(session.tx, owner, page, search, pinnedFirst);
      notes := LoadAll(Window(OwnedList(session.tx, owner, search, pinnedFirst), page));
    }

    /** `get_shared_notes`. */
    method GetSharedNotes(user: UserId, page: PageParams) returns (notes: seq<Note>, total: nat)
      requires session.Clean() && session.notes == map[]
      modifies session`notes
      ensures session.Clean() && Loaded(notes, Window(SharedList(session.tx, user), page))
      ensures total == |SharedJoin(session.tx.shares, session.tx.notes, user)|
      ensures forall n | n in session.notes :: fresh(session.notes[n])
    {
      hide session.NoteRows, session.ShareRows, session.LinkRows, session.Clean, SharedJoin;
      total := |SharedJoin(session.tx.shares, session.tx.notes, user)|;
      notes := LoadAll(Window(SharedList(session.tx, user), page));
    }

    /** notes are the identity map's objects for these ids, as they were loaded. */
    ghost predicate Loaded(notes: seq<Note>, ids: seq<NoteId>)
      reads session, session.notes.Values
    {
      && |notes| == |ids|
      && (forall i | 0 <= i < |ids| :: ids[i] in session.notes && session.notes[ids[i]] == notes[i])
      && (forall n | n in session.notes :: !session.notes[n].isDecrypted)
    }

    /** `session.delete` and flush. */
    method DeleteShare(share: NoteShare, now: Time)
      requires session.Clean()
      modifies session`tx, session`shares
      ensures session.tx == old(session.tx).(shares := WithoutShare(old(session.tx.shares), share.noteId, share.withId))
      ensures session.shares == old(session.shares) - {(share.noteId, share.withId)}
      ensures session.Clean()
    {
      hide session.NoteRows, session.ShareRows, session.LinkRows, WriteShares, WriteLinks, NotesClean;
      WithoutStaysClean(session.tx.shares, session.ShareRows(), share.noteId, share.withId);
      session.ForgetShare(share);
      session.tx := session.tx.(shares := WithoutShare(session.tx.shares, share.noteId, share.withId));
      NotesStayClean(old(session.tx), session.tx, session.NoteRows());
    }
  }

  lemma OwnedWindowKnown(s: Store, owner: UserId, page: PageParams, search: Option<set<NoteId>>, pinnedFirst: bool)
    ensures Known(s.notes, Window(OwnedList(s, owner, search, pinnedFirst), page))
  {
  }

  lemma NotesStayClean(s: Store, s': Store, image: NoteImage)
    requires s'.notes == s.notes
    ensures NotesClean(s, image) <==> NotesClean(s', image)
  {
  }

  lemma WithoutStaysClean(rows: seq<ShareRow>, image: ShareImage, n: NoteId, u: UserId)
    requires WriteShares(rows, image) == rows
    ensures WriteShares(WithoutShare(rows, n, u), image - {(n, u)}) == WithoutShare(rows, n, u)
  {
    var ys := WithoutShare(rows, n, u);
    forall i | 0 <= i < |ys|
      ensures WriteShares(ys, image - {(n, u)})[i] == ys[i]
    {
      assert ys[i] in ys;
      var j :| 0 <= j < |rows| && rows[j] == ys[i];
      assert WriteShares(rows, image)[j] == rows[j];
    }
  }

  class ActivityRepository {
    const session: Session

    constructor (session: Session)
      ensures this.session == session
    {
      this.session := session;
    }

    /** `log`: append one entry through the session. */
    method Log(user: Option<UserId>, action: Action, id: NoteId, extra: Extra, now: Time) returns (ok: bool)
      requires session.Clean()
      modifies session`tx, session`pending
      ensures ok == (id in old(session.tx.notes))
      ensures ok ==> session.tx == NoteRules.Log(old(session.tx), user, action, id, extra, now) && session.Clean()
    {
      hide session.NoteRows, session.ShareRows, session.LinkRows;
      var e := LogEntry(user, action, id, extra, now);
      if id in session.tx.notes {
        FlushLog(session.tx, e, session.NoteRows(), session.ShareRows(), session.LinkRows(), now);
      } else {
        InsertOne(session.tx, NewLog(e));
      }
      ok := session.AddAndFlush(NewLog(e), now);
    }
  }
}
