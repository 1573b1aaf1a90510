/** What flushing a session does to the tables, on values: INSERT the added rows under their constraints, then
    write back the rows the loaded objects stand for. */
module UnitOfWork {
  import opened Wrappers
  import opened Security
  import opened Models
  import opened Queries
  import opened NoteRules

  // The rows that the objects of the identity map stand for, by key.

  type NoteImage = map<NoteId, NoteRow>
  type ShareImage = map<(NoteId, UserId), ShareRow>
  type LinkImage = map<Digest<RawToken>, LinkRow>

  /** A row added to the session and not yet inserted. */
  datatype NewRow =
    | NewNote(id: NoteId, row: NoteRow)
    | NewShare(share: ShareRow)
    | NewVersion(version: VersionRow)
    | NewLink(link: LinkRow)
    | NewLog(entry: LogEntry)

  function VersionKey(n: NoteId, k: nat): VersionRow -> bool {
    (v: VersionRow) => v.noteId == n && v.number == k
  }

  /** INSERT of one row; None is a violated key, unique or foreign-key constraint. */
  function InsertRow(s: Store, r: NewRow): Option<Store> {
    match r
    case NewNote(id, row) =>
      if id in s.notes || row.ownerId !in s.users then None else Some(s.(notes := s.notes[id := row]))
    case NewShare(share) =>
      if !Find(s.shares, ShareOf(share.noteId, share.withId)).Absent? || share.withId !in s.users
        || share.noteId !in s.notes
      then None else Some(s.(shares := s.shares + [share]))
    case NewVersion(v) =>
      if !Find(s.versions, VersionKey(v.noteId, v.number)).Absent? || v.noteId !in s.notes
      then None else Some(s.(versions := s.versions + [v]))
    case NewLink(link) =>
      if !Find(s.links, LinkWith(link.tokenHash)).Absent? || link.noteId !in s.notes
      then None else Some(s.(links := s.links + [link]))
    case NewLog(entry) =>
      if entry.noteId !in s.notes then None else Some(s.(log := s.log + [entry]))
  }

  /** An INSERT fails exactly on a key that is taken or a foreign key that leads nowhere. */
  lemma InsertFailsIff(s: Store, r: NewRow)
    ensures InsertRow(s, r).None? <==>
      match r
      case NewNote(id, row) => id in s.notes || row.ownerId !in s.users
      case NewShare(x) =>
        || (exists i :: 0 <= i < |s.shares| && s.shares[i].noteId == x.noteId && s.shares[i].withId == x.withId)
        || x.withId !in s.users || x.noteId !in s.notes
      case NewVersion(v) =>
        || (exists i :: 0 <= i < |s.versions| && s.versions[i].noteId == v.noteId && s.versions[i].number == v.number)
        || v.noteId !in s.notes
      case NewLink(l) =>
        || (exists i :: 0 <= i < |s.links| && s.links[i].tokenHash == l.tokenHash)
        || l.noteId !in s.notes
      case NewLog(e) => e.noteId !in s.notes
  {
    match r
    case NewNote(_, _) =>
    case NewLog(_) =>
    case NewShare(x) =>
      forall i | 0 <= i < |s.shares|
        ensures ShareOf(x.noteId, x.withId)(s.shares[i]) <==>
          s.shares[i].noteId == x.noteId && s.shares[i].withId == x.withId
      {
      }
    case NewVersion(v) =>
      forall i | 0 <= i < |s.versions|
        ensures VersionKey(v.noteId, v.number)(s.versions[i]) <==>
          s.versions[i].noteId == v.noteId && s.versions[i].number == v.number
      {
      }
    case NewLink(l) =>
      forall i | 0 <= i < |s.links|
        ensures LinkWith(l.tokenHash)(s.links[i]) <==> s.links[i].tokenHash == l.tokenHash
      {
      }
  }

  function InsertAll(s: Store, rs: seq<NewRow>): Option<Store>
    decreases |rs|
  {
    if rs == [] then Some(s)
    else
      match InsertRow(s, rs[0])
      case None => None
      case Some(s') => InsertAll(s', rs[1..])
  }

  function WriteNotes(rows: map<NoteId, NoteRow>, image: NoteImage, now: Time): map<NoteId, NoteRow> {
    map n | n in rows :: if n in image then Stamp(rows[n], image[n], now) else rows[n]
  }

  function WriteShares(rows: seq<ShareRow>, image: ShareImage): seq<ShareRow> {
    seq(|rows|, i requires 0 <= i < |rows| =>
      if (rows[i].noteId, rows[i].withId) in image then image[(rows[i].noteId, rows[i].withId)] else rows[i])
  }

  function WriteLinks(rows: seq<LinkRow>, image: LinkImage): seq<LinkRow> {
    seq(|rows|, i requires 0 <= i < |rows| =>
      if rows[i].tokenHash in image then image[rows[i].tokenHash] else rows[i])
  }

  /** What a flush makes of the tables, given the rows added and the rows the loaded objects stand for. */
  function FlushTables(s: Store, pending: seq<NewRow>, notes: NoteImage,
                       shares: ShareImage, links: LinkImage, now: Time): Option<Store>
  {
    match InsertAll(s, pending)
    case None => None
    case Some(t) =>
      Some(t.(notes := WriteNotes(t.notes, notes, now),
              shares := WriteShares(t.shares, shares),
              links := WriteLinks(t.links, links)))
  }

  predicate NotesClean(s: Store, notes: NoteImage) {
    forall n | n in notes :: n in s.notes && notes[n] == s.notes[n]
  }

  /** Writing the loaded objects back would change nothing. */
  predicate CleanTables(s: Store, notes: NoteImage,
                        shares: ShareImage, links: LinkImage)
  {
    NotesClean(s, notes) && WriteShares(s.shares, shares) == s.shares && WriteLinks(s.links, links) == s.links
  }

  // What one flush does, on values.

  /** The number max + 1 is free, so the unique constraint on (note, number) never fires. */
  lemma NextNumberIsFree(s: Store, id: NoteId)
    ensures Find(s.versions, VersionKey(id, NextVersionNumber(s, id))).Absent?
  {
    forall i | 0 <= i < |s.versions|
      ensures !VersionKey(id, NextVersionNumber(s, id))(s.versions[i])
    {
      if s.versions[i].noteId == id {
        assert s.versions[i] in VersionsOf(s.versions, id);
      }
    }
  }

  lemma InsertOne(s: Store, r: NewRow)
    ensures InsertAll(s, [r]) == InsertRow(s, r)
  {
    assert [r][1..] == [];
  }

  lemma WriteCleanNotes(s: Store, image: NoteImage, now: Time)
    requires NotesClean(s, image)
    ensures WriteNotes(s.notes, image, now) == s.notes
  {
  }

  /** A clean session flushes to the tables it already sees. */
  lemma FlushClean(s: Store, ns: NoteImage, ss: ShareImage, ls: LinkImage, now: Time)
    requires CleanTables(s, ns, ss, ls)
    ensures FlushTables(s, [], ns, ss, ls, now) == Some(s)
  {
    WriteCleanNotes(s, ns, now);
  }

  lemma FlushLog(s: Store, e: LogEntry, ns: NoteImage, ss: ShareImage, ls: LinkImage, now: Time)
    requires CleanTables(s, ns, ss, ls) && e.noteId in s.notes
    ensures var s' := s.(log := s.log + [e]);
      FlushTables(s, [NewLog(e)], ns, ss, ls, now) == Some(s') && CleanTables(s', ns, ss, ls)
  {
    InsertOne(s, NewLog(e));
    WriteCleanNotes(s, ns, now);
  }

  lemma FlushNewNote(s: Store, id: NoteId, row: NoteRow, ns: NoteImage, ss: ShareImage, ls: LinkImage, now: Time)
    requires CleanTables(s, ns, ss, ls)
    ensures FlushTables(s, [NewNote(id, row)], ns, ss, ls, now).Some? <==> id !in s.notes && row.ownerId in s.users
    ensures id !in s.notes && row.ownerId in s.users ==>
      var s' := s.(notes := s.notes[id := row]);
      && FlushTables(s, [NewNote(id, row)], ns, ss, ls, now) == Some(s')
      && CleanTables(s', ns[id := row], ss, ls)
  {
    InsertOne(s, NewNote(id, row));
    if id !in s.notes {
      WriteCleanNotes(s.(notes := s.notes[id := row]), ns, now);
    }
  }

  /** Saving one changed note, with a snapshot added before: the UPDATE and the INSERT go out together. */
  lemma FlushSave(s: Store, v: VersionRow, id: NoteId, row: NoteRow, ns: NoteImage, ss: ShareImage, ls: LinkImage,
                  now: Time)
    requires CleanTables(s, ns, ss, ls) && id in s.notes && v.noteId == id
    ensures FlushTables(s, [NewVersion(v)], ns[id := row], ss, ls, now) ==
      (if Find(s.versions, VersionKey(id, v.number)).Absent?
       then Some(s.(versions := s.versions + [v], notes := s.notes[id := Stamp(s.notes[id], row, now)]))
       else None)
  {
    InsertOne(s, NewVersion(v));
    WriteOneNote(s, id, row, ns, now);
  }

  lemma FlushUpdate(s: Store, id: NoteId, row: NoteRow, ns: NoteImage, ss: ShareImage, ls: LinkImage, now: Time)
    requires CleanTables(s, ns, ss, ls) && id in s.notes
    ensures FlushTables(s, [], ns[id := row], ss, ls, now) ==
      Some(s.(notes := s.notes[id := Stamp(s.notes[id], row, now)]))
  {
    WriteOneNote(s, id, row, ns, now);
  }

  /** Writing back one changed note among clean ones. */
  lemma WriteOneNote(s: Store, id: NoteId, row: NoteRow, ns: NoteImage, now: Time)
    requires NotesClean(s, ns) && id in s.notes
    ensures WriteNotes(s.notes, ns[id := row], now) == s.notes[id := Stamp(s.notes[id], row, now)]
  {
  }

  // Loading and writing shares and links.

  /** A share object made from its own row is clean. */
  lemma LoadedShareIsClean(rows: seq<ShareRow>, image: ShareImage, row: ShareRow)
    requires WriteShares(rows, image) == rows && Find(rows, ShareOf(row.noteId, row.withId)) == Unique(row)
    ensures WriteShares(rows, image[(row.noteId, row.withId) := row]) == rows
  {
    var ys := WriteShares(rows, image[(row.noteId, row.withId) := row]);
    forall i | 0 <= i < |rows|
      ensures ys[i] == rows[i]
    {
      assert WriteShares(rows, image)[i] == rows[i];
      assert ShareOf(row.noteId, row.withId)(rows[i]) <==> (rows[i].noteId, rows[i].withId) == (row.noteId, row.withId);
    }
  }

  /** Writing back one changed share among clean ones. */
  lemma WriteOneShare(rows: seq<ShareRow>, image: ShareImage, row: ShareRow)
    requires WriteShares(rows, image) == rows
    ensures WriteShares(rows, image[(row.noteId, row.withId) := row]) == PutShare(rows, row)
  {
    var ys, zs := WriteShares(rows, image[(row.noteId, row.withId) := row]), PutShare(rows, row);
    forall i | 0 <= i < |rows|
      ensures ys[i] == zs[i]
    {
      assert WriteShares(rows, image)[i] == rows[i];
      assert ShareOf(row.noteId, row.withId)(rows[i]) <==> (rows[i].noteId, rows[i].withId) == (row.noteId, row.withId);
    }
  }

  lemma LoadedLinkIsClean(rows: seq<LinkRow>, image: LinkImage, row: LinkRow)
    requires WriteLinks(rows, image) == rows && Find(rows, LinkWith(row.tokenHash)) == Unique(row)
    ensures WriteLinks(rows, image[row.tokenHash := row]) == rows
  {
    var ys := WriteLinks(rows, image[row.tokenHash := row]);
    forall i | 0 <= i < |rows|
      ensures ys[i] == rows[i]
    {
      assert WriteLinks(rows, image)[i] == rows[i];
      assert LinkWith(row.tokenHash)(rows[i]) <==> rows[i].tokenHash == row.tokenHash;
    }
  }

  lemma WriteOneLink(rows: seq<LinkRow>, image: LinkImage, row: LinkRow)
    requires WriteLinks(rows, image) == rows
    ensures WriteLinks(rows, image[row.tokenHash := row]) == PutLink(rows, row)
  {
    var ys, zs := WriteLinks(rows, image[row.tokenHash := row]), PutLink(rows, row);
    forall i | 0 <= i < |rows|
      ensures ys[i] == zs[i]
    {
      assert WriteLinks(rows, image)[i] == rows[i];
    }
  }

  lemma FlushNewShare(s: Store, r: ShareRow, ns: NoteImage, ss: ShareImage, ls: LinkImage, now: Time)
    requires CleanTables(s, ns, ss, ls) && r.noteId in s.notes
    requires Find(s.shares, ShareOf(r.noteId, r.withId)).Absent? && (r.noteId, r.withId) !in ss
    ensures FlushTables(s, [NewShare(r)], ns, ss, ls, now).Some? <==> r.withId in s.users
    ensures r.withId in s.users ==>
      var s' := s.(shares := s.shares + [r]);
      && FlushTables(s, [NewShare(r)], ns, ss, ls, now) == Some(s')
      && CleanTables(s', ns, ss[(r.noteId, r.withId) := r], ls)
  {
    InsertOne(s, NewShare(r));
    WriteCleanNotes(s, ns, now);
    var key := (r.noteId, r.withId);
    forall i | 0 <= i < |s.shares|
      ensures (s.shares[i].noteId, s.shares[i].withId) in ss ==>
        ss[(s.shares[i].noteId, s.shares[i].withId)] == s.shares[i]
      ensures (s.shares[i].noteId, s.shares[i].withId) != key
    {
      assert WriteShares(s.shares, ss)[i] == s.shares[i];
      assert !ShareOf(r.noteId, r.withId)(s.shares[i]);
    }
    assert WriteShares(s.shares + [r], ss) == s.shares + [r];
    assert WriteShares(s.shares + [r], ss[key := r]) == s.shares + [r];
  }

  lemma FlushNewLink(s: Store, r: LinkRow, ns: NoteImage, ss: ShareImage, ls: LinkImage, now: Time)
    requires CleanTables(s, ns, ss, ls) && r.noteId in s.notes && r.tokenHash !in ls
    ensures FlushTables(s, [NewLink(r)], ns, ss, ls, now).Some? <==> Find(s.links, LinkWith(r.tokenHash)).Absent?
    ensures Find(s.links, LinkWith(r.tokenHash)).Absent? ==>
      var s' := s.(links := s.links + [r]);
      && FlushTables(s, [NewLink(r)], ns, ss, ls, now) == Some(s')
      && CleanTables(s', ns, ss, ls[r.tokenHash := r])
  {
    InsertOne(s, NewLink(r));
    if Find(s.links, LinkWith(r.tokenHash)).Absent? {
      WriteCleanNotes(s, ns, now);
      forall i | 0 <= i < |s.links|
        ensures s.links[i].tokenHash in ls ==> ls[s.links[i].tokenHash] == s.links[i]
        ensures s.links[i].tokenHash != r.tokenHash
      {
        assert WriteLinks(s.links, ls)[i] == s.links[i];
        assert !LinkWith(r.tokenHash)(s.links[i]);
      }
      assert WriteLinks(s.links + [r], ls) == s.links + [r];
      assert WriteLinks(s.links + [r], ls[r.tokenHash := r]) == s.links + [r];
    }
  }

  lemma FlushShareUpdate(s: Store, row: ShareRow, ns: NoteImage, ss: ShareImage, ls: LinkImage, now: Time)
    requires CleanTables(s, ns, ss, ls)
    ensures FlushTables(s, [], ns, ss[(row.noteId, row.withId) := row], ls, now)
            == Some(s.(shares := PutShare(s.shares, row)))
    ensures CleanTables(s.(shares := PutShare(s.shares, row)), ns, ss[(row.noteId, row.withId) := row], ls)
  {
    WriteCleanNotes(s, ns, now);
    WriteOneShare(s.shares, ss, row);
    var zs, image := PutShare(s.shares, row), ss[(row.noteId, row.withId) := row];
    forall i | 0 <= i < |zs|
      ensures WriteShares(zs, image)[i] == zs[i]
    {
      assert WriteShares(s.shares, ss)[i] == s.shares[i];
    }
  }

  lemma FlushLinkUpdate(s: Store, row: LinkRow, ns: NoteImage, ss: ShareImage, ls: LinkImage, now: Time)
    requires CleanTables(s, ns, ss, ls)
    ensures FlushTables(s, [], ns, ss, ls[row.tokenHash := row], now) == Some(s.(links := PutLink(s.links, row)))
    ensures CleanTables(s.(links := PutLink(s.links, row)), ns, ss, ls[row.tokenHash := row])
  {
    WriteCleanNotes(s, ns, now);
    WriteOneLink(s.links, ls, row);
    var zs, image := PutLink(s.links, row), ls[row.tokenHash := row];
    forall i | 0 <= i < |zs|
      ensures WriteLinks(zs, image)[i] == zs[i]
    {
      assert WriteLinks(s.links, ls)[i] == s.links[i];
    }
  }
}
