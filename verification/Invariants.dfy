/** What every committed store satisfies, whatever serial run led to it. */
module Invariants {
  import opened Wrappers
  import opened Security
  import opened Models
  import opened Queries
  import opened NoteRules

  /** A key version is set exactly on private rows. */
  predicate KeyOk(row: NoteRow) {
    row.isPrivate <==> row.keyVersion.Some?
  }

  /** One encryption layer on a private row, none on a public one. */
  predicate LayersFit(row: NoteRow) {
    Layers(row.content) == if row.isPrivate then 1 else 0
  }

  /** is_private iff a key version is set iff the content has exactly one encryption layer. */
  predicate OneLayer(row: NoteRow) {
    KeyOk(row) && LayersFit(row)
  }

  /** OneLayer together with a key version that Python takes for true. */
  predicate RowOk(row: NoteRow) {
    OneLayer(row) && (row.isPrivate ==> HasKey(row))
  }

  /** pinned_at is set iff is_pinned, and a deleted note is not pinned. */
  predicate PinOk(row: NoteRow) {
    && (row.isPinned <==> row.pinnedAt.Some?)
    && (row.IsDeleted() ==> !row.isPinned)
  }

  /** A note's version numbers, in insertion order, are 1, 2, ..., k. */
  predicate Numbered(vs: seq<VersionRow>) {
    forall i | 0 <= i < |vs| :: vs[i].number == i + 1
  }

  predicate ShareOk(r: ShareRow, s: Store) {
    r.noteId in s.notes && r.withId in s.users && r.byId == s.notes[r.noteId].ownerId != r.withId
  }

  predicate SharesUnique(shares: seq<ShareRow>) {
    forall i, j | 0 <= i < j < |shares| :: !ShareOf(shares[i].noteId, shares[i].withId)(shares[j])
  }

  /** A link is inactive exactly when its quota is used up, and never over it. */
  predicate LinkOk(l: LinkRow) {
    match l.maxAccesses
    case None => l.isActive
    case Some(m) => 1 <= m && l.accessCount <= m && (l.isActive <==> l.accessCount < m)
  }

  predicate LinksUnique(links: seq<LinkRow>) {
    forall i, j | 0 <= i < j < |links| :: links[i].tokenHash != links[j].tokenHash
  }

  function Limit(cfg: Config): nat {
    if cfg.maxPinned < 0 then 0 else cfg.maxPinned
  }

  ghost predicate VersionsInv(s: Store) {
    && (forall n :: Numbered(VersionsOf(s.versions, n)))
    && (forall v | v in s.versions :: v.noteId in s.notes)
  }

  ghost predicate SharesInv(s: Store) {
    SharesUnique(s.shares) && forall r | r in s.shares :: ShareOk(r, s)
  }

  ghost predicate LinksInv(s: Store) {
    LinksUnique(s.links) && forall l | l in s.links :: LinkOk(l) && l.noteId in s.notes
  }

  ghost predicate PinsInv(cfg: Config, s: Store) {
    && (forall n | n in s.notes :: PinOk(s.notes[n]))
    && (forall u :: |PinnedNotes(s, u)| <= Limit(cfg))
  }

  /** What holds of the tables in every reachable store. */
  ghost predicate Inv(cfg: Config, s: Store) {
    && (forall n | n in s.notes :: s.notes[n].ownerId in s.users && KeyOk(s.notes[n]))
    && VersionsInv(s) && SharesInv(s) && LinksInv(s) && PinsInv(cfg, s)
  }

  /** Every row has its one layer, or none when public, and every snapshot is readable text. */
  ghost predicate Layered(s: Store) {
    && (forall n | n in s.notes :: OneLayer(s.notes[n]))
    && (forall v | v in s.versions :: v.content.Text?)
  }

  /** The same, and every private row carries a usable key version. */
  ghost predicate TextInv(s: Store) {
    Layered(s) && forall n | n in s.notes :: RowOk(s.notes[n])
  }

  // Versions.

  lemma VersionsAppend(vs: seq<VersionRow>, v: VersionRow, n: NoteId)
    ensures VersionsOf(vs + [v], n) == if v.noteId == n then VersionsOf(vs, n) + [v] else VersionsOf(vs, n)
  {
    assert (vs + [v])[..|vs|] == vs;
  }

  lemma MaxOfNumbered(vs: seq<VersionRow>)
    requires Numbered(vs)
    ensures MaxNumber(vs) == |vs|
  {
    if vs != [] {
      assert vs[|vs| - 1] in vs;
      var v :| v in vs && v.number == MaxNumber(vs);
    }
  }

  /** With numbers 1..k, looking up number i finds exactly the i-th snapshot. */
  lemma FindNumbered(vs: seq<VersionRow>, k: int)
    requires Numbered(vs)
    ensures Find(vs, WithNumber(k)) == if 1 <= k <= |vs| then Unique(vs[k - 1]) else Absent
  {
    if 1 <= k <= |vs| {
      FindAt(vs, WithNumber(k), k - 1);
    }
  }

  lemma SnapshotKeepsVersions(s: Store, id: NoteId, text: Content, user: UserId)
    requires VersionsInv(s) && id in s.notes
    ensures VersionsInv(s.(versions := s.versions + [Snapshot(s, id, text, user)]))
    ensures Snapshot(s, id, text, user).number == |VersionsOf(s.versions, id)| + 1
  {
    hide VersionsOf, MaxNumber;
    var v := Snapshot(s, id, text, user);
    MaxOfNumbered(VersionsOf(s.versions, id));
    forall n
      ensures Numbered(VersionsOf(s.versions + [v], n))
    {
      VersionsAppend(s.versions, v, n);
      assert Numbered(VersionsOf(s.versions, n));
    }
  }

  // Representation of rows.

  /** The layers fit exactly when the row is readable and what is read is text. */
  lemma FitsIffReadable(row: NoteRow)
    ensures LayersFit(row) <==> Plaintext(row).Some? && Plaintext(row).value.Text?
  {
    match row.content
    case Text(_) =>
    case Cipher(_, body) => assert Layers(row.content) == 1 + Layers(body);
  }

  lemma PlaintextIsText(row: NoteRow)
    requires LayersFit(row)
    ensures Plaintext(row).Some? && Plaintext(row).value.Text?
  {
    FitsIffReadable(row);
  }

  lemma EditKeepsFlags(cfg: Config, row: NoteRow, data: UpdateData, nonce: Nonce)
    requires EditRow(cfg, row, data, nonce).Some?
    ensures KeyOk(row) ==> KeyOk(EditRow(cfg, row, data, nonce).value)
    ensures var r := EditRow(cfg, row, data, nonce).value;
      r.ownerId == row.ownerId && r.isPinned == row.isPinned && r.pinnedAt == row.pinnedAt
        && r.deletedAt == row.deletedAt
  {
  }

  lemma EditKeepsRow(cfg: Config, row: NoteRow, data: UpdateData, nonce: Nonce)
    requires RowOk(row) && cfg.keyVersion != ""
    ensures EditRow(cfg, row, data, nonce).Some? && RowOk(EditRow(cfg, row, data, nonce).value)
  {
    PlaintextIsText(row);
  }

  // Shares and links.

  lemma PermissionsUnambiguous(s: Store, n: NoteId, u: UserId)
    requires SharesUnique(s.shares)
    ensures !GetShare(s, n, u).Ambiguous?
  {
  }

  lemma {:induction false} WithoutKeepsUnique(shares: seq<ShareRow>, n: NoteId, u: UserId)
    requires SharesUnique(shares)
    ensures SharesUnique(WithoutShare(shares, n, u))
  {
    if shares != [] {
      var init, last := shares[..|shares| - 1], shares[|shares| - 1];
      WithoutKeepsUnique(init, n, u);
      var r := WithoutShare(init, n, u);
      forall i | 0 <= i < |r|
        ensures !ShareOf(r[i].noteId, r[i].withId)(last)
      {
        assert r[i] in init;
      }
    }
  }

  // Pins.

  lemma PinnedAfter(s: Store, s': Store, id: NoteId, u: UserId)
    requires id in s'.notes && s'.notes.Keys == s.notes.Keys + {id}
    requires forall n | n in s.notes && n != id :: s'.notes[n] == s.notes[n]
    requires id in s.notes ==> s'.notes[id].ownerId == s.notes[id].ownerId
    ensures var row := s'.notes[id];
      PinnedNotes(s', u) ==
        if row.ownerId == u && row.isPinned && !row.IsDeleted() then PinnedNotes(s, u) + {id}
        else PinnedNotes(s, u) - {id}
  {
  }

  /** A row written over note id that is pinned only if it was pinned and live keeps every count. */
  lemma PinsKept(cfg: Config, s: Store, s': Store, id: NoteId)
    requires PinsInv(cfg, s)
    requires id in s'.notes && s'.notes.Keys == s.notes.Keys + {id}
    requires forall n | n in s.notes && n != id :: s'.notes[n] == s.notes[n]
    requires id in s.notes ==> s'.notes[id].ownerId == s.notes[id].ownerId
    requires PinOk(s'.notes[id])
    requires s'.notes[id].isPinned ==> id in s.notes && s.notes[id].isPinned
    ensures PinsInv(cfg, s')
  {
    forall u
      ensures |PinnedNotes(s', u)| <= Limit(cfg)
    {
      PinnedAfter(s, s', id, u);
      SubsetSize(PinnedNotes(s', u), PinnedNotes(s, u));
    }
  }

  lemma {:induction false} SubsetSize<T>(a: set<T>, b: set<T>)
    requires a <= b
    ensures |a| <= |b|
  {
    assert b == a + (b - a);
  }

  // One lemma for each request that writes.

  lemma CreateKeeps(cfg: Config, s: Store, user: UserId, title: string, content: string, isPrivate: bool, env: Env)
    requires Inv(cfg, s) && user in s.users && DoCreate(cfg, s, user, title, content, isPrivate, env).Done?
    ensures Inv(cfg, DoCreate(cfg, s, user, title, content, isPrivate, env).store)
  {
    PinsKept(cfg, s, DoCreate(cfg, s, user, title, content, isPrivate, env).store, env.newId);
  }

  /** Snapshotting note id and giving it another row, owned, pinned and deleted as before. */
  lemma RewriteKeeps(cfg: Config, s: Store, s': Store, id: NoteId, text: Content, user: UserId)
    requires Inv(cfg, s) && id in s.notes
    requires s'.users == s.users && s'.shares == s.shares && s'.links == s.links
    requires s'.versions == s.versions + [Snapshot(s, id, text, user)]
    requires id in s'.notes && s'.notes == s.notes[id := s'.notes[id]]
    requires var a, b := s.notes[id], s'.notes[id];
      a.ownerId == b.ownerId && a.isPinned == b.isPinned && a.pinnedAt == b.pinnedAt && a.deletedAt == b.deletedAt
    requires KeyOk(s'.notes[id])
    ensures Inv(cfg, s')
  {
    SnapshotKeepsVersions(s, id, text, user);
    PinsKept(cfg, s, s', id);
  }

  /** What a successful update did: the store was snapshotted and the row edited. */
  lemma UpdateEffect(cfg: Config, s: Store, user: UserId, id: NoteId, data: UpdateData, env: Env)
    requires DoUpdate(cfg, s, user, id, data, env).Done?
    ensures id in s.notes && !s.notes[id].IsDeleted()
    ensures Plaintext(s.notes[id]).Some?
    ensures EditRow(cfg, s.notes[id], data, env.nonce).Some?
    ensures var s' := DoUpdate(cfg, s, user, id, data, env).store;
      && s'.users == s.users && s'.shares == s.shares && s'.links == s.links
      && s'.versions == s.versions + [Snapshot(s, id, Plaintext(s.notes[id]).value, user)]
      && id in s'.notes && s'.notes == s.notes[id := s'.notes[id]]
      && s'.notes[id] == Stamp(s.notes[id], EditRow(cfg, s.notes[id], data, env.nonce).value, env.now)
  {
  }

  lemma UpdateKeeps(cfg: Config, s: Store, user: UserId, id: NoteId, data: UpdateData, env: Env)
    requires Inv(cfg, s) && DoUpdate(cfg, s, user, id, data, env).Done?
    ensures Inv(cfg, DoUpdate(cfg, s, user, id, data, env).store)
  {
    var s' := DoUpdate(cfg, s, user, id, data, env).store;
    UpdateEffect(cfg, s, user, id, data, env);
    EditKeepsFlags(cfg, s.notes[id], data, env.nonce);
    RewriteKeeps(cfg, s, s', id, Plaintext(s.notes[id]).value, user);
  }

  /** What a successful restore did: version k was there, and the store was snapshotted and rewritten. */
  lemma RestoreEffect(cfg: Config, s: Store, user: UserId, id: NoteId, k: int, env: Env)
    requires Inv(cfg, s) && DoRestore(cfg, s, user, id, k, env).Done?
    ensures id in s.notes && s.notes[id].ownerId == user && !s.notes[id].IsDeleted()
    ensures Plaintext(s.notes[id]).Some?
    ensures 1 <= k <= |VersionsOf(s.versions, id)|
    ensures var s' := DoRestore(cfg, s, user, id, k, env).store;
      && s'.users == s.users && s'.shares == s.shares && s'.links == s.links
      && s'.versions == s.versions + [Snapshot(s, id, Plaintext(s.notes[id]).value, user)]
      && id in s'.notes && s'.notes == s.notes[id := s'.notes[id]]
      && s'.notes[id] == Stamp(s.notes[id],
           RestoreRow(cfg, s.notes[id], VersionsOf(s.versions, id)[k - 1], env.nonce), env.now)
  {
    FindNumbered(VersionsOf(s.versions, id), k);
  }

  lemma RestoreKeeps(cfg: Config, s: Store, user: UserId, id: NoteId, k: int, env: Env)
    requires Inv(cfg, s) && DoRestore(cfg, s, user, id, k, env).Done?
    ensures Inv(cfg, DoRestore(cfg, s, user, id, k, env).store)
  {
    RestoreEffect(cfg, s, user, id, k, env);
    RewriteKeeps(cfg, s, DoRestore(cfg, s, user, id, k, env).store, id, Plaintext(s.notes[id]).value, user);
  }

  lemma DeleteKeeps(cfg: Config, s: Store, user: UserId, id: NoteId, env: Env)
    requires Inv(cfg, s) && DoDelete(s, user, id, env).Done?
    ensures Inv(cfg, DoDelete(s, user, id, env).store)
  {
    PinsKept(cfg, s, DoDelete(s, user, id, env).store, id);
  }

  lemma UnpinKeeps(cfg: Config, s: Store, user: UserId, id: NoteId, env: Env)
    requires Inv(cfg, s) && DoUnpin(s, user, id, env).Done?
    ensures Inv(cfg, DoUnpin(s, user, id, env).store)
  {
    PinsKept(cfg, s, DoUnpin(s, user, id, env).store, id);
  }

  /** Pinning a live unpinned note adds it to its owner's pinned notes and to nobody else's. */
  lemma OneMorePinned(s: Store, s': Store, id: NoteId, u: UserId)
    requires id in s.notes && id in s'.notes && s'.notes == s.notes[id := s'.notes[id]]
    requires s'.notes[id].ownerId == s.notes[id].ownerId && !s.notes[id].isPinned
    requires s'.notes[id].isPinned && !s'.notes[id].IsDeleted()
    ensures |PinnedNotes(s', u)| == |PinnedNotes(s, u)| + if u == s.notes[id].ownerId then 1 else 0
  {
    PinnedAfter(s, s', id, u);
    assert id !in PinnedNotes(s, u);
  }

  lemma PinEffect(cfg: Config, s: Store, user: UserId, id: NoteId, env: Env)
    requires DoPin(cfg, s, user, id, env).Done?
    ensures id in s.notes && s.notes[id].ownerId == user && !s.notes[id].isPinned
    ensures |PinnedNotes(s, user)| < cfg.maxPinned
    ensures var s' := DoPin(cfg, s, user, id, env).store;
      && s'.users == s.users && s'.shares == s.shares && s'.links == s.links && s'.versions == s.versions
      && id in s'.notes && s'.notes == s.notes[id := s'.notes[id]]
      && s'.notes[id] == s.notes[id].(isPinned := true, pinnedAt := Some(env.now), updatedAt := env.now)
      && !s'.notes[id].IsDeleted()
  {
  }

  /** The counting query sees exactly one more pinned note after a pin, and stays within the limit. */
  lemma PinKeeps(cfg: Config, s: Store, user: UserId, id: NoteId, env: Env)
    requires Inv(cfg, s) && DoPin(cfg, s, user, id, env).Done?
    ensures Inv(cfg, DoPin(cfg, s, user, id, env).store)
    ensures |PinnedNotes(DoPin(cfg, s, user, id, env).store, user)| == |PinnedNotes(s, user)| + 1
  {
    hide DoPin, PinnedNotes, VersionsOf;
    var s' := DoPin(cfg, s, user, id, env).store;
    PinEffect(cfg, s, user, id, env);
    forall u
      ensures |PinnedNotes(s', u)| == |PinnedNotes(s, u)| + if u == user then 1 else 0
    {
      OneMorePinned(s, s', id, u);
    }
  }

  lemma PutShareKeeps(s: Store, row: ShareRow, permission: Permission)
    requires SharesInv(s) && row in s.shares
    ensures SharesInv(s.(shares := PutShare(s.shares, row.(permission := permission))))
  {
    var row' := row.(permission := permission);
    var ys := PutShare(s.shares, row');
    assert ShareOk(row, s);
    forall r | r in ys
      ensures ShareOk(r, s.(shares := ys))
    {
      var i :| 0 <= i < |ys| && ys[i] == r;
      assert s.shares[i] in s.shares && ShareOk(s.shares[i], s);
    }
  }

  lemma ShareKeeps(cfg: Config, s: Store, user: UserId, id: NoteId, target: UserId, permission: Permission, env: Env)
    requires Inv(cfg, s) && DoShare(s, user, id, target, permission, env).Done?
    ensures Inv(cfg, DoShare(s, user, id, target, permission, env).store)
  {
    var s' := DoShare(s, user, id, target, permission, env).store;
    assert forall u :: PinnedNotes(s', u) == PinnedNotes(s, u);
    match GetShare(s, id, target)
    case Unique(share) =>
      PutShareKeeps(s, share, permission);
      assert forall r | r in s'.shares :: ShareOk(r, s.(shares := s'.shares));
    case Absent =>
      assert forall r | r in s'.shares :: r in s.shares ==> ShareOk(r, s);
  }

  lemma UnshareKeeps(cfg: Config, s: Store, user: UserId, id: NoteId, target: UserId, env: Env)
    requires Inv(cfg, s) && DoUnshare(s, user, id, target, env).Done?
    ensures Inv(cfg, DoUnshare(s, user, id, target, env).store)
  {
    var s' := DoUnshare(s, user, id, target, env).store;
    assert forall u :: PinnedNotes(s', u) == PinnedNotes(s, u);
    WithoutKeepsUnique(s.shares, id, target);
  }

  lemma CreateLinkKeeps(cfg: Config, s: Store, user: UserId, id: NoteId, expiry: Expiry, maxAccesses: Option<Quota>,
                        env: Env)
    requires Inv(cfg, s) && DoCreateLink(s, user, id, expiry, maxAccesses, env).Done?
    ensures Inv(cfg, DoCreateLink(s, user, id, expiry, maxAccesses, env).store)
  {
    var s' := DoCreateLink(s, user, id, expiry, maxAccesses, env).store;
    assert forall u :: PinnedNotes(s', u) == PinnedNotes(s, u);
    forall i | 0 <= i < |s.links|
      ensures s.links[i].tokenHash != HashShareToken(env.token)
    {
      assert !LinkWith(HashShareToken(env.token))(s.links[i]);
    }
  }

  lemma AccessKeeps(cfg: Config, s: Store, token: RawToken, env: Env)
    requires Inv(cfg, s) && DoAccessLink(s, token, env).Done?
    ensures Inv(cfg, DoAccessLink(s, token, env).store)
  {
    var s' := DoAccessLink(s, token, env).store;
    var link := GetLink(s, HashShareToken(token)).row;
    assert link in s.links && LinkOk(link);
    assert forall u :: PinnedNotes(s', u) == PinnedNotes(s, u);
    forall l | l in s'.links
      ensures LinkOk(l) && l.noteId in s'.notes
    {
      var i :| 0 <= i < |s'.links| && s'.links[i] == l;
      assert s.links[i] in s.links;
    }
  }

  /** The requests that write the notes table. */
  predicate WritesNotes(op: Op) {
    op.CreateNote? || op.UpdateNote? || op.DeleteNote? || op.PinNote? || op.UnpinNote? || op.RestoreVersion?
  }

  lemma NoteStepKeeps(cfg: Config, s: Store, req: Request)
    requires Inv(cfg, s) && Apply(cfg, s, req).Done? && WritesNotes(req.op)
    ensures Inv(cfg, Step(cfg, s, req)) && Step(cfg, s, req).users == s.users
  {
    hide Inv, Find, EditRow, RestoreRow, Plaintext, Shown, Stamp;
    match req.op
    case CreateNote(title, content, isPrivate) => CreateKeeps(cfg, s, req.user, title, content, isPrivate, req.env);
    case UpdateNote(id, data) => UpdateKeeps(cfg, s, req.user, id, data, req.env);
    case DeleteNote(id) => DeleteKeeps(cfg, s, req.user, id, req.env);
    case PinNote(id) => PinKeeps(cfg, s, req.user, id, req.env);
    case UnpinNote(id) => UnpinKeeps(cfg, s, req.user, id, req.env);
    case RestoreVersion(id, number) => RestoreKeeps(cfg, s, req.user, id, number, req.env);
  }

  lemma OtherStepKeeps(cfg: Config, s: Store, req: Request)
    requires Inv(cfg, s) && Apply(cfg, s, req).Done? && !WritesNotes(req.op)
    ensures Inv(cfg, Step(cfg, s, req)) && Step(cfg, s, req).users == s.users
  {
    hide Inv, Find, PutShare, WithoutShare, PutLink, Hit;
    match req.op
    case ShareNote(id, target, permission) => ShareKeeps(cfg, s, req.user, id, target, permission, req.env);
    case UnshareNote(id, target) => UnshareKeeps(cfg, s, req.user, id, target, req.env);
    case CreateShareLink(id, expiry, maxAccesses) =>
      CreateLinkKeeps(cfg, s, req.user, id, expiry, maxAccesses, req.env);
    case AccessShareLink(token) => AccessKeeps(cfg, s, token, req.env);
    case _ =>
  }

  lemma StepKeeps(cfg: Config, s: Store, req: Request)
    requires Inv(cfg, s)
    ensures Inv(cfg, Step(cfg, s, req)) && Step(cfg, s, req).users == s.users
  {
    if Apply(cfg, s, req).Done? {
      if WritesNotes(req.op) {
        NoteStepKeeps(cfg, s, req);
      } else {
        OtherStepKeeps(cfg, s, req);
      }
    }
  }

  /** No other request touches the notes table, and only edits and restores touch the versions table. */
  lemma OthersKeepTables(cfg: Config, s: Store, req: Request)
    ensures !WritesNotes(req.op) ==> Step(cfg, s, req).notes == s.notes
    ensures !req.op.UpdateNote? && !req.op.RestoreVersion? ==> Step(cfg, s, req).versions == s.versions
  {
  }

  /** Deleting, pinning and unpinning leave title, content and privacy alone. */
  lemma FlagsKeepText(cfg: Config, s: Store, req: Request, n: NoteId)
    requires n in s.notes && (req.op.DeleteNote? || req.op.PinNote? || req.op.UnpinNote?)
    ensures var s' := Step(cfg, s, req);
      && s'.notes.Keys == s.notes.Keys
      && s'.notes[n].title == s.notes[n].title && s'.notes[n].content == s.notes[n].content
      && s'.notes[n].isPrivate == s.notes[n].isPrivate
  {
  }

  // The text of rows and snapshots.

  lemma CreateKeepsText(cfg: Config, s: Store, user: UserId, title: string, content: string, isPrivate: bool, env: Env)
    requires TextInv(s) && cfg.keyVersion != "" && DoCreate(cfg, s, user, title, content, isPrivate, env).Done?
    ensures TextInv(DoCreate(cfg, s, user, title, content, isPrivate, env).store)
  {
    assert Layers(Text(content)) == 0;
  }

  lemma UpdateKeepsText(cfg: Config, s: Store, user: UserId, id: NoteId, data: UpdateData, env: Env)
    requires TextInv(s) && cfg.keyVersion != "" && DoUpdate(cfg, s, user, id, data, env).Done?
    ensures TextInv(DoUpdate(cfg, s, user, id, data, env).store)
  {
    UpdateEffect(cfg, s, user, id, data, env);
    PlaintextIsText(s.notes[id]);
    EditKeepsRow(cfg, s.notes[id], data, env.nonce);
  }

  lemma VersionIsText(s: Store, id: NoteId, k: int)
    requires Layered(s) && 1 <= k <= |VersionsOf(s.versions, id)|
    ensures VersionsOf(s.versions, id)[k - 1].content.Text?
  {
    assert VersionsOf(s.versions, id)[k - 1] in VersionsOf(s.versions, id);
  }

  /** A restore keeps the layers whatever the key version is. */
  lemma RestoreKeepsLayers(cfg: Config, s: Store, user: UserId, id: NoteId, k: int, env: Env)
    requires Inv(cfg, s) && Layered(s) && DoRestore(cfg, s, user, id, k, env).Done?
    ensures Layered(DoRestore(cfg, s, user, id, k, env).store)
    ensures TextInv(s) && cfg.keyVersion != "" ==> TextInv(DoRestore(cfg, s, user, id, k, env).store)
  {
    hide DoRestore, VersionsOf, Inv;
    RestoreEffect(cfg, s, user, id, k, env);
    PlaintextIsText(s.notes[id]);
    VersionIsText(s, id, k);
    assert Layers(VersionsOf(s.versions, id)[k - 1].content) == 0;
  }

  lemma FlagsKeepRepresentation(cfg: Config, s: Store, req: Request)
    requires TextInv(s) && (req.op.DeleteNote? || req.op.PinNote? || req.op.UnpinNote?)
    ensures TextInv(Step(cfg, s, req))
  {
  }

  lemma StepKeepsText(cfg: Config, s: Store, req: Request)
    requires Inv(cfg, s) && TextInv(s) && cfg.keyVersion != ""
    ensures TextInv(Step(cfg, s, req))
  {
    if Apply(cfg, s, req).Done? && WritesNotes(req.op) {
      match req.op
      case CreateNote(title, content, isPrivate) =>
        CreateKeepsText(cfg, s, req.user, title, content, isPrivate, req.env);
      case UpdateNote(id, data) => UpdateKeepsText(cfg, s, req.user, id, data, req.env);
      case RestoreVersion(id, number) => RestoreKeepsLayers(cfg, s, req.user, id, number, req.env);
      case DeleteNote(_) => FlagsKeepRepresentation(cfg, s, req);
      case PinNote(_) => FlagsKeepRepresentation(cfg, s, req);
      case UnpinNote(_) => FlagsKeepRepresentation(cfg, s, req);
    } else {
      OthersKeepTables(cfg, s, req);
    }
  }

  lemma {:induction false} ContinueKeeps(cfg: Config, s: Store, reqs: seq<Request>)
    requires Inv(cfg, s)
    ensures Inv(cfg, Continue(cfg, s, reqs)) && Continue(cfg, s, reqs).users == s.users
    ensures TextInv(s) && cfg.keyVersion != "" ==> TextInv(Continue(cfg, s, reqs))
  {
    if reqs != [] {
      var s' := Continue(cfg, s, reqs[..|reqs| - 1]);
      ContinueKeeps(cfg, s, reqs[..|reqs| - 1]);
      StepKeeps(cfg, s', reqs[|reqs| - 1]);
      if TextInv(s) && cfg.keyVersion != "" {
        StepKeepsText(cfg, s', reqs[|reqs| - 1]);
      }
    }
  }

  /** Every reachable store satisfies the invariant; under a key version that is not empty its text is sound too. */
  lemma RunKeeps(cfg: Config, users: set<UserId>, reqs: seq<Request>)
    ensures Inv(cfg, Exec(cfg, users, reqs)) && Exec(cfg, users, reqs).users == users
    ensures cfg.keyVersion != "" ==> TextInv(Exec(cfg, users, reqs))
  {
    assert forall u :: PinnedNotes(EmptyStore(users), u) == {};
    assert forall n :: VersionsOf([], n) == [];
    ContinueKeeps(cfg, EmptyStore(users), reqs);
  }

  /** Running in two parts is running the whole. */
  lemma {:induction false} ContinueInParts(cfg: Config, s: Store, a: seq<Request>, b: seq<Request>)
    ensures Continue(cfg, Continue(cfg, s, a), b) == Continue(cfg, s, a + b)
  {
    if b == [] {
      assert a + b == a;
    } else {
      ContinueInParts(cfg, s, a, b[..|b| - 1]);
      assert (a + b)[..|a + b| - 1] == a + b[..|b| - 1];
    }
  }
}
