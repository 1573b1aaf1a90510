/** Soft deletion is terminal, and the pinned set stays small. */
module Deletion {
  import opened Wrappers
  import opened Security
  import opened Models
  import opened Queries
  import opened Listing
  import opened NoteRules
  import opened Invariants
  import opened Sharing
  import opened Links

  ghost predicate Deleted(s: Store, n: NoteId) {
    n in s.notes && s.notes[n].IsDeleted()
  }

  /** What a later store may differ in about a deleted note: shares may be withdrawn, nothing else. */
  ghost predicate FrozenSince(s: Store, s': Store, n: NoteId) {
    && n in s.notes && n in s'.notes && s'.notes[n] == s.notes[n]
    && VersionsOf(s'.versions, n) == VersionsOf(s.versions, n)
    && LinksTo(s'.links, n) == LinksTo(s.links, n)
    && forall u :: PermissionOf(s', n, u) == PermissionOf(s, n, u) || PermissionOf(s', n, u) == None
  }

  lemma NotesFrozen(cfg: Config, s: Store, req: Request, n: NoteId)
    requires PinsInv(cfg, s) && Deleted(s, n)
    ensures n in Step(cfg, s, req).notes && Step(cfg, s, req).notes[n] == s.notes[n]
  {
    hide Find, PutShare, WithoutShare, PutLink, Hit, Shown, Plaintext, NextVersionNumber, EditRow, RestoreRow;
    assert PinOk(s.notes[n]);
  }

  lemma VersionsFrozen(cfg: Config, s: Store, req: Request, n: NoteId)
    requires Deleted(s, n)
    ensures VersionsOf(Step(cfg, s, req).versions, n) == VersionsOf(s.versions, n)
  {
    OthersKeepTables(cfg, s, req);
    var s' := Step(cfg, s, req);
    if s'.versions != s.versions {
      SnapshotsOfLiveNotes(cfg, s, req);
      VersionsAppend(s.versions, s'.versions[|s.versions|], n);
    }
  }

  lemma SnapshotsOfLiveNotes(cfg: Config, s: Store, req: Request)
    requires Step(cfg, s, req).versions != s.versions
    ensures exists v ::
      Step(cfg, s, req).versions == s.versions + [v] && v.noteId in s.notes && !s.notes[v.noteId].IsDeleted()
  {
    var s' := Step(cfg, s, req);
    assert s'.versions == s.versions + [s'.versions[|s.versions|]];
  }

  lemma LinksAppend(links: seq<LinkRow>, l: LinkRow, n: NoteId)
    ensures LinksTo(links + [l], n) == if l.noteId == n then LinksTo(links, n) + [l] else LinksTo(links, n)
  {
    assert (links + [l])[..|links|] == links;
  }

  /** Counting an access of another note's link leaves the links of n alone. */
  lemma {:induction false} PutLinkElsewhere(links: seq<LinkRow>, row: LinkRow, n: NoteId)
    requires row.noteId != n
    requires forall i | 0 <= i < |links| && links[i].tokenHash == row.tokenHash :: links[i].noteId == row.noteId
    ensures LinksTo(PutLink(links, row), n) == LinksTo(links, n)
  {
    if links != [] {
      var init, last := links[..|links| - 1], links[|links| - 1];
      assert forall i | 0 <= i < |init| :: init[i] == links[i];
      PutLinkElsewhere(init, row, n);
      var ys := PutLink(links, row);
      assert ys == PutLink(init, row) + [ys[|links| - 1]];
      LinksAppend(PutLink(init, row), ys[|links| - 1], n);
    }
  }

  lemma LinksFrozen(cfg: Config, s: Store, req: Request, n: NoteId)
    requires LinksUnique(s.links) && Deleted(s, n)
    ensures LinksTo(Step(cfg, s, req).links, n) == LinksTo(s.links, n)
  {
    if Apply(cfg, s, req).Done? {
      match req.op
      case CreateShareLink(id, expiry, maxAccesses) =>
        LinksAppend(s.links, Step(cfg, s, req).links[|s.links|], n);
      case AccessShareLink(token) => AccessFrozen(s, token, req.env, n);
      case _ => OthersKeepLinks(cfg, s, req);
    }
  }

  lemma AccessFrozen(s: Store, token: RawToken, env: Env, n: NoteId)
    requires LinksUnique(s.links) && Deleted(s, n) && DoAccessLink(s, token, env).Done?
    ensures LinksTo(DoAccessLink(s, token, env).store.links, n) == LinksTo(s.links, n)
  {
    var row := GetLink(s, HashShareToken(token)).row;
    forall i | 0 <= i < |s.links| && s.links[i].tokenHash == row.tokenHash
      ensures s.links[i].noteId == row.noteId
    {
      FindAt(s.links, LinkWith(HashShareToken(token)), i);
    }
    PutLinkElsewhere(s.links, Hit(row), n);
  }

  lemma SharesFrozen(cfg: Config, s: Store, req: Request, n: NoteId, u: UserId)
    requires SharesUnique(s.shares) && Deleted(s, n)
    ensures PermissionOf(Step(cfg, s, req), n, u) == PermissionOf(s, n, u)
      || PermissionOf(Step(cfg, s, req), n, u) == None
  {
    if Apply(cfg, s, req).Done? {
      StepGrants(cfg, s, req, n, u);
    }
  }

  /** In every continuation a deleted note keeps its whole row (title, content, privacy, unpinned), its versions
      and its links with their counters, and gains no share. */
  lemma {:induction false} DeletionIsTerminal(cfg: Config, s: Store, reqs: seq<Request>, n: NoteId)
    requires Inv(cfg, s) && Deleted(s, n)
    ensures FrozenSince(s, Continue(cfg, s, reqs), n) && !Continue(cfg, s, reqs).notes[n].isPinned
  {
    if reqs == [] {
      assert PinOk(s.notes[n]);
    } else {
      var s', req := Continue(cfg, s, reqs[..|reqs| - 1]), reqs[|reqs| - 1];
      DeletionIsTerminal(cfg, s, reqs[..|reqs| - 1], n);
      ContinueKeeps(cfg, s, reqs[..|reqs| - 1]);
      NotesFrozen(cfg, s', req, n);
      VersionsFrozen(cfg, s', req, n);
      LinksFrozen(cfg, s', req, n);
      forall u
        ensures PermissionOf(Step(cfg, s', req), n, u) == PermissionOf(s, n, u)
          || PermissionOf(Step(cfg, s', req), n, u) == None
      {
        SharesFrozen(cfg, s', req, n, u);
      }
    }
  }

  /** A deleted note is in no list, and no link to it is granted. */
  lemma DeletedIsUnreachable(cfg: Config, s: Store, n: NoteId, u: UserId, search: Option<set<NoteId>>, token: RawToken,
                             env: Env)
    requires Inv(cfg, s) && Deleted(s, n)
    ensures n !in OwnedList(s, u, search, true) && n !in SharedList(s, u)
    ensures GetLink(s, HashShareToken(token)).Unique? && GetLink(s, HashShareToken(token)).row.noteId == n
            ==> !DoAccessLink(s, token, env).Done?
  {
    OwnedListIsExact(s, u, search, true);
    SameMembers(SharedJoin(s.shares, s.notes, u), SharedList(s, u));
  }

  /** In every reachable store each owner's counting query stays within the limit, the pinned notes it counts are
      all the owner's pinned notes, none of them is deleted, and pinned_at is set iff is_pinned. */
  lemma PinsStayWithinLimit(cfg: Config, users: set<UserId>, reqs: seq<Request>, u: UserId)
    ensures var s := Exec(cfg, users, reqs);
      && |PinnedNotes(s, u)| <= Limit(cfg)
      && PinnedNotes(s, u) == (set n | n in s.notes && s.notes[n].ownerId == u && s.notes[n].isPinned)
      && forall n | n in s.notes :: (s.notes[n].isPinned <==> s.notes[n].pinnedAt.Some?)
                                    && (s.notes[n].isPinned ==> !s.notes[n].IsDeleted())
  {
    RunKeeps(cfg, users, reqs);
    var s := Exec(cfg, users, reqs);
    assert forall n | n in s.notes :: PinOk(s.notes[n]);
  }
}
