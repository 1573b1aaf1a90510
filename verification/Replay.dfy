/** The activity log as an event log: replaying it from empty gives the live state. */
module Replay {
  import opened Wrappers
  import opened Security
  import opened Models
  import opened Queries
  import opened NoteRules
  import opened Invariants
  import opened Deletion
  import opened History

  /** What the log is enough to know. A changed permission is not logged, so shares are pairs. */
  datatype View = View(
    existing: set<NoteId>,
    deleted: set<NoteId>,
    shared: set<(NoteId, UserId)>,
    pinned: set<NoteId>,
    versions: map<NoteId, nat>,
    links: map<NoteId, nat>,
    accesses: map<NoteId, nat>)

  function Bump(m: map<NoteId, nat>, n: NoteId): map<NoteId, nat> {
    m[n := 1 + if n in m then m[n] else 0]
  }

  function ReplayEntry(v: View, e: LogEntry): View {
    match e.action
    case NoteCreated =>
      v.(existing := v.existing + {e.noteId}, versions := v.versions[e.noteId := 0],
         links := v.links[e.noteId := 0], accesses := v.accesses[e.noteId := 0])
    case NoteUpdated => v.(versions := Bump(v.versions, e.noteId))
    case NoteVersionRestored => v.(versions := Bump(v.versions, e.noteId))
    case NoteDeleted => v.(deleted := v.deleted + {e.noteId}, pinned := v.pinned - {e.noteId})
    case NoteShared => if e.extra.SharedWith? then v.(shared := v.shared + {(e.noteId, e.extra.target)}) else v
    case NoteUnshared => if e.extra.RemovedUser? then v.(shared := v.shared - {(e.noteId, e.extra.removed)}) else v
    case NotePinned => v.(pinned := v.pinned + {e.noteId})
    case NoteUnpinned => v.(pinned := v.pinned - {e.noteId})
    case NoteShareLinkCreated => v.(links := Bump(v.links, e.noteId))
    case NoteShareLinkAccessed => v.(accesses := Bump(v.accesses, e.noteId))
  }

  function ReplayLog(log: seq<LogEntry>): View {
    if log == [] then View({}, {}, {}, {}, map[], map[], map[])
    else ReplayEntry(ReplayLog(log[..|log| - 1]), log[|log| - 1])
  }

  // The same facts read off the tables.

  function DeletedIn(notes: map<NoteId, NoteRow>): set<NoteId> {
    set n | n in notes && notes[n].IsDeleted()
  }

  function PinnedIn(notes: map<NoteId, NoteRow>): set<NoteId> {
    set n | n in notes && notes[n].isPinned
  }

  function PairOf(r: ShareRow): (NoteId, UserId) {
    (r.noteId, r.withId)
  }

  function Pairs(shares: seq<ShareRow>): set<(NoteId, UserId)> {
    set r | r in shares :: PairOf(r)
  }

  function VersionCounts(ids: set<NoteId>, vs: seq<VersionRow>): map<NoteId, nat> {
    map n | n in ids :: |VersionsOf(vs, n)|
  }

  function LinkCounts(ids: set<NoteId>, links: seq<LinkRow>): map<NoteId, nat> {
    map n | n in ids :: |LinksTo(links, n)|
  }

  function AccessTotals(ids: set<NoteId>, links: seq<LinkRow>): map<NoteId, nat> {
    map n | n in ids :: AccessTotal(links, n)
  }

  function Live(s: Store): View {
    View(s.notes.Keys, DeletedIn(s.notes), Pairs(s.shares), PinnedIn(s.notes),
         VersionCounts(s.notes.Keys, s.versions),
         LinkCounts(s.notes.Keys, s.links),
         AccessTotals(s.notes.Keys, s.links))
  }

  /** The request either logs nothing and changes no such fact, or logs the one entry that tells the change. */
  ghost predicate Logged(s: Store, s': Store) {
    if s'.log == s.log then Live(s') == Live(s)
    else |s'.log| == |s.log| + 1 && s'.log[..|s.log|] == s.log && Live(s') == ReplayEntry(Live(s), s'.log[|s.log|])
  }

  lemma TotalAppend(links: seq<LinkRow>, l: LinkRow, n: NoteId)
    ensures AccessTotal(links + [l], n) == AccessTotal(links, n) + if l.noteId == n then l.accessCount else 0
  {
    assert (links + [l])[..|links|] == links;
  }

  lemma NothingForNewNote(s: Store, n: NoteId)
    requires VersionsInv(s) && LinksInv(s) && n !in s.notes
    ensures VersionsOf(s.versions, n) == [] && LinksTo(s.links, n) == [] && AccessTotal(s.links, n) == 0
  {
    if VersionsOf(s.versions, n) != [] {
      VersionHasNote(s, n, VersionsOf(s.versions, n)[0]);
    }
    if LinksTo(s.links, n) != [] {
      LinkHasNote(s, n, LinksTo(s.links, n)[0]);
    }
    assert forall l | l in s.links :: l.noteId in s.notes;
    NoTotalWithoutLinks(s.links, n);
  }

  lemma LinkHasNote(s: Store, n: NoteId, l: LinkRow)
    requires LinksInv(s) && l in LinksTo(s.links, n)
    ensures n in s.notes
  {
  }

  lemma {:induction false} NoTotalWithoutLinks(links: seq<LinkRow>, n: NoteId)
    requires forall l | l in links :: l.noteId != n
    ensures AccessTotal(links, n) == 0
  {
    if links != [] {
      assert links[|links| - 1] in links;
      NoTotalWithoutLinks(links[..|links| - 1], n);
    }
  }

  lemma CreateIsLogged(cfg: Config, s: Store, user: UserId, title: string, content: string, isPrivate: bool, env: Env)
    requires Inv(cfg, s) && DoCreate(cfg, s, user, title, content, isPrivate, env).Done?
    ensures Logged(s, DoCreate(cfg, s, user, title, content, isPrivate, env).store)
  {
    var s' := DoCreate(cfg, s, user, title, content, isPrivate, env).store;
    NothingForNewNote(s, env.newId);
    NewNoteVersions(s.notes.Keys, s.versions, env.newId);
    NewNoteLinks(s.notes.Keys, s.links, env.newId);
    NewNoteFlags(s.notes, env.newId, s'.notes[env.newId]);
    assert s'.notes.Keys == s.notes.Keys + {env.newId};
  }

  lemma NewNoteVersions(ids: set<NoteId>, vs: seq<VersionRow>, id: NoteId)
    requires VersionsOf(vs, id) == []
    ensures VersionCounts(ids + {id}, vs) == VersionCounts(ids, vs)[id := 0]
  {
  }

  lemma NewNoteLinks(ids: set<NoteId>, links: seq<LinkRow>, id: NoteId)
    requires LinksTo(links, id) == [] && AccessTotal(links, id) == 0
    ensures LinkCounts(ids + {id}, links) == LinkCounts(ids, links)[id := 0]
    ensures AccessTotals(ids + {id}, links) == AccessTotals(ids, links)[id := 0]
  {
  }

  lemma NewNoteFlags(notes: map<NoteId, NoteRow>, id: NoteId, row: NoteRow)
    requires id !in notes && !row.IsDeleted() && !row.isPinned
    ensures DeletedIn(notes[id := row]) == DeletedIn(notes) && PinnedIn(notes[id := row]) == PinnedIn(notes)
  {
  }

  lemma OneMoreVersion(ids: set<NoteId>, vs: seq<VersionRow>, v: VersionRow)
    requires v.noteId in ids
    ensures VersionCounts(ids, vs + [v]) == Bump(VersionCounts(ids, vs), v.noteId)
  {
    forall n | n in ids
      ensures |VersionsOf(vs + [v], n)| == |VersionsOf(vs, n)| + if n == v.noteId then 1 else 0
    {
      VersionsAppend(vs, v, n);
    }
  }

  /** One more version of note id, and every other fact unchanged. */
  lemma SnapshotIsLogged(s: Store, s': Store, id: NoteId, v: VersionRow, e: LogEntry)
    requires id in s.notes && id in s'.notes && s'.notes == s.notes[id := s'.notes[id]]
    requires s'.notes[id].IsDeleted() == s.notes[id].IsDeleted() && s'.notes[id].isPinned == s.notes[id].isPinned
    requires s'.shares == s.shares && s'.links == s.links && s'.versions == s.versions + [v] && v.noteId == id
    requires s'.log == s.log + [e] && e.noteId == id && (e.action == NoteUpdated || e.action == NoteVersionRestored)
    ensures Logged(s, s')
  {
    hide VersionCounts, LinkCounts, AccessTotals, Pairs, DeletedIn, PinnedIn;
    assert s'.notes.Keys == s.notes.Keys;
    OneMoreVersion(s.notes.Keys, s.versions, v);
    SameFlags(s.notes, s'.notes, id);
  }

  lemma SameFlags(notes: map<NoteId, NoteRow>, notes': map<NoteId, NoteRow>, id: NoteId)
    requires id in notes && id in notes' && notes' == notes[id := notes'[id]]
    requires notes'[id].IsDeleted() == notes[id].IsDeleted() && notes'[id].isPinned == notes[id].isPinned
    ensures DeletedIn(notes') == DeletedIn(notes) && PinnedIn(notes') == PinnedIn(notes)
  {
  }

  lemma UpdateIsLogged(cfg: Config, s: Store, user: UserId, id: NoteId, data: UpdateData, env: Env)
    requires Inv(cfg, s) && DoUpdate(cfg, s, user, id, data, env).Done?
    ensures Logged(s, DoUpdate(cfg, s, user, id, data, env).store)
  {
    var s' := DoUpdate(cfg, s, user, id, data, env).store;
    UpdateEffect(cfg, s, user, id, data, env);
    EditKeepsFlags(cfg, s.notes[id], data, env.nonce);
    UpdateEntry(cfg, s, user, id, data, env);
    SnapshotIsLogged(s, s', id, s'.versions[|s.versions|], s'.log[|s.log|]);
  }

  lemma UpdateEntry(cfg: Config, s: Store, user: UserId, id: NoteId, data: UpdateData, env: Env)
    requires DoUpdate(cfg, s, user, id, data, env).Done?
    ensures exists e ::
      DoUpdate(cfg, s, user, id, data, env).store.log == s.log + [e] && e.noteId == id && e.action == NoteUpdated
  {
    var s' := DoUpdate(cfg, s, user, id, data, env).store;
    assert s'.log == s.log + [s'.log[|s.log|]];
  }

  lemma RestoreEntry(cfg: Config, s: Store, user: UserId, id: NoteId, k: int, env: Env)
    requires DoRestore(cfg, s, user, id, k, env).Done?
    ensures exists e ::
      DoRestore(cfg, s, user, id, k, env).store.log == s.log + [e] && e.noteId == id && e.action == NoteVersionRestored
  {
    var s' := DoRestore(cfg, s, user, id, k, env).store;
    assert s'.log == s.log + [s'.log[|s.log|]];
  }

  lemma RestoreIsLogged(cfg: Config, s: Store, user: UserId, id: NoteId, k: int, env: Env)
    requires Inv(cfg, s) && DoRestore(cfg, s, user, id, k, env).Done?
    ensures Logged(s, DoRestore(cfg, s, user, id, k, env).store)
  {
    var s' := DoRestore(cfg, s, user, id, k, env).store;
    RestoreEffect(cfg, s, user, id, k, env);
    RestoreEntry(cfg, s, user, id, k, env);
    SnapshotIsLogged(s, s', id, s'.versions[|s.versions|], s'.log[|s.log|]);
  }

  /** A flag of note id changed and the entry says so. */
  lemma FlagIsLogged(s: Store, s': Store, id: NoteId, e: LogEntry)
    requires id in s.notes && id in s'.notes && s'.notes == s.notes[id := s'.notes[id]]
    requires s'.shares == s.shares && s'.links == s.links && s'.versions == s.versions
    requires s'.log == s.log + [e] && e.noteId == id
    requires var row, row' := s.notes[id], s'.notes[id];
      match e.action
      case NoteDeleted => row'.IsDeleted() && !row'.isPinned
      case NotePinned => row'.IsDeleted() == row.IsDeleted() && row'.isPinned
      case NoteUnpinned => row'.IsDeleted() == row.IsDeleted() && !row'.isPinned
      case _ => false
    ensures Logged(s, s')
  {
    assert s'.notes.Keys == s.notes.Keys;
    assert DeletedIn(s'.notes) == if e.action == NoteDeleted then DeletedIn(s.notes) + {id} else DeletedIn(s.notes);
    assert PinnedIn(s'.notes) == if e.action == NotePinned then PinnedIn(s.notes) + {id} else PinnedIn(s.notes) - {id};
  }

  lemma DeleteIsLogged(s: Store, user: UserId, id: NoteId, env: Env)
    requires DoDelete(s, user, id, env).Done?
    ensures Logged(s, DoDelete(s, user, id, env).store)
  {
    FlagIsLogged(s, DoDelete(s, user, id, env).store, id, LogEntry(Some(user), NoteDeleted, id, NoExtra, env.now));
  }

  lemma PinIsLogged(cfg: Config, s: Store, user: UserId, id: NoteId, env: Env)
    requires DoPin(cfg, s, user, id, env).Done?
    ensures Logged(s, DoPin(cfg, s, user, id, env).store)
  {
    FlagIsLogged(s, DoPin(cfg, s, user, id, env).store, id, LogEntry(Some(user), NotePinned, id, NoExtra, env.now));
  }

  lemma UnpinIsLogged(s: Store, user: UserId, id: NoteId, env: Env)
    requires DoUnpin(s, user, id, env).Done?
    ensures Logged(s, DoUnpin(s, user, id, env).store)
  {
    FlagIsLogged(s, DoUnpin(s, user, id, env).store, id, LogEntry(Some(user), NoteUnpinned, id, NoExtra, env.now));
  }

  lemma PutShareKeepsPairs(shares: seq<ShareRow>, row: ShareRow)
    ensures Pairs(PutShare(shares, row)) == Pairs(shares)
  {
    var ys := PutShare(shares, row);
    forall i | 0 <= i < |shares|
      ensures PairOf(shares[i]) in Pairs(ys) && PairOf(ys[i]) in Pairs(shares)
    {
      assert shares[i] in shares && ys[i] in ys;
      assert ys[i] == if ShareOf(row.noteId, row.withId)(shares[i]) then row else shares[i];
      assert PairOf(shares[i]) == PairOf(ys[i]);
    }
  }

  lemma ShareIsLogged(s: Store, user: UserId, id: NoteId, target: UserId, permission: Permission, env: Env)
    requires DoShare(s, user, id, target, permission, env).Done?
    ensures Logged(s, DoShare(s, user, id, target, permission, env).store)
  {
    match GetShare(s, id, target)
    case Unique(share) => PutShareKeepsPairs(s.shares, share.(permission := permission));
    case Absent => OneMorePair(s.shares, ShareRow(id, target, user, permission));
  }

  lemma OneMorePair(shares: seq<ShareRow>, row: ShareRow)
    ensures Pairs(shares + [row]) == Pairs(shares) + {PairOf(row)}
  {
    assert forall r :: r in shares + [row] <==> r in shares || r == row;
  }

  lemma OnePairLess(shares: seq<ShareRow>, n: NoteId, u: UserId)
    ensures Pairs(WithoutShare(shares, n, u)) == Pairs(shares) - {(n, u)}
  {
    assert forall r :: r in WithoutShare(shares, n, u) <==> r in shares && PairOf(r) != (n, u);
  }

  lemma UnshareIsLogged(s: Store, user: UserId, id: NoteId, target: UserId, env: Env)
    requires DoUnshare(s, user, id, target, env).Done?
    ensures Logged(s, DoUnshare(s, user, id, target, env).store)
  {
    OnePairLess(s.shares, id, target);
  }

  lemma OneMoreLink(ids: set<NoteId>, links: seq<LinkRow>, l: LinkRow)
    requires l.noteId in ids && l.accessCount == 0
    ensures LinkCounts(ids, links + [l]) == Bump(LinkCounts(ids, links), l.noteId)
    ensures AccessTotals(ids, links + [l]) == AccessTotals(ids, links)
  {
    forall n | n in ids
      ensures |LinksTo(links + [l], n)| == |LinksTo(links, n)| + if n == l.noteId then 1 else 0
      ensures AccessTotal(links + [l], n) == AccessTotal(links, n)
    {
      LinksAppend(links, l, n);
      TotalAppend(links, l, n);
    }
  }

  lemma CreateLinkIsLogged(s: Store, user: UserId, id: NoteId, expiry: Expiry, maxAccesses: Option<Quota>, env: Env)
    requires DoCreateLink(s, user, id, expiry, maxAccesses, env).Done?
    ensures Logged(s, DoCreateLink(s, user, id, expiry, maxAccesses, env).store)
  {
    var l, e := CreateLinkEffect(s, user, id, expiry, maxAccesses, env);
    OneMoreLink(s.notes.Keys, s.links, l);
    LinksOnly(s, DoCreateLink(s, user, id, expiry, maxAccesses, env).store, e);
  }

  lemma CreateLinkEffect(s: Store, user: UserId, id: NoteId, expiry: Expiry, maxAccesses: Option<Quota>, env: Env)
    returns (l: LinkRow, e: LogEntry)
    requires DoCreateLink(s, user, id, expiry, maxAccesses, env).Done?
    ensures DoCreateLink(s, user, id, expiry, maxAccesses, env).store == s.(links := s.links + [l], log := s.log + [e])
    ensures l.noteId == id && id in s.notes && l.accessCount == 0 && e.noteId == id && e.action == NoteShareLinkCreated
  {
    l := LinkRow(HashShareToken(env.token), id, user, env.now + Lifetime(expiry), 0, maxAccesses, true);
    e := LogEntry(Some(user), NoteShareLinkCreated, id, LinkTerms(expiry, maxAccesses), env.now);
  }

  /** A change of the links table, told by one entry. */
  lemma LinksOnly(s: Store, s': Store, e: LogEntry)
    requires s' == s.(links := s'.links, log := s.log + [e])
    requires Live(s).(links := LinkCounts(s.notes.Keys, s'.links), accesses := AccessTotals(s.notes.Keys, s'.links))
             == ReplayEntry(Live(s), e)
    ensures Logged(s, s')
  {
  }

  lemma {:induction false} PutLinkAbsent(links: seq<LinkRow>, row: LinkRow)
    requires forall i | 0 <= i < |links| :: links[i].tokenHash != row.tokenHash
    ensures PutLink(links, row) == links
  {
  }

  /** Rewriting one link of a note changes that note's total by the difference and no count of links. */
  lemma {:induction false} PutLinkTotals(links: seq<LinkRow>, row: LinkRow, k: nat, n: NoteId)
    requires k < |links| && links[k].tokenHash == row.tokenHash && links[k].noteId == row.noteId
    requires forall i | 0 <= i < |links| && links[i].tokenHash == row.tokenHash :: i == k
    ensures |LinksTo(PutLink(links, row), n)| == |LinksTo(links, n)|
    ensures AccessTotal(PutLink(links, row), n) ==
      AccessTotal(links, n) + if row.noteId == n then row.accessCount - links[k].accessCount else 0
  {
    hide PutLink, LinksTo, AccessTotal;
    var init, last := links[..|links| - 1], links[|links| - 1];
    var last' := if last.tokenHash == row.tokenHash then row else last;
    assert forall i | 0 <= i < |init| :: init[i] == links[i];
    assert links == init + [last];
    PutLinkAppend(init, last, row);
    LinksAppend(PutLink(init, row), last', n);
    TotalAppend(PutLink(init, row), last', n);
    LinksAppend(init, last, n);
    TotalAppend(init, last, n);
    if k == |links| - 1 {
      PutLinkAbsent(init, row);
    } else {
      PutLinkTotals(init, row, k, n);
    }
  }

  lemma PutLinkAppend(links: seq<LinkRow>, l: LinkRow, row: LinkRow)
    ensures PutLink(links + [l], row) == PutLink(links, row) + [if l.tokenHash == row.tokenHash then row else l]
  {
  }

  lemma OneMoreAccess(ids: set<NoteId>, links: seq<LinkRow>, row: LinkRow, k: nat)
    requires k < |links| && links[k].tokenHash == row.tokenHash && links[k].noteId == row.noteId && row.noteId in ids
    requires forall i | 0 <= i < |links| && links[i].tokenHash == row.tokenHash :: i == k
    requires row.accessCount == links[k].accessCount + 1
    ensures LinkCounts(ids, PutLink(links, row)) == LinkCounts(ids, links)
    ensures AccessTotals(ids, PutLink(links, row)) == Bump(AccessTotals(ids, links), row.noteId)
  {
    hide PutLink, LinksTo, AccessTotal;
    forall n | n in ids
      ensures |LinksTo(PutLink(links, row), n)| == |LinksTo(links, n)|
      ensures AccessTotal(PutLink(links, row), n) == AccessTotal(links, n) + if row.noteId == n then 1 else 0
    {
      PutLinkTotals(links, row, k, n);
    }
  }

  lemma AccessIsLogged(s: Store, token: RawToken, env: Env)
    requires LinksUnique(s.links) && DoAccessLink(s, token, env).Done?
    ensures Logged(s, DoAccessLink(s, token, env).store)
  {
    hide DoAccessLink, PutLink, LinkCounts, AccessTotals, VersionCounts, Pairs, DeletedIn, PinnedIn;
    var k, row, e := AccessEffect(s, token, env);
    OneMoreAccess(s.notes.Keys, s.links, row, k);
    LinksOnly(s, DoAccessLink(s, token, env).store, e);
  }

  lemma AccessEffect(s: Store, token: RawToken, env: Env) returns (k: nat, row: LinkRow, e: LogEntry)
    requires LinksUnique(s.links) && DoAccessLink(s, token, env).Done?
    ensures DoAccessLink(s, token, env).store == s.(links := PutLink(s.links, row), log := s.log + [e])
    ensures k < |s.links| && s.links[k].tokenHash == row.tokenHash && s.links[k].noteId == row.noteId
    ensures forall i | 0 <= i < |s.links| && s.links[i].tokenHash == row.tokenHash :: i == k
    ensures row.accessCount == s.links[k].accessCount + 1 && row.noteId in s.notes
    ensures e.noteId == row.noteId && e.action == NoteShareLinkAccessed
  {
    var link := GetLink(s, HashShareToken(token)).row;
    row := Hit(link);
    e := LogEntry(None, NoteShareLinkAccessed, link.noteId, AccessCount(row.accessCount), env.now);
    k :| 0 <= k < |s.links| && s.links[k] == link;
  }

  lemma NoteStepIsLogged(cfg: Config, s: Store, req: Request)
    requires Inv(cfg, s) && Apply(cfg, s, req).Done? && WritesNotes(req.op)
    ensures Logged(s, Step(cfg, s, req))
  {
    hide Inv, Logged, Find, EditRow, RestoreRow, Plaintext, Shown, Stamp;
    match req.op
    case CreateNote(title, content, isPrivate) => CreateIsLogged(cfg, s, req.user, title, content, isPrivate, req.env);
    case UpdateNote(id, data) => UpdateIsLogged(cfg, s, req.user, id, data, req.env);
    case DeleteNote(id) => DeleteIsLogged(s, req.user, id, req.env);
    case PinNote(id) => PinIsLogged(cfg, s, req.user, id, req.env);
    case UnpinNote(id) => UnpinIsLogged(s, req.user, id, req.env);
    case RestoreVersion(id, k) => RestoreIsLogged(cfg, s, req.user, id, k, req.env);
  }

  lemma OtherStepIsLogged(cfg: Config, s: Store, req: Request)
    requires LinksUnique(s.links) && Apply(cfg, s, req).Done? && !WritesNotes(req.op)
    ensures Logged(s, Step(cfg, s, req))
  {
    hide VersionCounts, LinkCounts, AccessTotals, Pairs, DeletedIn, PinnedIn;
    hide Find, PutShare, WithoutShare, PutLink, Hit;
    match req.op
    case ShareNote(id, target, permission) => ShareIsLogged(s, req.user, id, target, permission, req.env);
    case UnshareNote(id, target) => UnshareIsLogged(s, req.user, id, target, req.env);
    case CreateShareLink(id, expiry, maxAccesses) => CreateLinkIsLogged(s, req.user, id, expiry, maxAccesses, req.env);
    case AccessShareLink(token) => AccessIsLogged(s, token, req.env);
    case _ =>
  }

  /** Replaying the activity log from empty reconstructs the live state of every reachable store. */
  lemma {:induction false} ReplayReconstructs(cfg: Config, users: set<UserId>, reqs: seq<Request>)
    ensures ReplayLog(Exec(cfg, users, reqs).log) == Live(Exec(cfg, users, reqs))
  {
    if reqs == [] {
      assert Live(EmptyStore(users)) == View({}, {}, {}, {}, map[], map[], map[]);
    } else {
      var s, req := Exec(cfg, users, reqs[..|reqs| - 1]), reqs[|reqs| - 1];
      ReplayReconstructs(cfg, users, reqs[..|reqs| - 1]);
      RunKeeps(cfg, users, reqs[..|reqs| - 1]);
      if Apply(cfg, s, req).Done? {
        if WritesNotes(req.op) {
          NoteStepIsLogged(cfg, s, req);
        } else {
          OtherStepIsLogged(cfg, s, req);
        }
        var s' := Step(cfg, s, req);
        if s'.log != s.log {
          assert s'.log[..|s'.log| - 1] == s.log;
        }
      }
    }
  }

  /** The log is append-only: no request changes or removes an entry. */
  lemma {:induction false} LogIsAppendOnly(cfg: Config, s: Store, reqs: seq<Request>)
    ensures s.log <= Continue(cfg, s, reqs).log
  {
    if reqs != [] {
      LogIsAppendOnly(cfg, s, reqs[..|reqs| - 1]);
      LogStep(cfg, Continue(cfg, s, reqs[..|reqs| - 1]), reqs[|reqs| - 1]);
    }
  }

  lemma LogStep(cfg: Config, s: Store, req: Request)
    ensures s.log <= Step(cfg, s, req).log
  {
    hide Find, PutShare, WithoutShare, PutLink, Hit, EditRow, RestoreRow, Plaintext, Shown, Stamp;
  }
}
