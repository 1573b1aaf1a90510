/** What the activity log says of each change: who, what, and which version it saved. */
module Audit {
  import opened Wrappers
  import opened Security
  import opened Models
  import opened Queries
  import opened NoteRules
  import opened Invariants
  import opened Links

  predicate Reads(op: Op) {
    op.GetNote? || op.ListNotes? || op.ListShared? || op.GetNoteVersion?
  }

  /** The requests that succeed without a log entry: reading, and changing an existing share's permission. */
  predicate Silent(s: Store, op: Op) {
    Reads(op) || (op.ShareNote? && GetShare(s, op.id, op.target).Unique?)
  }

  function ActionOf(op: Op): Action
    requires !Reads(op)
  {
    match op
    case CreateNote(_, _, _) => NoteCreated
    case UpdateNote(_, _) => NoteUpdated
    case DeleteNote(_) => NoteDeleted
    case ShareNote(_, _, _) => NoteShared
    case UnshareNote(_, _) => NoteUnshared
    case PinNote(_) => NotePinned
    case UnpinNote(_) => NoteUnpinned
    case RestoreVersion(_, _) => NoteVersionRestored
    case CreateShareLink(_, _, _) => NoteShareLinkCreated
    case AccessShareLink(_) => NoteShareLinkAccessed
  }

  /** The note a successful request is about. */
  predicate IsAbout(s: Store, req: Request, n: NoteId)
    requires !Reads(req.op)
  {
    match req.op
    case CreateNote(_, _, _) => n == req.env.newId
    case AccessShareLink(token) =>
      GetLink(s, HashShareToken(token)).Unique? && GetLink(s, HashShareToken(token)).row.noteId == n
    case UpdateNote(id, _) => n == id
    case DeleteNote(id) => n == id
    case ShareNote(id, _, _) => n == id
    case UnshareNote(id, _) => n == id
    case PinNote(id) => n == id
    case UnpinNote(id) => n == id
    case RestoreVersion(id, _) => n == id
    case CreateShareLink(id, _, _) => n == id
  }

  /** A successful request appends exactly one entry, with its actor (nobody for a link access), its action, its
      note and its time; a silent one appends none, and a read changes nothing at all. */
  lemma EveryWriteIsLoggedOnce(cfg: Config, s: Store, req: Request)
    requires Apply(cfg, s, req).Done?
    ensures Reads(req.op) ==> Step(cfg, s, req) == s
    ensures Silent(s, req.op) ==> Step(cfg, s, req).log == s.log
    ensures !Silent(s, req.op) ==>
      var log := Step(cfg, s, req).log;
      && |log| == |s.log| + 1 && log[..|s.log|] == s.log
      && var e := log[|s.log|];
        && e.userId == (if req.op.AccessShareLink? then None else Some(req.user))
        && e.action == ActionOf(req.op) && IsAbout(s, req, e.noteId) && e.at == req.env.now
  {
    hide Find, PutShare, WithoutShare, PutLink, Hit, EditRow, RestoreRow, Plaintext, Shown, Stamp, NextVersionNumber;
  }

  /** The details of an entry, told from the request and the run before it: what was created, shared, withdrawn or
      offered, which version was saved, and the how-manieth access it is. */
  function Detail(cfg: Config, users: set<UserId>, reqs: seq<Request>, op: Op): Extra
    requires !Reads(op)
  {
    var s := Exec(cfg, users, reqs);
    match op
    case CreateNote(title, _, isPrivate) => CreatedAs(title, isPrivate)
    case UpdateNote(id, _) => VersionSaved(|VersionsOf(s.versions, id)| + 1)
    case RestoreVersion(id, k) =>
      if k < 0 then NoExtra else Restored(k, |VersionsOf(s.versions, id)| + 1)
    case ShareNote(_, target, permission) => SharedWith(target, permission)
    case UnshareNote(_, target) => RemovedUser(target)
    case CreateShareLink(_, expiry, maxAccesses) => LinkTerms(expiry, maxAccesses)
    case AccessShareLink(token) => AccessCount(Grants(cfg, users, reqs, token) + 1)
    case DeleteNote(_) => NoExtra
    case PinNote(_) => NoExtra
    case UnpinNote(_) => NoExtra
  }

  lemma EditDetail(cfg: Config, s: Store, req: Request)
    requires VersionsInv(s) && Apply(cfg, s, req).Done? && (req.op.UpdateNote? || req.op.RestoreVersion?)
    ensures |Step(cfg, s, req).log| == |s.log| + 1
    ensures var e, next := Step(cfg, s, req).log[|s.log|], |VersionsOf(s.versions, req.op.id)| + 1;
      && (req.op.UpdateNote? ==> e.extra == VersionSaved(next))
      && (req.op.RestoreVersion? ==> req.op.number >= 0 && e.extra == Restored(req.op.number, next))
  {
    hide VersionsOf, Find, Shown, Plaintext, EditRow, RestoreRow, Stamp, MaxNumber, Barrier;
    var n := req.op.id;
    assert Numbered(VersionsOf(s.versions, n));
    MaxOfNumbered(VersionsOf(s.versions, n));
    if req.op.RestoreVersion? {
      FindNumbered(VersionsOf(s.versions, n), req.op.number);
    }
  }

  /** In every run an entry carries exactly those details. */
  lemma EntriesTellDetails(cfg: Config, users: set<UserId>, reqs: seq<Request>, req: Request)
    requires var s := Exec(cfg, users, reqs); Apply(cfg, s, req).Done? && !Silent(s, req.op)
    ensures var s := Exec(cfg, users, reqs); var log := Step(cfg, s, req).log;
      |log| == |s.log| + 1 && log[|s.log|].extra == Detail(cfg, users, reqs, req.op)
  {
    hide VersionsOf, Find, Shown, Plaintext, EditRow, RestoreRow, Stamp, PutLink, PutShare, WithoutShare, Exec, Grants;
    var s := Exec(cfg, users, reqs);
    RunKeeps(cfg, users, reqs);
    if req.op.UpdateNote? || req.op.RestoreVersion? {
      EditDetail(cfg, s, req);
    } else if req.op.AccessShareLink? {
      CountIsGrants(cfg, users, reqs, req.op.token);
    }
  }

  /** A version's number and author. */
  type Signature = (nat, Option<UserId>)

  /** The versions of n that the log says were saved. */
  function Announced(log: seq<LogEntry>, n: NoteId): seq<Signature> {
    if log == [] then []
    else
      var init, last := Announced(log[..|log| - 1], n), log[|log| - 1];
      if last.noteId != n then init
      else
        match last.extra
        case VersionSaved(number) => init + [(number, last.userId)]
        case Restored(_, snapshot) => init + [(snapshot, last.userId)]
        case _ => init
  }

  function Signatures(vs: seq<VersionRow>): seq<Signature> {
    seq(|vs|, i requires 0 <= i < |vs| => (vs[i].number, Some(vs[i].modifiedBy)))
  }

  lemma AnnouncedAppend(log: seq<LogEntry>, e: LogEntry, n: NoteId)
    ensures Announced(log + [e], n) ==
      Announced(log, n) + (if e.noteId != n then [] else
        match e.extra
        case VersionSaved(number) => [(number, e.userId)]
        case Restored(_, snapshot) => [(snapshot, e.userId)]
        case _ => [])
  {
    assert (log + [e])[..|log|] == log;
  }

  lemma SignaturesAppend(vs: seq<VersionRow>, v: VersionRow)
    ensures Signatures(vs + [v]) == Signatures(vs) + [(v.number, Some(v.modifiedBy))]
  {
  }

  /** A snapshot and the entry that announces it. */
  lemma SnapshotIsAnnounced(s: Store, s': Store, v: VersionRow, e: LogEntry, n: NoteId)
    requires s'.versions == s.versions + [v] && s'.log == s.log + [e]
    requires e.noteId == v.noteId && e.userId == Some(v.modifiedBy)
    requires e.extra == VersionSaved(v.number) || (e.extra.Restored? && e.extra.snapshot == v.number)
    requires Announced(s.log, n) == Signatures(VersionsOf(s.versions, n))
    ensures Announced(s'.log, n) == Signatures(VersionsOf(s'.versions, n))
  {
    VersionsAppend(s.versions, v, n);
    AnnouncedAppend(s.log, e, n);
    SignaturesAppend(VersionsOf(s.versions, n), v);
  }

  lemma UpdateAnnounces(cfg: Config, s: Store, user: UserId, id: NoteId, data: UpdateData, env: Env, n: NoteId)
    requires DoUpdate(cfg, s, user, id, data, env).Done?
    requires Announced(s.log, n) == Signatures(VersionsOf(s.versions, n))
    ensures var s' := DoUpdate(cfg, s, user, id, data, env).store;
      Announced(s'.log, n) == Signatures(VersionsOf(s'.versions, n))
  {
    var s' := DoUpdate(cfg, s, user, id, data, env).store;
    SnapshotIsAnnounced(s, s', s'.versions[|s.versions|], s'.log[|s.log|], n);
  }

  lemma RestoreAnnounces(cfg: Config, s: Store, user: UserId, id: NoteId, k: int, env: Env, n: NoteId)
    requires DoRestore(cfg, s, user, id, k, env).Done?
    requires Announced(s.log, n) == Signatures(VersionsOf(s.versions, n))
    ensures var s' := DoRestore(cfg, s, user, id, k, env).store;
      Announced(s'.log, n) == Signatures(VersionsOf(s'.versions, n))
  {
    var s' := DoRestore(cfg, s, user, id, k, env).store;
    SnapshotIsAnnounced(s, s', s'.versions[|s.versions|], s'.log[|s.log|], n);
  }

  /** Any other request announces no version. */
  lemma OthersAnnounceNothing(cfg: Config, s: Store, req: Request, n: NoteId)
    requires !req.op.UpdateNote? && !req.op.RestoreVersion?
    ensures Announced(Step(cfg, s, req).log, n) == Announced(s.log, n)
  {
    var log := Step(cfg, s, req).log;
    if log != s.log {
      OtherEntry(cfg, s, req);
      AnnouncedAppend(s.log, log[|s.log|], n);
    }
  }

  lemma OtherEntry(cfg: Config, s: Store, req: Request)
    requires !req.op.UpdateNote? && !req.op.RestoreVersion? && Step(cfg, s, req).log != s.log
    ensures var log := Step(cfg, s, req).log;
      |log| == |s.log| + 1 && log == s.log + [log[|s.log|]]
      && !log[|s.log|].extra.VersionSaved? && !log[|s.log|].extra.Restored?
  {
    hide Find, PutShare, WithoutShare, PutLink, Hit, Shown, Stamp;
  }

  /** In every run the log announces exactly the versions there are: per note, the same numbers by the same authors in
      the same order. */
  lemma {:induction false} LogAnnouncesVersions(cfg: Config, users: set<UserId>, reqs: seq<Request>, n: NoteId)
    ensures var s := Exec(cfg, users, reqs);
      Announced(s.log, n) == Signatures(VersionsOf(s.versions, n))
  {
    if reqs != [] {
      var init, req := reqs[..|reqs| - 1], reqs[|reqs| - 1];
      var s := Exec(cfg, users, init);
      LogAnnouncesVersions(cfg, users, init, n);
      if Apply(cfg, s, req).Done? {
        if req.op.UpdateNote? {
          UpdateAnnounces(cfg, s, req.user, req.op.id, req.op.data, req.env, n);
        } else if req.op.RestoreVersion? {
          RestoreAnnounces(cfg, s, req.user, req.op.id, req.op.number, req.env, n);
        } else {
          OthersKeepTables(cfg, s, req);
          OthersAnnounceNothing(cfg, s, req, n);
        }
      }
    }
  }
}
