/** app/db/session.py around the service: each request gets its own session, which is committed when the request
    succeeds and rolled back when it raises. */
module RequestHandler {
  import opened Wrappers
  import opened Models
  import opened NoteRules
  import opened Invariants
  import opened UnitOfWork
  import opened Orm
  import opened ServiceLayer

  /** The answer is the one the rules give; after a success the session holds nothing but the rules' store. */
  ghost predicate Serves(session: Session, o: Outcome, r: Result<Reply, Error>)
    reads session, session.notes.Values, session.shares.Values, session.links.Values
  {
    match o
    case Failed(e) => r == Failure(e)
    case Done(s, reply) => r == Success(reply) && session.tx == s && session.Clean()
  }

  function AnswerTo(o: Outcome): Result<Reply, Error> {
    match o
    case Done(_, reply) => Success(reply)
    case Failed(e) => Failure(e)
  }

  class App {
    const cfg: Config
    const db: Database

    constructor (cfg: Config, db: Database)
      ensures this.cfg == cfg && this.db == db
    {
      this.cfg, this.db := cfg, db;
    }

    /** `get_db_session` around one request. */
    method Handle(req: Request) returns (r: Result<Reply, Error>)
      modifies db
      ensures db.store == Step(cfg, old(db.store), req)
      ensures r == AnswerTo(Apply(cfg, old(db.store), req))
      ensures r.Failure? ==> db.store == old(db.store)
      ensures Inv(cfg, old(db.store)) ==> Inv(cfg, db.store)
      ensures Inv(cfg, old(db.store)) && TextInv(old(db.store)) && cfg.keyVersion != "" ==> TextInv(db.store)
    {
      hide Apply, Inv, TextInv;
      StoreStaysSound(db.store, req);
      var session := new Session(db);
      r := Dispatch(session, req);
      if r.Success? {
        CleanCommits(session, req.env.now);
        var committed := session.Commit(req.env.now);
      } else {
        session.Rollback();
      }
    }

    lemma StoreStaysSound(s: Store, req: Request)
      ensures Inv(cfg, s) ==> Inv(cfg, Step(cfg, s, req))
      ensures Inv(cfg, s) && TextInv(s) && cfg.keyVersion != "" ==> TextInv(Step(cfg, s, req))
    {
      hide Apply, Inv, TextInv;
      if Inv(cfg, s) {
        StepKeeps(cfg, s, req);
        if TextInv(s) && cfg.keyVersion != "" {
          StepKeepsText(cfg, s, req);
        }
      }
    }

    /** Requests one after another on an empty database: the run that the theorems speak of. */
    method Serve(reqs: seq<Request>) returns (answers: seq<Result<Reply, Error>>)
      requires db.store == EmptyStore(db.store.users)
      modifies db
      ensures db.store == Exec(cfg, old(db.store.users), reqs)
      ensures |answers| == |reqs|
      ensures forall i | 0 <= i < |reqs| :: answers[i] == AnswerTo(Answer(cfg, old(db.store.users), reqs, i))
    {
      hide Apply, Inv, TextInv, Step;
      answers := [];
      ghost var users := db.store.users;
      assert reqs[..0] == [];
      for i := 0 to |reqs|
        invariant |answers| == i && db.store == Exec(cfg, users, reqs[..i])
        invariant forall j | 0 <= j < i :: answers[j] == AnswerTo(Answer(cfg, users, reqs, j))
      {
        assert reqs[..i + 1][..i] == reqs[..i];
        var answer := Handle(reqs[i]);
        answers := answers + [answer];
      }
      assert reqs[..|reqs|] == reqs;
    }

    /** What `commit` flushes from a clean session is what the transaction already holds. */
    lemma CleanCommits(session: Session, now: Time)
      requires session.Clean()
      ensures session.Flushed(now) == Some(session.tx)
    {
      FlushClean(session.tx, session.NoteRows(), session.ShareRows(), session.LinkRows(), now);
    }

    /** The route: authenticate, then call the service. */
    method Dispatch(session: Session, req: Request) returns (r: Result<Reply, Error>)
      requires session.db == db && session.IsNew()
      modifies session
      ensures Serves(session, Apply(cfg, old(session.tx), req), r)
    {
      hide session.Clean, DoAccessLink;
      var service := new NoteService(cfg, session);
      if req.op.AccessShareLink? {
        var note := service.AccessShareLink(req.op.token, req.env);
        r := NoteResult(session, DoAccessLink(old(session.tx), req.op.token, req.env), note);
      } else if req.user !in session.tx.users {
        r := Failure(Unauthenticated);
      } else {
        r := CallService(service, req);
      }
    }

    /** Turn the returned object into the answer. */
    method NoteResult(session: Session, ghost o: Outcome, r: Result<Note, Error>) returns (reply: Result<Reply, Error>)
      requires match o
        case Failed(e) => r == Failure(e)
        case Done(s, rep) =>
          r.Success? && session.tx == s && session.Clean() && rep == NoteReply(r.value.id, r.value.Row())
      ensures Serves(session, o, reply)
    {
      match r
      case Success(note) => return Success(NoteReply(note.id, note.Row()));
      case Failure(e) => return Failure(e);
    }

    method CallService(service: NoteService, req: Request) returns (r: Result<Reply, Error>)
      requires service.cfg == cfg && service.Ready() && !req.op.AccessShareLink? && req.user in service.session.tx.users
      modifies service.session
      ensures Serves(service.session, Apply(cfg, old(service.session.tx), req), r)
    {
      hide service.session.Clean;
      hide DoCreate, DoGet, DoList, DoListShared, DoUpdate, DoDelete, DoShare, DoUnshare, DoPin, DoUnpin, DoGetVersion,
        DoRestore, DoCreateLink;
      match req.op
      case ListNotes(_, _) => r := CallList(service, req);
      case ListShared(_) => r := CallList(service, req);
      case DeleteNote(_) => r := CallOther(service, req);
      case ShareNote(_, _, _) => r := CallOther(service, req);
      case UnshareNote(_, _) => r := CallOther(service, req);
      case GetNoteVersion(_, _) => r := CallOther(service, req);
      case CreateShareLink(_, _, _) => r := CallOther(service, req);
      case CreateNote(_, _, _) => r := CallNote(service, req);
      case GetNote(_) => r := CallNote(service, req);
      case UpdateNote(_, _) => r := CallNote(service, req);
      case PinNote(_) => r := CallNote(service, req);
      case UnpinNote(_) => r := CallNote(service, req);
      case RestoreVersion(_, _) => r := CallNote(service, req);
    }

    /** The requests that answer with one note. */
    method CallNote(service: NoteService, req: Request) returns (r: Result<Reply, Error>)
      requires service.cfg == cfg && service.Ready() && req.user in service.session.tx.users
      requires req.op.CreateNote? || req.op.GetNote? || req.op.UpdateNote? || req.op.PinNote? || req.op.UnpinNote?
        || req.op.RestoreVersion?
      modifies service.session
      ensures Serves(service.session, Apply(cfg, old(service.session.tx), req), r)
    {
      hide service.session.Clean, DoCreate, DoGet, DoUpdate, DoPin, DoUnpin, DoRestore;
      var note: Result<Note, Error>;
      match req.op {
        case CreateNote(title, content, isPrivate) =>
          note := service.CreateNote(req.user, title, content, isPrivate, req.env);
        case GetNote(id) => note := service.GetNote(req.user, id);
        case UpdateNote(id, data) => note := service.UpdateNote(req.user, id, data, req.env);
        case PinNote(id) => note := service.PinNote(req.user, id, req.env);
        case UnpinNote(id) => note := service.UnpinNote(req.user, id, req.env);
        case RestoreVersion(id, number) => note := service.RestoreVersion(req.user, id, number, req.env);
      }
      r := NoteResult(service.session, Apply(cfg, old(service.session.tx), req), note);
    }

    /** The requests that answer with a page of notes. */
    method CallList(service: NoteService, req: Request) returns (r: Result<Reply, Error>)
      requires service.cfg == cfg && service.Ready() && req.user in service.session.tx.users
      requires req.op.ListNotes? || req.op.ListShared?
      modifies service.session
      ensures Serves(service.session, Apply(cfg, old(service.session.tx), req), r)
    {
      hide service.session.Clean, DoList, DoListShared;
      var notes, total;
      match req.op {
        case ListNotes(page, search) => notes, total := service.ListNotes(req.user, page, search);
        case ListShared(page) => notes, total := service.ListSharedNotes(req.user, page);
      }
      var items := seq(|notes|, i requires 0 <= i < |notes| reads notes => (notes[i].id, notes[i].Row()));
      assert Apply(cfg, old(service.session.tx), req).reply.notes == items;
      r := Success(NotesReply(items, total));
    }

    method CallOther(service: NoteService, req: Request) returns (r: Result<Reply, Error>)
      requires service.cfg == cfg && service.Ready() && req.user in service.session.tx.users
      requires req.op.DeleteNote? || req.op.ShareNote? || req.op.UnshareNote? || req.op.GetNoteVersion?
        || req.op.CreateShareLink?
      modifies service.session
      ensures Serves(service.session, Apply(cfg, old(service.session.tx), req), r)
    {
      hide service.session.Clean, DoDelete, DoShare, DoUnshare, DoGetVersion, DoCreateLink;
      match req.op
      case DeleteNote(id) =>
        var done := service.DeleteNote(req.user, id, req.env);
        r := if done.Success? then Success(NoReply) else Failure(done.error);
      case UnshareNote(id, target) =>
        var done := service.UnshareNote(req.user, id, target, req.env);
        r := if done.Success? then Success(NoReply) else Failure(done.error);
      case ShareNote(id, target, permission) =>
        var share := service.ShareNote(req.user, id, target, permission, req.env);
        r := if share.Success? then Success(ShareReply(share.value.Row())) else Failure(share.error);
      case GetNoteVersion(id, number) =>
        var version := service.GetVersion(req.user, id, number);
        r := if version.Success? then Success(VersionReply(version.value)) else Failure(version.error);
      case CreateShareLink(id, expiry, maxAccesses) =>
        var link := service.CreateShareLink(req.user, id, expiry, maxAccesses, req.env);
        r := if link.Success? then Success(LinkReply(link.value.Row(), req.env.token)) else Failure(link.error);
    }
  }
}
