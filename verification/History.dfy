/** Version history: the snapshots and the current row against the states a note has been through. */
module History {
  import opened Wrappers
  import opened Security
  import opened Models
  import opened Queries
  import opened NoteRules
  import opened Invariants
  import opened Representation

  /** The states note n goes through, told from the successful requests alone, with no versions table:
      an edit overrides the latest state, restoring version k repeats state k. */
  function Extended(past: seq<Moment>, n: NoteId, req: Request): seq<Moment> {
    match req.op
    case CreateNote(title, content, _) => if req.env.newId == n then [Moment(title, Text(content))] else past
    case UpdateNote(id, data) => if id == n && past != [] then past + [Edited(past[|past| - 1], data)] else past
    case RestoreVersion(id, k) => if id == n && 1 <= k <= |past| then past + [past[k - 1]] else past
    case _ => past
  }

  function Timeline(cfg: Config, users: set<UserId>, reqs: seq<Request>, n: NoteId): seq<Moment> {
    if reqs == [] then []
    else
      var init, last := reqs[..|reqs| - 1], reqs[|reqs| - 1];
      var past := Timeline(cfg, users, init, n);
      if Apply(cfg, Exec(cfg, users, init), last).Done? then Extended(past, n, last) else past
  }

  function Moments(vs: seq<VersionRow>): seq<Moment> {
    seq(|vs|, i requires 0 <= i < |vs| => Moment(vs[i].title, vs[i].content))
  }

  /** The versions table followed by the current row. */
  function Recorded(s: Store, n: NoteId): seq<Moment> {
    if n in s.notes && Plaintext(s.notes[n]).Some?
    then Moments(VersionsOf(s.versions, n)) + [Current(s.notes[n])]
    else []
  }

  lemma MomentsAppend(vs: seq<VersionRow>, v: VersionRow)
    ensures Moments(vs + [v]) == Moments(vs) + [Moment(v.title, v.content)]
  {
  }

  /** A request that leaves row and versions of n alone leaves its record alone. */
  lemma RecordedFrame(s: Store, s': Store, n: NoteId)
    requires n in s.notes <==> n in s'.notes
    requires n in s.notes ==> s'.notes[n].title == s.notes[n].title && Plaintext(s'.notes[n]) == Plaintext(s.notes[n])
    requires VersionsOf(s'.versions, n) == VersionsOf(s.versions, n)
    ensures Recorded(s', n) == Recorded(s, n)
  {
  }

  /** Snapshotting the row and then changing it appends the changed state to the record. */
  lemma RecordedSnapshot(s: Store, s': Store, id: NoteId, user: UserId)
    requires id in s.notes && Plaintext(s.notes[id]).Some?
    requires id in s'.notes && Plaintext(s'.notes[id]).Some?
    requires s'.versions == s.versions + [Snapshot(s, id, Plaintext(s.notes[id]).value, user)]
    ensures Recorded(s', id) == Recorded(s, id) + [Current(s'.notes[id])]
  {
    var v := Snapshot(s, id, Plaintext(s.notes[id]).value, user);
    VersionsAppend(s.versions, v, id);
    MomentsAppend(VersionsOf(s.versions, id), v);
  }

  lemma UpdateExtends(cfg: Config, s: Store, user: UserId, id: NoteId, data: UpdateData, env: Env, n: NoteId)
    requires DoUpdate(cfg, s, user, id, data, env).Done?
    requires id in s.notes && OneLayer(s.notes[id]) && !Spoils(cfg, s.notes[id], data)
    ensures var past := Recorded(s, n);
      Recorded(DoUpdate(cfg, s, user, id, data, env).store, n)
      == if id == n && past != [] then past + [Edited(past[|past| - 1], data)] else past
  {
    var s' := DoUpdate(cfg, s, user, id, data, env).store;
    UpdateEffect(cfg, s, user, id, data, env);
    EditIsOverrideIff(cfg, s.notes[id], data, env.nonce);
    if n == id {
      RecordedSnapshot(s, s', id, user);
    } else {
      VersionsAppend(s.versions, Snapshot(s, id, Plaintext(s.notes[id]).value, user), n);
      RecordedFrame(s, s', n);
    }
  }

  /** After restoring version k, title and plaintext are those of version k and the privacy is as before. */
  lemma RestoreGivesVersion(cfg: Config, s: Store, user: UserId, id: NoteId, k: int, env: Env)
    requires Inv(cfg, s) && DoRestore(cfg, s, user, id, k, env).Done?
    ensures var s' := DoRestore(cfg, s, user, id, k, env).store;
      && id in s.notes && id in s'.notes && 1 <= k <= |VersionsOf(s.versions, id)|
      && var v := VersionsOf(s.versions, id)[k - 1];
        Plaintext(s'.notes[id]).Some? && Abs(s'.notes[id]) == AbsNote(Moment(v.title, v.content), s.notes[id].isPrivate)
  {
    RestoreEffect(cfg, s, user, id, k, env);
  }

  lemma RecordedVersion(s: Store, n: NoteId, k: int)
    requires n in s.notes && Plaintext(s.notes[n]).Some? && 1 <= k <= |VersionsOf(s.versions, n)|
    ensures var v := VersionsOf(s.versions, n)[k - 1];
      k <= |Recorded(s, n)| && Recorded(s, n)[k - 1] == Moment(v.title, v.content)
  {
  }

  lemma RestoreExtends(cfg: Config, s: Store, user: UserId, id: NoteId, k: int, env: Env, n: NoteId)
    requires Inv(cfg, s) && DoRestore(cfg, s, user, id, k, env).Done?
    ensures var past := Recorded(s, n);
      Recorded(DoRestore(cfg, s, user, id, k, env).store, n)
      == if id == n && 1 <= k <= |past| then past + [past[k - 1]] else past
  {
    var s' := DoRestore(cfg, s, user, id, k, env).store;
    RestoreEffect(cfg, s, user, id, k, env);
    RestoreGivesVersion(cfg, s, user, id, k, env);
    if n == id {
      RecordedSnapshot(s, s', id, user);
      RecordedVersion(s, id, k);
    } else {
      VersionsAppend(s.versions, Snapshot(s, id, Plaintext(s.notes[id]).value, user), n);
      RecordedFrame(s, s', n);
    }
  }

  lemma VersionHasNote(s: Store, n: NoteId, v: VersionRow)
    requires VersionsInv(s) && v in VersionsOf(s.versions, n)
    ensures n in s.notes
  {
    assert v in s.versions;
  }

  lemma NoVersionsWithoutNote(s: Store, n: NoteId)
    requires VersionsInv(s) && n !in s.notes
    ensures VersionsOf(s.versions, n) == []
  {
    if VersionsOf(s.versions, n) != [] {
      VersionHasNote(s, n, VersionsOf(s.versions, n)[0]);
    }
  }

  lemma CreateExtends(cfg: Config, s: Store, user: UserId, title: string, content: string, isPrivate: bool, env: Env,
                      n: NoteId)
    requires Inv(cfg, s) && DoCreate(cfg, s, user, title, content, isPrivate, env).Done?
    ensures Recorded(DoCreate(cfg, s, user, title, content, isPrivate, env).store, n)
            == if env.newId == n then [Moment(title, Text(content))] else Recorded(s, n)
  {
    if n == env.newId {
      NoVersionsWithoutNote(s, n);
    } else {
      RecordedFrame(s, DoCreate(cfg, s, user, title, content, isPrivate, env).store, n);
    }
  }

  lemma NeutralStep(cfg: Config, s: Store, req: Request, n: NoteId)
    requires !req.op.CreateNote? && !req.op.UpdateNote? && !req.op.RestoreVersion?
    ensures Recorded(Step(cfg, s, req), n) == Recorded(s, n)
  {
    OthersKeepTables(cfg, s, req);
    if n in s.notes && WritesNotes(req.op) {
      FlagsKeepText(cfg, s, req, n);
    }
    SameKeysOnFlags(cfg, s, req);
    RecordedFrame(s, Step(cfg, s, req), n);
  }

  lemma SameKeysOnFlags(cfg: Config, s: Store, req: Request)
    requires !req.op.CreateNote?
    ensures Step(cfg, s, req).notes.Keys == s.notes.Keys
  {
  }

  lemma LayeredRow(cfg: Config, s: Store, req: Request)
    requires Layered(s) && req.op.UpdateNote? && Apply(cfg, s, req).Done?
    ensures req.op.id in s.notes && OneLayer(s.notes[req.op.id])
  {
  }

  lemma StepExtends(cfg: Config, s: Store, req: Request, n: NoteId)
    requires Inv(cfg, s) && Layered(s) && !SpoilsAt(cfg, s, req) && Apply(cfg, s, req).Done?
    ensures Recorded(Step(cfg, s, req), n) == Extended(Recorded(s, n), n, req)
  {
    hide Recorded, Layered, Spoils, DoCreate, DoUpdate, DoRestore;
    if req.op.CreateNote? {
      CreateExtends(cfg, s, req.user, req.op.title, req.op.content, req.op.isPrivate, req.env, n);
    } else if req.op.UpdateNote? {
      LayeredRow(cfg, s, req);
      UpdateExtends(cfg, s, req.user, req.op.id, req.op.data, req.env, n);
    } else if req.op.RestoreVersion? {
      RestoreExtends(cfg, s, req.user, req.op.id, req.op.number, req.env, n);
    } else {
      NeutralStep(cfg, s, req, n);
    }
  }

  /** The history of n is complete: its version numbers are 1..k, version i holds the state before the i-th edit or
      restore, and the versions followed by the current state are every state the note has been through. */
  ghost predicate Complete(cfg: Config, users: set<UserId>, reqs: seq<Request>, n: NoteId) {
    var s := Exec(cfg, users, reqs);
    && Numbered(VersionsOf(s.versions, n))
    && Recorded(s, n) == Timeline(cfg, users, reqs, n)
    && (n in s.notes <==> Timeline(cfg, users, reqs, n) != [])
  }

  ghost predicate AlwaysComplete(cfg: Config, users: set<UserId>, reqs: seq<Request>) {
    forall i: nat, n | i <= |reqs| :: Complete(cfg, users, reqs[..i], n)
  }

  /** A run without a spoiling update has complete history. */
  lemma {:induction false} UnspoiltIsComplete(cfg: Config, users: set<UserId>, reqs: seq<Request>, n: NoteId)
    requires AlwaysLayered(cfg, users, reqs) && Unspoilt(cfg, users, reqs)
    ensures Complete(cfg, users, reqs, n)
  {
    var s := Exec(cfg, users, reqs);
    RunKeeps(cfg, users, reqs);
    assert reqs[..|reqs|] == reqs;
    if n in s.notes {
      PlaintextIsText(s.notes[n]);
    }
    if reqs != [] {
      var init := reqs[..|reqs| - 1];
      LayersStepByStep(cfg, users, reqs);
      UnspoiltIsComplete(cfg, users, init, n);
      RunKeeps(cfg, users, init);
      if Apply(cfg, Exec(cfg, users, init), reqs[|reqs| - 1]).Done? {
        StepExtends(cfg, Exec(cfg, users, init), reqs[|reqs| - 1], n);
      }
    }
  }

  /** The states of a note are readable texts. */
  lemma {:induction false} TimelineIsText(cfg: Config, users: set<UserId>, reqs: seq<Request>, n: NoteId)
    ensures forall i | 0 <= i < |Timeline(cfg, users, reqs, n)| :: Timeline(cfg, users, reqs, n)[i].text.Text?
  {
    if reqs != [] {
      TimelineIsText(cfg, users, reqs[..|reqs| - 1], n);
    }
  }

  /** Where the history of every note is complete, every row and every snapshot is in its proper form. */
  lemma CompleteIsLayered(cfg: Config, users: set<UserId>, reqs: seq<Request>)
    requires forall n :: Complete(cfg, users, reqs, n)
    ensures Layered(Exec(cfg, users, reqs))
  {
    var s := Exec(cfg, users, reqs);
    RunKeeps(cfg, users, reqs);
    forall n | n in s.notes
      ensures OneLayer(s.notes[n])
    {
      assert Complete(cfg, users, reqs, n);
      TimelineIsText(cfg, users, reqs, n);
      TextRowIsLayered(s, n);
    }
    forall v | v in s.versions
      ensures v.content.Text?
    {
      assert Complete(cfg, users, reqs, v.noteId);
      TimelineIsText(cfg, users, reqs, v.noteId);
      TextVersionsInRecord(s, v);
    }
  }

  lemma TextRowIsLayered(s: Store, n: NoteId)
    requires n in s.notes && KeyOk(s.notes[n]) && Recorded(s, n) != []
    requires forall i | 0 <= i < |Recorded(s, n)| :: Recorded(s, n)[i].text.Text?
    ensures OneLayer(s.notes[n])
  {
    var row := s.notes[n];
    assert Recorded(s, n)[|VersionsOf(s.versions, n)|] == Current(row);
    assert Layers(Plaintext(row).value) == 0;
    if row.isPrivate {
      assert Layers(row.content) == 1 + Layers(row.content.body);
    }
  }

  lemma TextVersionsInRecord(s: Store, v: VersionRow)
    requires v in s.versions && Recorded(s, v.noteId) != []
    requires forall i | 0 <= i < |Recorded(s, v.noteId)| :: Recorded(s, v.noteId)[i].text.Text?
    ensures v.content.Text?
  {
    var vs := VersionsOf(s.versions, v.noteId);
    assert v in vs;
    var i :| 0 <= i < |vs| && vs[i] == v;
    assert Recorded(s, v.noteId)[i] == Moment(v.title, v.content);
  }

  /** Exactly the runs without a spoiling update have, from beginning to end, a complete history of every note, across
      any privacy flips. */
  lemma HistoryIsCompleteIffUnspoilt(cfg: Config, users: set<UserId>, reqs: seq<Request>)
    ensures AlwaysComplete(cfg, users, reqs) <==> Unspoilt(cfg, users, reqs)
  {
    RunsKeepLayersIff(cfg, users, reqs);
    if Unspoilt(cfg, users, reqs) {
      forall i: nat, n | i <= |reqs|
        ensures Complete(cfg, users, reqs[..i], n)
      {
        PrefixIsUnspoilt(cfg, users, reqs, i);
        RunsKeepLayersIff(cfg, users, reqs[..i]);
        UnspoiltIsComplete(cfg, users, reqs[..i], n);
      }
    }
    if AlwaysComplete(cfg, users, reqs) {
      forall i: nat | i <= |reqs|
        ensures Layered(Exec(cfg, users, reqs[..i]))
      {
        CompleteIsLayered(cfg, users, reqs[..i]);
      }
    }
  }

  lemma PrefixIsUnspoilt(cfg: Config, users: set<UserId>, reqs: seq<Request>, k: nat)
    requires k <= |reqs| && Unspoilt(cfg, users, reqs)
    ensures Unspoilt(cfg, users, reqs[..k])
  {
    forall i: nat | i < k
      ensures !SpoilsAt(cfg, Exec(cfg, users, reqs[..k][..i]), reqs[..k][i])
    {
      assert reqs[..k][..i] == reqs[..i];
    }
  }

  lemma HistoryIsComplete(cfg: Config, users: set<UserId>, reqs: seq<Request>, n: NoteId)
    requires cfg.keyVersion != ""
    ensures Complete(cfg, users, reqs, n)
  {
    KeyedRunsAreUnspoilt(cfg, users, reqs);
    RunsKeepLayersIff(cfg, users, reqs);
    UnspoiltIsComplete(cfg, users, reqs, n);
  }

  /** A configuration gives complete history in every serial run exactly when its key version is a string Python takes
      for true. */
  lemma HistoryIsCompleteIff(cfg: Config, users: set<UserId>)
    requires users != {}
    ensures (forall reqs, n :: Complete(cfg, users, reqs, n)) <==> cfg.keyVersion != ""
  {
    if cfg.keyVersion != "" {
      forall reqs, n
        ensures Complete(cfg, users, reqs, n)
      {
        HistoryIsComplete(cfg, users, reqs, n);
      }
    } else {
      var u :| u in users;
      var reqs := EmptyKeyRun(cfg, users, u);
      assert Layers(Cipher(0, Text("a"))) == 1;
      if forall n :: Complete(cfg, users, reqs, n) {
        CompleteIsLayered(cfg, users, reqs);
      }
    }
  }

  /** The version numbers are 1..k in every run, whatever the key version: looking up number i finds exactly the i-th
      snapshot, and nothing else. */
  lemma NumbersAreExact(cfg: Config, users: set<UserId>, reqs: seq<Request>, n: NoteId, k: int)
    ensures var s := Exec(cfg, users, reqs); var vs := VersionsOf(s.versions, n);
      && Numbered(vs) && NextVersionNumber(s, n) == |vs| + 1
      && GetVersion(s, n, k) == if 1 <= k <= |vs| then Unique(vs[k - 1]) else Absent
  {
    RunKeeps(cfg, users, reqs);
    FindNumbered(VersionsOf(Exec(cfg, users, reqs).versions, n), k);
    MaxOfNumbered(VersionsOf(Exec(cfg, users, reqs).versions, n));
  }

  /** Restoring the snapshot that a restore took returns exactly the title, plaintext and privacy from before. */
  lemma RestoreIsUndoable(cfg: Config, s: Store, user: UserId, id: NoteId, k: int, env: Env, env': Env)
    requires Inv(cfg, s) && DoRestore(cfg, s, user, id, k, env).Done?
    ensures var s' := DoRestore(cfg, s, user, id, k, env).store;
      var snapshot := |VersionsOf(s.versions, id)| + 1;
      var undo := DoRestore(cfg, s', user, id, snapshot, env');
      && undo.Done? && id in undo.store.notes
      && Plaintext(s.notes[id]).Some? && Plaintext(undo.store.notes[id]).Some?
      && Abs(undo.store.notes[id]) == Abs(s.notes[id])
  {
    var s' := DoRestore(cfg, s, user, id, k, env).store;
    RestoreEffect(cfg, s, user, id, k, env);
    RestoreKeeps(cfg, s, user, id, k, env);
    RestoreGivesVersion(cfg, s, user, id, k, env);
    UndoSnapshot(cfg, s, s', user, id, env');
  }

  /** In a store that snapshotted note id and kept its privacy, restoring that snapshot brings the note back. */
  lemma UndoSnapshot(cfg: Config, s: Store, s': Store, user: UserId, id: NoteId, env: Env)
    requires VersionsInv(s) && Inv(cfg, s') && id in s.notes && Plaintext(s.notes[id]).Some?
    requires s'.versions == s.versions + [Snapshot(s, id, Plaintext(s.notes[id]).value, user)]
    requires id in s'.notes && s'.notes[id].ownerId == user && !s'.notes[id].IsDeleted()
      && Plaintext(s'.notes[id]).Some?
    requires s'.notes[id].isPrivate == s.notes[id].isPrivate
    ensures var undo := DoRestore(cfg, s', user, id, |VersionsOf(s.versions, id)| + 1, env);
      undo.Done? && id in undo.store.notes && Plaintext(undo.store.notes[id]).Some?
      && Abs(undo.store.notes[id]) == Abs(s.notes[id])
  {
    var snapshot := |VersionsOf(s.versions, id)| + 1;
    SnapshotRetrievable(s, s', id, user);
    FindNumbered(VersionsOf(s'.versions, id), snapshot);
    RestoreGivesVersion(cfg, s', user, id, snapshot, env);
  }

  /** The snapshot just taken is version k + 1, and it holds the state of the note before. */
  lemma SnapshotRetrievable(s: Store, s': Store, id: NoteId, user: UserId)
    requires VersionsInv(s) && id in s.notes && Plaintext(s.notes[id]).Some?
    requires s'.versions == s.versions + [Snapshot(s, id, Plaintext(s.notes[id]).value, user)]
    ensures var vs, vs' := VersionsOf(s.versions, id), VersionsOf(s'.versions, id);
      && |vs'| == |vs| + 1
      && vs'[|vs|] == VersionRow(id, |vs| + 1, s.notes[id].title, Plaintext(s.notes[id]).value, user)
  {
    var v := Snapshot(s, id, Plaintext(s.notes[id]).value, user);
    VersionsAppend(s.versions, v, id);
    MaxOfNumbered(VersionsOf(s.versions, id));
  }

  lemma StepAppendsVersions(cfg: Config, s: Store, req: Request)
    ensures s.versions <= Step(cfg, s, req).versions
  {
  }

  /** Nothing ever rewrites or drops a version: in every continuation the table only grows at its end. */
  lemma {:induction false} VersionsAreAppendOnly(cfg: Config, s: Store, reqs: seq<Request>)
    ensures s.versions <= Continue(cfg, s, reqs).versions
  {
    if reqs != [] {
      VersionsAreAppendOnly(cfg, s, reqs[..|reqs| - 1]);
      StepAppendsVersions(cfg, Continue(cfg, s, reqs[..|reqs| - 1]), reqs[|reqs| - 1]);
    }
  }

  /** Only `update_note` changes a note's privacy; any chain of restores leaves it as it was. */
  lemma {:induction false} PrivacyChangesOnlyByUpdate(cfg: Config, s: Store, reqs: seq<Request>, n: NoteId)
    requires n in s.notes
    requires forall i | 0 <= i < |reqs| :: !(reqs[i].op.UpdateNote? && reqs[i].op.id == n)
    ensures var s' := Continue(cfg, s, reqs); n in s'.notes && s'.notes[n].isPrivate == s.notes[n].isPrivate
  {
    if reqs != [] {
      var init := reqs[..|reqs| - 1];
      assert forall i | 0 <= i < |init| :: init[i] == reqs[i];
      PrivacyChangesOnlyByUpdate(cfg, s, init, n);
      PrivacyStep(cfg, Continue(cfg, s, init), reqs[|reqs| - 1], n);
    }
  }

  lemma PrivacyStep(cfg: Config, s: Store, req: Request, n: NoteId)
    requires n in s.notes && !(req.op.UpdateNote? && req.op.id == n)
    ensures n in Step(cfg, s, req).notes && Step(cfg, s, req).notes[n].isPrivate == s.notes[n].isPrivate
  {
    hide Apply, Step;
    OthersKeepTables(cfg, s, req);
    if req.op.DeleteNote? || req.op.PinNote? || req.op.UnpinNote? {
      FlagsKeepText(cfg, s, req, n);
    } else if WritesNotes(req.op) {
      TextPrivacyStep(cfg, s, req, n);
    }
  }

  lemma TextPrivacyStep(cfg: Config, s: Store, req: Request, n: NoteId)
    requires n in s.notes && !(req.op.UpdateNote? && req.op.id == n)
    requires req.op.CreateNote? || req.op.UpdateNote? || req.op.RestoreVersion?
    ensures n in Step(cfg, s, req).notes && Step(cfg, s, req).notes[n].isPrivate == s.notes[n].isPrivate
  {
    hide Find, Shown, Plaintext, NextVersionNumber, EditRow;
  }

  // What readers are answered.

  /** A reader of a note is answered the latest state of its timeline. */
  lemma GetShowsLatest(cfg: Config, users: set<UserId>, reqs: seq<Request>, n: NoteId, u: UserId)
    requires cfg.keyVersion != "" && DoGet(Exec(cfg, users, reqs), u, n).Done?
    ensures var past, reply := Timeline(cfg, users, reqs, n), DoGet(Exec(cfg, users, reqs), u, n).reply;
      past != [] && reply.NoteReply? && reply.id == n && Moment(reply.row.title, reply.row.content) == past[|past| - 1]
  {
    HistoryIsComplete(cfg, users, reqs, n);
    ShownIsPlaintext(cfg, users, reqs, n);
  }

  /** A reader of version k is answered the k-th state, and no version number reaches the current state. */
  lemma VersionShowsMoment(cfg: Config, users: set<UserId>, reqs: seq<Request>, n: NoteId, u: UserId, k: int)
    requires cfg.keyVersion != "" && DoGetVersion(Exec(cfg, users, reqs), u, n, k).Done?
    ensures var past, reply := Timeline(cfg, users, reqs, n), DoGetVersion(Exec(cfg, users, reqs), u, n, k).reply;
      && 1 <= k < |past| && reply.VersionReply? && reply.version.number == k && reply.version.noteId == n
      && Moment(reply.version.title, reply.version.content) == past[k - 1]
      && reply.version in Exec(cfg, users, reqs).versions
  {
    HistoryIsComplete(cfg, users, reqs, n);
    NumbersAreExact(cfg, users, reqs, n, k);
    ShownIsPlaintext(cfg, users, reqs, n);
    assert VersionsOf(Exec(cfg, users, reqs).versions, n)[k - 1] in VersionsOf(Exec(cfg, users, reqs).versions, n);
  }

  /** So is a visitor with a link, of the link's note. */
  lemma LinkShowsLatest(cfg: Config, users: set<UserId>, reqs: seq<Request>, token: RawToken, env: Env)
    requires cfg.keyVersion != "" && DoAccessLink(Exec(cfg, users, reqs), token, env).Done?
    ensures var reply := DoAccessLink(Exec(cfg, users, reqs), token, env).reply;
      && reply.NoteReply?
      && var past := Timeline(cfg, users, reqs, reply.id);
        past != [] && Moment(reply.row.title, reply.row.content) == past[|past| - 1]
  {
    var n := GetLink(Exec(cfg, users, reqs), HashShareToken(token)).row.noteId;
    HistoryIsComplete(cfg, users, reqs, n);
    ShownIsPlaintext(cfg, users, reqs, n);
  }

  // updated_at, the key of both lists.

  predicate Changes(s: Store, s': Store, n: NoteId) {
    n in s'.notes && (n !in s.notes || s'.notes[n] != s.notes[n])
  }

  /** The time of the last request that changed the row of n in any column. */
  function LastChange(cfg: Config, users: set<UserId>, reqs: seq<Request>, n: NoteId): Option<Time> {
    if reqs == [] then None
    else
      var init := reqs[..|reqs| - 1];
      if Changes(Exec(cfg, users, init), Exec(cfg, users, reqs), n) then Some(reqs[|reqs| - 1].env.now)
      else LastChange(cfg, users, init, n)
  }

  lemma ChangeIsStamped(cfg: Config, s: Store, req: Request, n: NoteId)
    requires Changes(s, Step(cfg, s, req), n)
    ensures Step(cfg, s, req).notes[n].updatedAt == req.env.now
  {
    hide Find, PutShare, WithoutShare, PutLink, Hit, Shown, Plaintext, NextVersionNumber, EditRow, RestoreRow;
  }

  /** In every run a note's updated_at is the time of the last request that changed its row. */
  lemma {:induction false} UpdatedAtIsLastChange(cfg: Config, users: set<UserId>, reqs: seq<Request>, n: NoteId)
    requires n in Exec(cfg, users, reqs).notes
    ensures LastChange(cfg, users, reqs, n) == Some(Exec(cfg, users, reqs).notes[n].updatedAt)
  {
    var init, req := reqs[..|reqs| - 1], reqs[|reqs| - 1];
    var s := Exec(cfg, users, init);
    if Changes(s, Exec(cfg, users, reqs), n) {
      ChangeIsStamped(cfg, s, req, n);
    } else {
      UpdatedAtIsLastChange(cfg, users, init, n);
    }
  }
}
