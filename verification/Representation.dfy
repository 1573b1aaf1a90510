/** The stored form of a note against the note its owner thinks of. */
module Representation {
  import opened Wrappers
  import opened Security
  import opened Models
  import opened NoteRules
  import opened Invariants

  /** A note's title and readable text at one point of a run. */
  datatype Moment = Moment(title: string, text: Content)

  /** The note as the API describes it: no key versions, no ciphertext. */
  datatype AbsNote = AbsNote(moment: Moment, isPrivate: bool)

  function Current(row: NoteRow): Moment
    requires Plaintext(row).Some?
  {
    Moment(row.title, Plaintext(row).value)
  }

  function Abs(row: NoteRow): AbsNote
    requires Plaintext(row).Some?
  {
    AbsNote(Current(row), row.isPrivate)
  }

  function Edited(m: Moment, data: UpdateData): Moment {
    Moment(data.title.GetOr(m.title), if data.content.Some? then Text(data.content.value) else m.text)
  }

  /** A partial update of a record: only the given fields change. */
  function Override(a: AbsNote, data: UpdateData): AbsNote {
    AbsNote(Edited(a.moment, data), data.isPrivate.GetOr(a.isPrivate))
  }

  /** The fields an edit has no business with. */
  predicate SameElsewhere(a: NoteRow, b: NoteRow) {
    a.ownerId == b.ownerId && a.isPinned == b.isPinned && a.pinnedAt == b.pinnedAt && a.deletedAt == b.deletedAt
  }

  /** What `update_note` promises for one note. */
  ghost predicate EditIsOverride(cfg: Config, row: NoteRow, data: UpdateData, nonce: Nonce) {
    Plaintext(row).Some? ==>
      match EditRow(cfg, row, data, nonce)
      case None => false
      case Some(r) =>
        OneLayer(r) && Plaintext(r).Some? && Abs(r) == Override(Abs(row), data) && SameElsewhere(row, r)
  }

  // One edit.

  /** The note becomes public, and the key version that the branch asks for, the configured one when new content was
      just encrypted under it and the row's own otherwise, is empty: the ciphertext stays. */
  predicate Spoils(cfg: Config, row: NoteRow, data: UpdateData) {
    && row.isPrivate && data.isPrivate == Some(false)
    && if data.content.Some? then cfg.keyVersion == "" else !HasKey(row)
  }

  /** For every combination of fields and prior privacy, the branches of `update_note` together meet the promise
      exactly when the edit is not of that kind. */
  lemma EditIsOverrideIff(cfg: Config, row: NoteRow, data: UpdateData, nonce: Nonce)
    requires OneLayer(row)
    ensures EditIsOverride(cfg, row, data, nonce) <==> !Spoils(cfg, row, data)
    ensures EditRow(cfg, row, data, nonce).Some?
    ensures OneLayer(EditRow(cfg, row, data, nonce).value) <==> !Spoils(cfg, row, data)
  {
    PlaintextIsText(row);
    LayersOfTexts(data);
    var r := EditRow(cfg, row, data, nonce).value;
    if Spoils(cfg, row, data) {
      assert r.content.Cipher? && !r.isPrivate;
    } else {
      assert OneLayer(r);
    }
  }

  lemma LayersOfTexts(data: UpdateData)
    ensures data.content.Some? ==> Layers(Text(data.content.value)) == 0
  {
  }

  /** A row as a deployment with this configuration writes it. */
  predicate WrittenUnder(cfg: Config, row: NoteRow) {
    OneLayer(row) && (row.isPrivate ==> row.keyVersion == Some(cfg.keyVersion))
  }

  /** Every edit of every row that a configuration writes meets the promise exactly when its key version is a string
      Python takes for true. */
  lemma EditRefinesOverrideIff(cfg: Config)
    ensures (forall row, data, nonce | WrittenUnder(cfg, row) :: EditIsOverride(cfg, row, data, nonce))
            <==> cfg.keyVersion != ""
  {
    if cfg.keyVersion != "" {
      forall row, data, nonce | WrittenUnder(cfg, row)
        ensures EditIsOverride(cfg, row, data, nonce)
      {
        EditIsOverrideIff(cfg, row, data, nonce);
      }
    } else {
      var row := NoteRow(0, "t", Cipher(0, Text("a")), true, Some(""), false, None, None, 0);
      var data := UpdateData(None, None, Some(false));
      assert Layers(row.content) == 1 + Layers(row.content.body);
      EditIsOverrideIff(cfg, row, data, 0);
      assert WrittenUnder(cfg, row) && !EditIsOverride(cfg, row, data, 0);
    }
  }

  /** A successful update leaves the stored note standing for the old one overridden by the given fields, in its
      one-layer form, exactly when it does not spoil the row; and with usable keys it answers with the new text in
      clear. */
  lemma UpdateIsPartialRecordUpdate(cfg: Config, s: Store, user: UserId, id: NoteId, data: UpdateData, env: Env)
    requires id in s.notes && OneLayer(s.notes[id]) && DoUpdate(cfg, s, user, id, data, env).Done?
    ensures Plaintext(s.notes[id]).Some?
    ensures var o := DoUpdate(cfg, s, user, id, data, env);
      && id in o.store.notes
      && (!Spoils(cfg, s.notes[id], data) <==>
          OneLayer(o.store.notes[id]) && Plaintext(o.store.notes[id]).Some?
          && Abs(o.store.notes[id]) == Override(Abs(s.notes[id]), data))
      && (RowOk(s.notes[id]) && cfg.keyVersion != "" ==>
          o.reply.NoteReply? && o.reply.row.content == Edited(Current(s.notes[id]), data).text)
  {
    hide DoUpdate, Barrier, Layers;
    UpdateEffect(cfg, s, user, id, data, env);
    EditIsOverrideIff(cfg, s.notes[id], data, env.nonce);
    UpdateAnswer(cfg, s, user, id, data, env);
    if RowOk(s.notes[id]) && cfg.keyVersion != "" {
      EditKeepsRow(cfg, s.notes[id], data, env.nonce);
    }
  }

  lemma UpdateAnswer(cfg: Config, s: Store, user: UserId, id: NoteId, data: UpdateData, env: Env)
    requires DoUpdate(cfg, s, user, id, data, env).Done?
    ensures var o := DoUpdate(cfg, s, user, id, data, env);
      id in o.store.notes && o.reply == NoteReply(id, Shown(o.store.notes[id]))
  {
  }

  // Whole runs.

  /** The request is a successful update that spoils its row. */
  predicate SpoilsAt(cfg: Config, s: Store, req: Request) {
    && req.op.UpdateNote? && req.op.id in s.notes && Apply(cfg, s, req).Done?
    && Spoils(cfg, s.notes[req.op.id], req.op.data)
  }

  ghost predicate Unspoilt(cfg: Config, users: set<UserId>, reqs: seq<Request>) {
    forall i: nat | i < |reqs| :: !SpoilsAt(cfg, Exec(cfg, users, reqs[..i]), reqs[i])
  }

  ghost predicate AlwaysLayered(cfg: Config, users: set<UserId>, reqs: seq<Request>) {
    forall i: nat | i <= |reqs| :: Layered(Exec(cfg, users, reqs[..i]))
  }

  lemma CreateIsLayered(cfg: Config, s: Store, user: UserId, title: string, content: string, isPrivate: bool, env: Env)
    requires Layered(s) && DoCreate(cfg, s, user, title, content, isPrivate, env).Done?
    ensures Layered(DoCreate(cfg, s, user, title, content, isPrivate, env).store)
  {
    assert Layers(Text(content)) == 0;
  }

  lemma UpdateIsLayeredIff(cfg: Config, s: Store, user: UserId, id: NoteId, data: UpdateData, env: Env)
    requires Layered(s) && DoUpdate(cfg, s, user, id, data, env).Done?
    ensures id in s.notes
    ensures Layered(DoUpdate(cfg, s, user, id, data, env).store) <==> !Spoils(cfg, s.notes[id], data)
  {
    hide DoUpdate, EditRow, Layers;
    UpdateEffect(cfg, s, user, id, data, env);
    EditIsOverrideIff(cfg, s.notes[id], data, env.nonce);
    PlaintextIsText(s.notes[id]);
  }

  lemma FlagsKeepLayers(cfg: Config, s: Store, req: Request)
    requires Layered(s) && (req.op.DeleteNote? || req.op.PinNote? || req.op.UnpinNote?)
    ensures Layered(Step(cfg, s, req))
  {
    hide Layers;
  }

  lemma StepKeepsLayersIff(cfg: Config, s: Store, req: Request)
    requires Inv(cfg, s) && Layered(s)
    ensures Layered(Step(cfg, s, req)) <==> !SpoilsAt(cfg, s, req)
  {
    hide Layered, Inv, Spoils;
    if Apply(cfg, s, req).Done? && WritesNotes(req.op) {
      match req.op
      case CreateNote(title, content, isPrivate) =>
        CreateIsLayered(cfg, s, req.user, title, content, isPrivate, req.env);
      case UpdateNote(id, data) => UpdateIsLayeredIff(cfg, s, req.user, id, data, req.env);
      case RestoreVersion(id, number) => RestoreKeepsLayers(cfg, s, req.user, id, number, req.env);
      case DeleteNote(_) => FlagsKeepLayers(cfg, s, req);
      case PinNote(_) => FlagsKeepLayers(cfg, s, req);
      case UnpinNote(_) => FlagsKeepLayers(cfg, s, req);
    } else {
      OthersKeepTables(cfg, s, req);
      SameTablesSameLayers(s, Step(cfg, s, req));
    }
  }

  lemma SameTablesSameLayers(s: Store, s': Store)
    requires s.notes == s'.notes && s.versions == s'.versions
    ensures Layered(s) <==> Layered(s')
  {
  }

  /** Exactly the runs without a spoiling update keep, from beginning to end, one layer on private rows, none on
      public ones, and readable snapshots. */
  lemma {:induction false} RunsKeepLayersIff(cfg: Config, users: set<UserId>, reqs: seq<Request>)
    ensures AlwaysLayered(cfg, users, reqs) <==> Unspoilt(cfg, users, reqs)
  {
    if reqs == [] {
      assert Layered(Exec(cfg, users, []));
    } else {
      var n := |reqs| - 1;
      var s := Exec(cfg, users, reqs[..n]);
      RunsKeepLayersIff(cfg, users, reqs[..n]);
      RunKeeps(cfg, users, reqs[..n]);
      assert forall i: nat | i <= n :: reqs[..n][..i] == reqs[..i];
      assert reqs[..n + 1] == reqs;
      if Layered(s) {
        StepKeepsLayersIff(cfg, s, reqs[n]);
      }
      LayersStepByStep(cfg, users, reqs);
    }
  }

  lemma LayersStepByStep(cfg: Config, users: set<UserId>, reqs: seq<Request>)
    requires reqs != []
    ensures var n := |reqs| - 1;
      && (AlwaysLayered(cfg, users, reqs) <==>
          AlwaysLayered(cfg, users, reqs[..n]) && Layered(Exec(cfg, users, reqs)))
      && (AlwaysLayered(cfg, users, reqs[..n]) ==> Layered(Exec(cfg, users, reqs[..n])))
      && (Unspoilt(cfg, users, reqs) <==>
          Unspoilt(cfg, users, reqs[..n]) && !SpoilsAt(cfg, Exec(cfg, users, reqs[..n]), reqs[n]))
  {
    hide Layered, SpoilsAt, Exec;
    var n := |reqs| - 1;
    assert forall i: nat | i <= n :: reqs[..n][..i] == reqs[..i];
    assert reqs[..n + 1] == reqs && reqs[..n][..n] == reqs[..n];
    forall i: nat | i < n
      ensures SpoilsAt(cfg, Exec(cfg, users, reqs[..n][..i]), reqs[..n][i])
              <==> SpoilsAt(cfg, Exec(cfg, users, reqs[..i]), reqs[i])
    {
    }
  }

  /** With a key version that is not empty, no update spoils its row. */
  lemma KeyedRunsAreUnspoilt(cfg: Config, users: set<UserId>, reqs: seq<Request>)
    requires cfg.keyVersion != ""
    ensures Unspoilt(cfg, users, reqs)
  {
    forall i: nat | i < |reqs|
      ensures !SpoilsAt(cfg, Exec(cfg, users, reqs[..i]), reqs[i])
    {
      RunKeeps(cfg, users, reqs[..i]);
    }
  }

  /** A configuration keeps every row in one-layer form in every run iff its key version is not empty. */
  lemma RunsKeepOneLayerIff(cfg: Config, users: set<UserId>)
    requires users != {}
    ensures (forall reqs, n | n in Exec(cfg, users, reqs).notes :: OneLayer(Exec(cfg, users, reqs).notes[n]))
            <==> cfg.keyVersion != ""
  {
    if cfg.keyVersion != "" {
      forall reqs, n | n in Exec(cfg, users, reqs).notes
        ensures OneLayer(Exec(cfg, users, reqs).notes[n])
      {
        RunKeeps(cfg, users, reqs);
      }
    } else {
      var u :| u in users;
      var reqs := EmptyKeyRun(cfg, users, u);
      assert Layers(Cipher(0, Text("a"))) == 1;
      assert !OneLayer(Exec(cfg, users, reqs).notes[0]);
    }
  }

  /** Every snapshot of every run is readable text, also of private notes, iff the key version is not empty. */
  lemma SnapshotsAreReadableIff(cfg: Config, users: set<UserId>)
    requires users != {}
    ensures (forall reqs, v | v in Exec(cfg, users, reqs).versions :: v.content.Text?) <==> cfg.keyVersion != ""
  {
    if cfg.keyVersion != "" {
      forall reqs, v | v in Exec(cfg, users, reqs).versions
        ensures v.content.Text?
      {
        RunKeeps(cfg, users, reqs);
      }
    } else {
      var u :| u in users;
      var run := EmptyKeyRun(cfg, users, u);
      var retitle := Request(u, UpdateNote(0, UpdateData(Some("x"), None, None)), Env(0, 0, 0, 0));
      var s := Exec(cfg, users, run);
      assert (run + [retitle])[..|run|] == run;
      assert Exec(cfg, users, run + [retitle]) == Step(cfg, s, retitle);
      CiphertextIsSnapshotted(cfg, s, retitle);
      assert !Exec(cfg, users, run + [retitle]).versions[|s.versions|].content.Text?;
    }
  }

  lemma CiphertextIsSnapshotted(cfg: Config, s: Store, req: Request)
    requires req.op == UpdateNote(0, UpdateData(Some("x"), None, None)) && req.user in s.users && 0 in s.notes
    requires var row := s.notes[0]; !row.isPrivate && row.content.Cipher? && row.ownerId == req.user && !row.IsDeleted()
    ensures var vs := Step(cfg, s, req).versions;
      |vs| == |s.versions| + 1 && vs[|s.versions|].content == s.notes[0].content
  {
    assert DoUpdate(cfg, s, req.user, 0, req.op.data, req.env).Done?;
  }

  /** Create a private note, then make it public: with an empty key version the ciphertext stays. */
  lemma EmptyKeyRun(cfg: Config, users: set<UserId>, u: UserId) returns (reqs: seq<Request>)
    requires u in users && cfg.keyVersion == ""
    ensures Exec(cfg, users, reqs).users == users && 0 in Exec(cfg, users, reqs).notes
    ensures var row := Exec(cfg, users, reqs).notes[0];
      !row.isPrivate && row.content == Cipher(0, Text("a")) && row.ownerId == u && !row.IsDeleted()
  {
    var env := Env(0, 0, 0, 0);
    var a := Request(u, CreateNote("t", "a", true), env);
    var b := Request(u, UpdateNote(0, UpdateData(None, None, Some(false))), env);
    reqs := [a, b];
    var s0 := EmptyStore(users);
    var s1 := Step(cfg, s0, a);
    assert s1.notes[0] == NoteRow(u, "t", Cipher(0, Text("a")), true, Some(""), false, None, None, 0);
    assert Continue(cfg, s0, [a]) == s1 by {
      assert [a][..0] == [];
    }
    assert reqs[..1] == [a];
    var row := EditRow(cfg, s1.notes[0], b.op.data, 0).value;
    assert row.content == Cipher(0, Text("a")) && !row.isPrivate;
    assert DoUpdate(cfg, s1, u, 0, b.op.data, env).Done?;
    assert Step(cfg, s1, b).notes[0].content == row.content;
  }

  /** Under a key version, what any request shows of a note is its plaintext, never ciphertext and never the
      fallback. */
  lemma ShownIsPlaintext(cfg: Config, users: set<UserId>, reqs: seq<Request>, n: NoteId)
    requires cfg.keyVersion != "" && n in Exec(cfg, users, reqs).notes
    ensures var row := Exec(cfg, users, reqs).notes[n];
      Plaintext(row) == Some(Shown(row).content) && Shown(row).content.Text?
  {
    RunKeeps(cfg, users, reqs);
    PlaintextIsText(Exec(cfg, users, reqs).notes[n]);
  }
}
