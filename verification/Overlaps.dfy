/** Requests that run alone, and pairs of edits that overlap. */
module Overlaps {
  import opened Wrappers
  import opened Security
  import opened Models
  import opened Queries
  import opened NoteRules
  import opened UnitOfWork
  import opened Invariants
  import opened ColumnUpdates
  import opened Interleaving

  /** The request has read all it needs before the number, and will not raise. */
  predicate Prepared(cfg: Config, s: Store, tx: Tx) {
    && tx.phase.HasNote? && tx.note in s.notes && (tx.req.op.RestoreVersion? ==> tx.version.Some?)
    && Plaintext(tx.seen).Some? && Object(cfg, tx).Some?
  }

  /** The tables after it reads the number, flushes and commits with nobody in between. */
  function Finish(cfg: Config, s: Store, tx: Tx): Store
    requires Prepared(cfg, s, tx)
  {
    var number := NextVersionNumber(s, tx.note);
    Publish(s, tx.(phase := HasFlushed(number, s.notes[tx.note], SnapshotOf(tx, number, Plaintext(tx.seen).value),
                                       Patch(tx.seen, Object(cfg, tx).value, s.notes[tx.note], tx.req.env.now))))
  }

  lemma RunsOn(cfg: Config, sys: System, t: nat)
    requires t in sys.txs && Prepared(cfg, sys.store, sys.txs[t])
    requires forall t' | t' in sys.txs :: !sys.txs[t'].phase.HasFlushed?
    ensures Next(cfg, Next(cfg, Next(cfg, sys, ReadNumber(t)), Flush(t)), Commit(t)) ==
      System(Finish(cfg, sys.store, sys.txs[t]), sys.txs - {t})
  {
    hide Find, NextVersionNumber, Assigned, Patch, Plaintext;
    var tx, number := sys.txs[t], NextVersionNumber(sys.store, sys.txs[t].note);
    NextNumberIsFree(sys.store, tx.note);
    var numbered := tx.(phase := HasNumber(number, sys.store.notes[tx.note]));
    var sys1 := sys.(txs := sys.txs[t := numbered]);
    assert Next(cfg, sys, ReadNumber(t)) == sys1;
    var flushed := Flushed(cfg, sys.store, numbered).value;
    assert Next(cfg, sys1, Flush(t)) == sys.(txs := sys.txs[t := flushed]);
    assert sys.txs[t := flushed] - {t} == sys.txs - {t};
  }

  lemma OneMoreEvent(cfg: Config, s: Store, es: seq<Event>, e: Event)
    ensures Interleaved(cfg, s, es + [e]) == Next(cfg, Interleaved(cfg, s, es), e)
  {
    assert (es + [e])[..|es|] == es;
  }

  /** The events of one request. */
  function Alone(req: Request): seq<Event> {
    [] + [Begin(0, req)] + [ReadVersion(0)] + [ReadNumber(0)] + [Flush(0)] + [Commit(0)]
  }

  lemma AloneOutcome(cfg: Config, s: Store, req: Request)
    ensures Interleaved(cfg, s, Alone(req)) ==
      Next(cfg, Next(cfg, Next(cfg, Next(cfg, Next(cfg, System(s, map[]), Begin(0, req)), ReadVersion(0)),
                                ReadNumber(0)), Flush(0)), Commit(0))
  {
    hide Next;
    OneMoreEvent(cfg, s, [], Begin(0, req));
    OneMoreEvent(cfg, s, [] + [Begin(0, req)], ReadVersion(0));
    OneMoreEvent(cfg, s, [] + [Begin(0, req)] + [ReadVersion(0)], ReadNumber(0));
    OneMoreEvent(cfg, s, [] + [Begin(0, req)] + [ReadVersion(0)] + [ReadNumber(0)], Flush(0));
    OneMoreEvent(cfg, s, [] + [Begin(0, req)] + [ReadVersion(0)] + [ReadNumber(0)] + [Flush(0)], Commit(0));
  }

  /** The request as it stands after its first two reads, when it runs alone. */
  function Opened(s: Store, req: Request): Tx
    requires IsRewrite(req.op) && req.op.id in s.notes
  {
    var version := if req.op.UpdateNote? then None
                   else match GetVersion(s, req.op.id, req.op.number)
                     case Unique(v) => Some(v)
                     case Absent => None
                     case Ambiguous => None;
    Tx(req.op.id, req, s.notes[req.op.id], version, HasNote)
  }

  lemma SucceedsPrepared(cfg: Config, s: Store, req: Request)
    requires IsRewrite(req.op) && Apply(cfg, s, req).Done?
    ensures req.op.id in s.notes && !s.notes[req.op.id].IsDeleted() && Prepared(cfg, s, Opened(s, req))
    ensures Finish(cfg, s, Opened(s, req)) == Step(cfg, s, req)
  {
    hide Find, NextVersionNumber, EditRow, RestoreRow, VersionsOf, Plaintext, Shown, Patch, Stamp;
    var tx := Opened(s, req);
    PatchOfOwnRow(cfg, tx.seen, req, tx.version, req.env.now);
  }

  /** A successful request that runs alone commits exactly what the rules of a serial run ask for. */
  lemma AloneIsStep(cfg: Config, s: Store, req: Request)
    requires IsRewrite(req.op) && Apply(cfg, s, req).Done?
    ensures Interleaved(cfg, s, Alone(req)).store == Step(cfg, s, req)
  {
    hide Find, Finish, Apply, Step, Plaintext, Assigned;
    AloneOutcome(cfg, s, req);
    SucceedsPrepared(cfg, s, req);
    var tx := Opened(s, req);
    Opens(cfg, s, req);
    RunsOn(cfg, System(s, map[0 := tx]), 0);
  }

  lemma Opens(cfg: Config, s: Store, req: Request)
    requires IsRewrite(req.op) && req.op.id in s.notes && !s.notes[req.op.id].IsDeleted()
    requires req.op.RestoreVersion? ==> Opened(s, req).version.Some?
    ensures Next(cfg, Next(cfg, System(s, map[]), Begin(0, req)), ReadVersion(0)) == System(s, map[0 := Opened(s, req)])
  {
    hide Find, VersionsOf;
  }

  // Two edits of one note; the second loads the note before the first commits.

  function Overlap(a: Request, b: Request): seq<Event> {
    [] + [Begin(1, a)] + [Begin(2,
      b)] + [ReadNumber(1)] + [Flush(1)] + [Commit(1)] + [ReadNumber(2)] + [Flush(2)] + [Commit(2)]
  }

  lemma OverlapBegins(cfg: Config, s: Store, a: Request, b: Request)
    ensures Interleaved(cfg, s, [] + [Begin(1, a)] + [Begin(2, b)]) ==
      Next(cfg, Next(cfg, System(s, map[]), Begin(1, a)), Begin(2, b))
  {
    hide Next;
    OneMoreEvent(cfg, s, [], Begin(1, a));
    OneMoreEvent(cfg, s, [] + [Begin(1, a)], Begin(2, b));
  }

  lemma ThreeMoreEvents(cfg: Config, s: Store, es: seq<Event>, t: nat)
    ensures Interleaved(cfg, s, es + [ReadNumber(t)] + [Flush(t)] + [Commit(t)]) ==
      Next(cfg, Next(cfg, Next(cfg, Interleaved(cfg, s, es), ReadNumber(t)), Flush(t)), Commit(t))
  {
    hide Next;
    OneMoreEvent(cfg, s, es, ReadNumber(t));
    OneMoreEvent(cfg, s, es + [ReadNumber(t)], Flush(t));
    OneMoreEvent(cfg, s, es + [ReadNumber(t)] + [Flush(t)], Commit(t));
  }

  /** Both requests finish on the tables they find, the second with the row it loaded before the first commits. */
  lemma OverlapOutcome(cfg: Config, s: Store, a: Request, b: Request)
    requires a.op.UpdateNote? && b.op.UpdateNote? && a.op.id == b.op.id
    requires a.op.id in s.notes && !s.notes[a.op.id].IsDeleted()
    requires Prepared(cfg, s, Opened(s, a)) && Prepared(cfg, s, Opened(s, b))
    ensures Prepared(cfg, Finish(cfg, s, Opened(s, a)), Opened(s, b))
    ensures Interleaved(cfg, s, Overlap(a, b)).store == Finish(cfg, Finish(cfg, s, Opened(s, a)), Opened(s, b))
  {
    hide Object, Find;
    var x, y := Opened(s, a), Opened(s, b);
    var begun := [] + [Begin(1, a)] + [Begin(2, b)];
    OverlapBegins(cfg, s, a, b);
    var sys := System(s, map[1 := x, 2 := y]);
    assert Interleaved(cfg, s, begun) == sys;
    ThreeMoreEvents(cfg, s, begun, 1);
    RunsOn(cfg, sys, 1);
    assert sys.txs - {1} == map[2 := y];
    ThreeMoreEvents(cfg, s, begun + [ReadNumber(1)] + [Flush(1)] + [Commit(1)], 2);
    RunsOn(cfg, System(Finish(cfg, s, x), map[2 := y]), 2);
  }

  function PublicRow(text: string): NoteRow {
    NoteRow(0, "t", Text(text), false, None, false, None, None, 0)
  }

  /** One user, one public note with the text "a", nothing else. */
  function OneNote(): Store {
    EmptyStore({0}).(notes := map[7 := PublicRow("a")])
  }

  function Edit(data: UpdateData): Request {
    Request(0, UpdateNote(7, data), Env(1, 5, 0, 0))
  }

  /** The row that two overlapping edits leave, the second loaded before the first committed. */
  function RowAfter(cfg: Config, first: UpdateData, second: UpdateData): NoteRow
    requires Object(cfg, Opened(OneNote(), Edit(first))).Some? && Object(cfg, Opened(OneNote(), Edit(second))).Some?
  {
    var row := PublicRow("a");
    var between := Patch(row, Object(cfg, Opened(OneNote(), Edit(first))).value, row, 1);
    Patch(row, Object(cfg, Opened(OneNote(), Edit(second))).value, between, 1)
  }

  lemma TwoEdits(cfg: Config, first: UpdateData, second: UpdateData)
    requires Object(cfg, Opened(OneNote(), Edit(first))).Some? && Object(cfg, Opened(OneNote(), Edit(second))).Some?
    ensures var s' := Interleaved(cfg, OneNote(), Overlap(Edit(first), Edit(second))).store;
      && 7 in s'.notes && s'.notes[7] == RowAfter(cfg, first, second)
      && s'.versions == [VersionRow(7, 1, "t", Text("a"), 0), VersionRow(7, 2, "t", Text("a"), 0)]
  {
    hide Object, Patch;
    var s, a, b := OneNote(), Edit(first), Edit(second);
    OverlapOutcome(cfg, s, a, b);
    FirstNumber(s);
    var s1 := Finish(cfg, s, Opened(s, a));
    SecondNumber(s1, VersionRow(7, 1, "t", Text("a"), 0));
  }

  lemma FirstNumber(s: Store)
    requires s.versions == []
    ensures NextVersionNumber(s, 7) == 1
  {
  }

  lemma SecondNumber(s: Store, v: VersionRow)
    requires s.versions == [v] && v.noteId == 7 && v.number == 1
    ensures NextVersionNumber(s, 7) == 2
  {
    VersionsAppend([], v, 7);
    assert [] + [v] == [v];
    MaxOfNumbered([v]);
  }

  /** Snapshots are not complete under interleaving: the first edit's text "b" is in no version and not in the note. */
  lemma InterleavingLosesAState(cfg: Config)
    ensures var s' := Interleaved(cfg, OneNote(), Overlap(Edit(UpdateData(None, Some("b"), None)),
                                                          Edit(UpdateData(None, Some("c"), None)))).store;
      && 7 in s'.notes && s'.notes[7].content == Text("c")
      && s'.versions == [VersionRow(7, 1, "t", Text("a"), 0), VersionRow(7, 2, "t", Text("a"), 0)]
  {
    TwoEdits(cfg, UpdateData(None, Some("b"), None), UpdateData(None, Some("c"), None));
  }

  /** Content in clear on a private row: the first edit makes the note private, the second, which loaded it while it was
      public, writes new content. Both of its reads saw the same title and plaintext. The row is unreadable. */
  lemma InterleavingSpoilsARow(cfg: Config)
    ensures var s' := Interleaved(cfg, OneNote(), Overlap(Edit(UpdateData(None, None, Some(true))),
                                                          Edit(UpdateData(None, Some("b"), None)))).store;
      && 7 in s'.notes && s'.notes[7].isPrivate && s'.notes[7].keyVersion == Some(cfg.keyVersion)
      && s'.notes[7].content == Text("b") && Plaintext(s'.notes[7]) == None
  {
    TwoEdits(cfg, UpdateData(None, None, Some(true)), UpdateData(None, Some("b"), None));
  }
}
