/** Update and restore requests running at the same time. Each reads the note, a restore then reads its version, each
    reads the next version number, flushes the changed columns and its snapshot under the unique constraint on
    (note, number), and commits; reads see committed rows only. */
module Interleaving {
  import opened Wrappers
  import opened Security
  import opened Models
  import opened Queries
  import opened NoteRules
  import opened UnitOfWork
  import opened Invariants
  import opened ColumnUpdates

  /** How far a request has come; `reread` is the note's committed row when the number was read, `saved` the snapshot
      inserted and `written` what the UPDATE made of the committed row. */
  datatype Phase =
    | HasNote
    | HasNumber(number: nat, reread: NoteRow)
    | HasFlushed(number: nat, reread: NoteRow, saved: VersionRow, written: NoteRow)

  /** A running request; `seen` is the row its object was loaded from. */
  datatype Tx = Tx(note: NoteId, req: Request, seen: NoteRow, version: Option<VersionRow>, phase: Phase)

  datatype System = System(store: Store, txs: map<nat, Tx>)

  /** The scheduler's choices. */
  datatype Event =
    | Begin(t: nat, req: Request)
    | ReadVersion(t: nat)
    | ReadNumber(t: nat)
    | Flush(t: nat)
    | Commit(t: nat)
    | Abort(t: nat)

  /** The INSERT waits for another request that has flushed the same key. */
  predicate Waits(sys: System, t: nat)
    requires t in sys.txs && sys.txs[t].phase.HasNumber?
  {
    exists t' | t' in sys.txs ::
      && t' != t && sys.txs[t'].phase.HasFlushed?
      && sys.txs[t'].note == sys.txs[t].note && sys.txs[t'].phase.number == sys.txs[t].phase.number
  }

  function Object(cfg: Config, tx: Tx): Option<NoteRow> {
    Assigned(cfg, tx.seen, tx.req, tx.version)
  }

  function SnapshotOf(tx: Tx, number: nat, text: Content): VersionRow {
    VersionRow(tx.note, number, tx.seen.title, text, tx.req.user)
  }

  /** The entry a request logs with the snapshot it saves. */
  function Entry(tx: Tx, number: nat): LogEntry {
    match tx.version
    case None => LogEntry(Some(tx.req.user), NoteUpdated, tx.note, VersionSaved(number), tx.req.env.now)
    case Some(v) => LogEntry(Some(tx.req.user), NoteVersionRestored, tx.note, Restored(v.number, number),
      tx.req.env.now)
  }

  /** The request is ready to flush: not waiting, with its number read. */
  predicate CanFlush(sys: System, t: nat) {
    t in sys.txs && sys.txs[t].phase.HasNumber? && sys.txs[t].note in sys.store.notes && !Waits(sys, t)
  }

  /** The flushed request, or None when decryption raises or the number is taken, and the request rolls back. */
  function Flushed(cfg: Config, s: Store, tx: Tx): Option<Tx>
    requires tx.phase.HasNumber? && tx.note in s.notes
  {
    match (Plaintext(tx.seen), Object(cfg, tx))
    case (Some(text), Some(edited)) =>
      var number := tx.phase.number;
      if !Find(s.versions, VersionKey(tx.note, number)).Absent? then None
      else
        var written := Patch(tx.seen, edited, s.notes[tx.note], tx.req.env.now);
        Some(tx.(phase := HasFlushed(number, tx.phase.reread, SnapshotOf(tx, number, text), written)))
    case _ => None
  }

  /** Request t goes on as tx, or ends. */
  function Proceed(sys: System, t: nat, tx: Option<Tx>): System {
    match tx
    case Some(tx) => sys.(txs := sys.txs[t := tx])
    case None => sys.(txs := sys.txs - {t})
  }

  /** A restore that has found its version, or None when it has not. */
  function WithVersion(tx: Tx, found: Lookup<VersionRow>): Option<Tx> {
    match found
    case Unique(v) => Some(tx.(version := Some(v)))
    case Absent => None
    case Ambiguous => None
  }

  /** One event; an event that cannot happen now changes nothing. */
  function Next(cfg: Config, sys: System, e: Event): System {
    match e
    case Begin(t, req) =>
      if t in sys.txs || !IsRewrite(req.op) || req.op.id !in sys.store.notes || sys.store.notes[req.op.id].IsDeleted()
      then sys
      else Proceed(sys, t, Some(Tx(req.op.id, req, sys.store.notes[req.op.id], None, HasNote)))
    case ReadVersion(t) =>
      if t !in sys.txs || !sys.txs[t].phase.HasNote? || !sys.txs[t].req.op.RestoreVersion? then sys
      else
        var tx := sys.txs[t];
        Proceed(sys, t, WithVersion(tx, GetVersion(sys.store, tx.note, tx.req.op.number)))
    case ReadNumber(t) =>
      if t !in sys.txs || !sys.txs[t].phase.HasNote? || sys.txs[t].note !in sys.store.notes
         || (sys.txs[t].req.op.RestoreVersion? && sys.txs[t].version.None?)
      then sys
      else
        var tx := sys.txs[t];
        Proceed(sys, t, Some(tx.(phase := HasNumber(NextVersionNumber(sys.store, tx.note), sys.store.notes[tx.note]))))
    case Flush(t) =>
      if !CanFlush(sys, t) then sys
      else Proceed(sys, t, Flushed(cfg, sys.store, sys.txs[t]))
    case Commit(t) =>
      if t !in sys.txs || !sys.txs[t].phase.HasFlushed? then sys
      else System(Publish(sys.store, sys.txs[t]), sys.txs - {t})
    case Abort(t) => Proceed(sys, t, None)
  }

  /** The tables after a flushed request commits. */
  function Publish(s: Store, tx: Tx): Store
    requires tx.phase.HasFlushed?
  {
    s.(versions := s.versions + [tx.phase.saved],
       notes := s.notes[tx.note := tx.phase.written],
       log := s.log + [Entry(tx, tx.phase.number)])
  }

  function Interleaved(cfg: Config, s: Store, es: seq<Event>): System {
    if es == [] then System(s, map[])
    else Next(cfg, Interleaved(cfg, s, es[..|es| - 1]), es[|es| - 1])
  }

  lemma InterleavedStep(cfg: Config, s: Store, es: seq<Event>)
    requires es != []
    ensures Interleaved(cfg, s, es) == Next(cfg, Interleaved(cfg, s, es[..|es| - 1]), es[|es| - 1])
  {
  }

  // What every interleaving keeps.

  function Count(s: Store, n: NoteId): nat {
    |VersionsOf(s.versions, n)|
  }

  ghost predicate GapFree(s: Store) {
    forall n :: Numbered(VersionsOf(s.versions, n))
  }

  /** The version that a restore has read is still the one with its number. */
  predicate VersionOk(s: Store, tx: Tx) {
    && IsRewrite(tx.req.op) && tx.req.op.id == tx.note
    && (tx.version.Some? ==>
          && tx.req.op.RestoreVersion? && 1 <= tx.req.op.number <= Count(s, tx.note)
          && VersionsOf(s.versions, tx.note)[tx.req.op.number - 1] == tx.version.value)
  }

  /** A flushed request holds the next number, its snapshot of the row it loaded, and its columns over the row that it
      saw when it read the number. */
  predicate FlushedOk(cfg: Config, s: Store, tx: Tx)
    requires tx.phase.HasFlushed?
  {
    && tx.phase.number == Count(s, tx.note) + 1
    && Plaintext(tx.seen).Some? && Object(cfg, tx).Some?
    && tx.phase.saved == SnapshotOf(tx, tx.phase.number, Plaintext(tx.seen).value)
    && tx.phase.written == Patch(tx.seen, Object(cfg, tx).value, tx.phase.reread, tx.req.env.now)
  }

  /** A number read is at most the next one; while it is the next one, the note is as it was then. */
  predicate TxOk(cfg: Config, s: Store, tx: Tx) {
    && tx.note in s.notes && VersionOk(s, tx)
    && (!tx.phase.HasNote? ==>
          && 1 <= tx.phase.number <= Count(s, tx.note) + 1
          && (tx.phase.number == Count(s, tx.note) + 1 ==> s.notes[tx.note] == tx.phase.reread))
    && (tx.phase.HasFlushed? ==> FlushedOk(cfg, s, tx))
  }

  ghost predicate Safe(cfg: Config, sys: System) {
    && GapFree(sys.store)
    && (forall t | t in sys.txs :: TxOk(cfg, sys.store, sys.txs[t]))
    && (forall t, t' | t in sys.txs && t' in sys.txs && t != t' ::
          !(sys.txs[t].phase.HasFlushed? && sys.txs[t'].phase.HasFlushed? && sys.txs[t].note == sys.txs[t'].note))
  }

  lemma NumberIsNext(s: Store, n: NoteId)
    requires GapFree(s)
    ensures NextVersionNumber(s, n) == Count(s, n) + 1
  {
    MaxOfNumbered(VersionsOf(s.versions, n));
  }

  /** Every number up to the count is taken by a committed version. */
  lemma NumbersAreTaken(s: Store, n: NoteId, k: nat)
    requires GapFree(s)
    ensures 1 <= k <= Count(s, n) ==> !Find(s.versions, VersionKey(n, k)).Absent?
  {
    var vs := VersionsOf(s.versions, n);
    if 1 <= k <= |vs| {
      var v := vs[k - 1];
      assert v in vs;
      var i :| 0 <= i < |s.versions| && s.versions[i] == v;
      assert VersionKey(n, k)(s.versions[i]);
    }
  }

  lemma ReadKeepsSafe(cfg: Config, sys: System, e: Event)
    requires Safe(cfg, sys) && (e.Begin? || e.ReadVersion? || e.ReadNumber? || e.Abort?)
    ensures Safe(cfg, Next(cfg, sys, e))
  {
    hide Find, VersionsOf, FlushedOk, Plaintext;
    match e
    case Begin(_, _) =>
    case ReadVersion(t) =>
      if t in sys.txs && sys.txs[t].req.op.RestoreVersion? {
        FindNumbered(VersionsOf(sys.store.versions, sys.txs[t].note), sys.txs[t].req.op.number);
      }
    case ReadNumber(t) =>
      if t in sys.txs {
        NumberIsNext(sys.store, sys.txs[t].note);
      }
    case Abort(_) =>
  }

  lemma FlushKeepsSafe(cfg: Config, sys: System, t: nat)
    requires Safe(cfg, sys)
    ensures Safe(cfg, Next(cfg, sys, Flush(t)))
  {
    hide Find, VersionsOf, Plaintext, Assigned, Patch;
    if CanFlush(sys, t) && Flushed(cfg, sys.store, sys.txs[t]).Some? {
      var tx, s := sys.txs[t], sys.store;
      NumbersAreTaken(s, tx.note, tx.phase.number);
      assert TxOk(cfg, s, tx);
      assert tx.phase.number == Count(s, tx.note) + 1;
      assert TxOk(cfg, s, Flushed(cfg, s, tx).value);
    }
  }

  /** A commit gives its note one more version and touches no other note. */
  lemma CommitEffect(cfg: Config, sys: System, t: nat, n: NoteId)
    requires Safe(cfg, sys) && t in sys.txs && sys.txs[t].phase.HasFlushed?
    ensures var tx, s, s' := sys.txs[t], sys.store, Next(cfg, sys, Commit(t)).store;
      && VersionsOf(s'.versions, n) == VersionsOf(s.versions, n) + (if n == tx.note then [tx.phase.saved] else [])
      && Numbered(VersionsOf(s'.versions, n))
  {
    hide Plaintext, Object, Patch, VersionsOf;
    var tx := sys.txs[t];
    assert TxOk(cfg, sys.store, tx);
    VersionsAppend(sys.store.versions, tx.phase.saved, n);
    assert Numbered(VersionsOf(sys.store.versions, n));
  }

  lemma CommitKeepsTx(cfg: Config, sys: System, t: nat, t': nat)
    requires Safe(cfg, sys) && t in sys.txs && sys.txs[t].phase.HasFlushed?
    requires t' in sys.txs && t' != t
    ensures TxOk(cfg, Next(cfg, sys, Commit(t)).store, sys.txs[t'])
  {
    hide GapFree, VersionsOf, Plaintext, Object, Patch;
    CommitEffect(cfg, sys, t, sys.txs[t'].note);
    assert TxOk(cfg, sys.store, sys.txs[t']) && TxOk(cfg, sys.store, sys.txs[t]);
  }

  lemma CommitKeepsSafe(cfg: Config, sys: System, t: nat)
    requires Safe(cfg, sys)
    ensures Safe(cfg, Next(cfg, sys, Commit(t)))
  {
    hide TxOk, VersionsOf, Plaintext;
    if t in sys.txs && sys.txs[t].phase.HasFlushed? {
      var sys' := Next(cfg, sys, Commit(t));
      forall n
        ensures Numbered(VersionsOf(sys'.store.versions, n))
      {
        CommitEffect(cfg, sys, t, n);
      }
      forall t' | t' in sys'.txs
        ensures TxOk(cfg, sys'.store, sys'.txs[t'])
      {
        CommitKeepsTx(cfg, sys, t, t');
      }
    }
  }

  lemma NextKeepsSafe(cfg: Config, sys: System, e: Event)
    requires Safe(cfg, sys)
    ensures Safe(cfg, Next(cfg, sys, e))
  {
    hide Safe, Next;
    match e
    case Flush(t) => FlushKeepsSafe(cfg, sys, t);
    case Commit(t) => CommitKeepsSafe(cfg, sys, t);
    case Begin(_, _) => ReadKeepsSafe(cfg, sys, e);
    case ReadVersion(_) => ReadKeepsSafe(cfg, sys, e);
    case ReadNumber(_) => ReadKeepsSafe(cfg, sys, e);
    case Abort(_) => ReadKeepsSafe(cfg, sys, e);
  }

  lemma {:induction false} InterleavedIsSafe(cfg: Config, s: Store, es: seq<Event>)
    requires GapFree(s)
    ensures Safe(cfg, Interleaved(cfg, s, es))
  {
    if es != [] {
      InterleavedIsSafe(cfg, s, es[..|es| - 1]);
      NextKeepsSafe(cfg, Interleaved(cfg, s, es[..|es| - 1]), es[|es| - 1]);
    }
  }

  /** In every interleaving a note's committed version numbers are 1..k, each once and in order of commit. */
  lemma NumbersStayUniqueAndGapFree(cfg: Config, s: Store, es: seq<Event>, n: NoteId)
    requires GapFree(s)
    ensures var store := Interleaved(cfg, s, es).store; var vs := VersionsOf(store.versions, n);
      && (forall i | 0 <= i < |vs| :: vs[i].number == i + 1)
      && forall k: int :: GetVersion(store, n, k) == if 1 <= k <= |vs| then Unique(vs[k - 1]) else Absent
  {
    hide Find, VersionsOf, Interleaved;
    InterleavedIsSafe(cfg, s, es);
    var store := Interleaved(cfg, s, es).store;
    assert Numbered(VersionsOf(store.versions, n));
    forall k: int
      ensures GetVersion(store, n, k) ==
        if 1 <= k <= Count(store, n) then Unique(VersionsOf(store.versions, n)[k - 1]) else Absent
    {
      FindNumbered(VersionsOf(store.versions, n), k);
    }
  }

  // Snapshots against the states that the note has been through.

  /** The request read the same title and plaintext before and when it read the number. */
  predicate ReadTheSame(tx: Tx)
    requires tx.phase.HasFlushed?
  {
    ReadsAs(tx.seen, tx.phase.reread)
  }

  /** The event commits a request about note n. */
  predicate Commits(sys: System, e: Event, n: NoteId) {
    e.Commit? && e.t in sys.txs && sys.txs[e.t].note == n && sys.txs[e.t].phase.HasFlushed?
  }

  /** A commit overwrites the state its request saw when it read the number, not the one it read first: the snapshot
      is the overwritten state if and only if title and plaintext were still the same at the second read. */
  lemma SnapshotIsOverwrittenStateIff(cfg: Config, s: Store, es: seq<Event>, t: nat)
    requires GapFree(s)
    requires t in Interleaved(cfg, s, es).txs && Interleaved(cfg, s, es).txs[t].phase.HasFlushed?
    ensures var sys := Interleaved(cfg, s, es); var tx := sys.txs[t];
      && tx.note in sys.store.notes && sys.store.notes[tx.note] == tx.phase.reread
      && (var v, overwritten := tx.phase.saved, sys.store.notes[tx.note];
          (v.title == overwritten.title && Some(v.content) == Plaintext(overwritten)) <==> ReadTheSame(tx))
  {
    hide Interleaved, Plaintext, Assigned, Patch;
    InterleavedIsSafe(cfg, s, es);
    assert TxOk(cfg, Interleaved(cfg, s, es).store, Interleaved(cfg, s, es).txs[t]);
  }

  /** Title and readable text of a row, None where decryption raises. */
  datatype Mark = Mark(title: string, text: Option<Content>)

  function MarkOf(row: NoteRow): Mark {
    Mark(row.title, Plaintext(row))
  }

  function MarkOfVersion(v: VersionRow): Mark {
    Mark(v.title, Some(v.content))
  }

  function Marks(vs: seq<VersionRow>): seq<Mark> {
    seq(|vs|, i requires 0 <= i < |vs| => MarkOfVersion(vs[i]))
  }

  lemma MarksAppend(vs: seq<VersionRow>, v: VersionRow)
    ensures Marks(vs + [v]) == Marks(vs) + [MarkOfVersion(v)]
  {
  }

  /** The versions of n followed by its current row, readable or not. */
  function Kept(s: Store, n: NoteId): seq<Mark>
    requires n in s.notes
  {
    Marks(VersionsOf(s.versions, n)) + [MarkOf(s.notes[n])]
  }

  /** The rows of n that the run committed, in order. */
  function Committed(cfg: Config, s: Store, es: seq<Event>, n: NoteId): seq<Mark> {
    if es == [] then []
    else
      var init, last := es[..|es| - 1], es[|es| - 1];
      var sys := Interleaved(cfg, s, init);
      Committed(cfg, s, init, n) + if Commits(sys, last, n) then [MarkOf(sys.txs[last.t].phase.written)] else []
  }

  lemma CommittedStep(cfg: Config, s: Store, es: seq<Event>, n: NoteId)
    requires es != []
    ensures var init, last := es[..|es| - 1], es[|es| - 1];
      var sys := Interleaved(cfg, s, init);
      Committed(cfg, s, es, n) == Committed(cfg, s, init, n)
        + if Commits(sys, last, n) then [MarkOf(sys.txs[last.t].phase.written)] else []
  {
  }

  /** Every request about n that the run commits read the same before and when it read the number. */
  ghost predicate AllReadTheSame(cfg: Config, s: Store, es: seq<Event>, n: NoteId) {
    forall i: nat | i < |es| && Commits(Interleaved(cfg, s, es[..i]), es[i], n) ::
      ReadTheSame(Interleaved(cfg, s, es[..i]).txs[es[i].t])
  }

  lemma AllReadTheSameStep(cfg: Config, s: Store, es: seq<Event>, n: NoteId)
    requires es != []
    ensures var k := |es| - 1; var sys := Interleaved(cfg, s, es[..k]);
      AllReadTheSame(cfg, s, es, n) <==>
        AllReadTheSame(cfg, s, es[..k], n) && (Commits(sys, es[k], n) ==> ReadTheSame(sys.txs[es[k].t]))
  {
    hide Interleaved, ReadTheSame, Commits;
    var k := |es| - 1;
    assert forall i: nat | i < k :: es[..k][..i] == es[..i] && es[..k][i] == es[i];
  }

  /** A commit about n puts its snapshot where the overwritten row stood, and its row behind. */
  lemma CommitKeeps(cfg: Config, sys: System, e: Event, n: NoteId)
    requires Safe(cfg, sys) && Commits(sys, e, n)
    ensures var tx, s' := sys.txs[e.t], Next(cfg, sys, e).store;
      && n in s'.notes && s'.notes[n] == tx.phase.written
      && VersionsOf(s'.versions, n) == VersionsOf(sys.store.versions, n) + [tx.phase.saved]
  {
    hide VersionsOf, Plaintext, Assigned, Patch;
    CommitEffect(cfg, sys, e.t, n);
  }

  /** Every other event leaves row and versions of n alone. */
  lemma OthersKeepNote(cfg: Config, sys: System, e: Event, n: NoteId)
    requires Safe(cfg, sys) && !Commits(sys, e, n) && n in sys.store.notes
    ensures var s' := Next(cfg, sys, e).store;
      n in s'.notes && s'.notes[n] == sys.store.notes[n]
      && VersionsOf(s'.versions, n) == VersionsOf(sys.store.versions, n)
  {
    hide VersionsOf, Plaintext, Assigned, Patch, Find;
    if e.Commit? && e.t in sys.txs && sys.txs[e.t].phase.HasFlushed? {
      CommitEffect(cfg, sys, e.t, n);
    }
  }

  /** Replacing the end c of a record by m and w keeps it equal to what is told exactly if it was equal and m is c. */
  lemma RecordStaysTrueIff<T>(ms: seq<T>, told: seq<T>, c: T, m: T, w: T)
    requires |ms| + 1 == |told| && told[|ms|] == c
    ensures ms + [m] + [w] == told + [w] <==> ms + [c] == told && m == c
  {
    assert told == told[..|ms|] + [c];
    if ms + [m] + [w] == told + [w] {
      assert ms + [m] == (ms + [m] + [w])[..|told|] == (told + [w])[..|told|] == told;
      assert ms == (ms + [m])[..|ms|] && m == (ms + [m])[|ms|];
    }
  }

  /** What an interleaving keeps about the record of n: its length, its end, and whether it tells the truth. */
  ghost predicate Tells(cfg: Config, s: Store, es: seq<Event>, n: NoteId)
    requires n in s.notes
  {
    var s', told := Interleaved(cfg, s, es).store, Kept(s, n) + Committed(cfg, s, es, n);
    && n in s'.notes
    && |VersionsOf(s'.versions, n)| + 1 == |told| && told[|told| - 1] == MarkOf(s'.notes[n])
    && (Kept(s', n) == told <==> AllReadTheSame(cfg, s, es, n))
  }

  lemma {:induction false} EveryRunTells(cfg: Config, s: Store, es: seq<Event>, n: NoteId)
    requires GapFree(s) && n in s.notes
    ensures Tells(cfg, s, es, n)
  {
    hide VersionsOf, Next, GapFree;
    if es != [] {
      var init, last := es[..|es| - 1], es[|es| - 1];
      var sys := Interleaved(cfg, s, init);
      EveryRunTells(cfg, s, init, n);
      InterleavedIsSafe(cfg, s, init);
      AllReadTheSameStep(cfg, s, es, n);
      CommittedStep(cfg, s, es, n);
      if Commits(sys, last, n) {
        CommitTells(cfg, s, es, n);
      } else {
        OthersKeepNote(cfg, sys, last, n);
        assert Committed(cfg, s, es, n) == Committed(cfg, s, init, n);
      }
    }
  }

  lemma CommitTells(cfg: Config, s: Store, es: seq<Event>, n: NoteId)
    requires GapFree(s) && n in s.notes && es != []
    requires Tells(cfg, s, es[..|es| - 1], n)
    requires Commits(Interleaved(cfg, s, es[..|es| - 1]), es[|es| - 1], n)
    ensures Tells(cfg, s, es, n)
  {
    hide Interleaved, Next, VersionsOf, AllReadTheSame, Committed, Marks, GapFree, Safe, Plaintext;
    var init, last := es[..|es| - 1], es[|es| - 1];
    var sys, sys' := Interleaved(cfg, s, init), Interleaved(cfg, s, es);
    var tx := sys.txs[last.t];
    InterleavedIsSafe(cfg, s, init);
    InterleavedStep(cfg, s, es);
    CommitKeeps(cfg, sys, last, n);
    MarksAppend(VersionsOf(sys.store.versions, n), tx.phase.saved);
    AllReadTheSameStep(cfg, s, es, n);
    CommittedStep(cfg, s, es, n);
    SnapshotIsOverwrittenStateIff(cfg, s, init, last.t);
    var ms, told := Marks(VersionsOf(sys.store.versions, n)), Kept(s, n) + Committed(cfg, s, init, n);
    MarksLength(VersionsOf(sys.store.versions, n));
    RecordStaysTrueIff(ms, told, MarkOf(sys.store.notes[n]), MarkOfVersion(tx.phase.saved), MarkOf(tx.phase.written));
    assert Kept(s, n) + Committed(cfg, s, es, n) == told + [MarkOf(tx.phase.written)];
  }

  lemma MarksLength(vs: seq<VersionRow>)
    ensures |Marks(vs)| == |vs|
  {
  }

  /** Under any interleaving, the versions of n followed by its current row are its initial record followed by the
      rows committed since, as they read, exactly when every committed request about n read the same title and
      plaintext at both of its reads. */
  lemma HistoryIsCompleteIffAllReadTheSame(cfg: Config, s: Store, es: seq<Event>, n: NoteId)
    requires GapFree(s) && n in s.notes
    ensures n in Interleaved(cfg, s, es).store.notes
    ensures Kept(Interleaved(cfg, s, es).store, n) == Kept(s, n) + Committed(cfg, s, es, n)
            <==> AllReadTheSame(cfg, s, es, n)
  {
    EveryRunTells(cfg, s, es, n);
  }
}
