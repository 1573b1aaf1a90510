/** Interleaved requests against the same requests told in their order of commit. */
module CommitOrder {
  import opened Wrappers
  import opened Security
  import opened Models
  import opened Queries
  import opened NoteRules
  import opened Invariants
  import opened Representation
  import opened History
  import opened ColumnUpdates
  import opened Interleaving

  // Rows: when a commit leaves one encryption layer.

  /** The UPDATE does not leave content and privacy from different requests. */
  predicate Unmixed(cfg: Config, tx: Tx)
    requires tx.phase.HasFlushed?
  {
    Object(cfg, tx).Some? ==> !SpoilsMerge(cfg, tx.seen, tx.req.op, Object(cfg, tx).value, tx.phase.reread)
  }

  /** Every request about n that the run commits is unmixed. */
  ghost predicate AllUnmixed(cfg: Config, s: Store, es: seq<Event>, n: NoteId) {
    forall i: nat | i < |es| && Commits(Interleaved(cfg, s, es[..i]), es[i], n) ::
      Unmixed(cfg, Interleaved(cfg, s, es[..i]).txs[es[i].t])
  }

  lemma AllUnmixedStep(cfg: Config, s: Store, es: seq<Event>, n: NoteId)
    requires es != []
    ensures var k := |es| - 1; var sys := Interleaved(cfg, s, es[..k]);
      AllUnmixed(cfg, s, es, n) <==>
        AllUnmixed(cfg, s, es[..k], n) && (Commits(sys, es[k], n) ==> Unmixed(cfg, sys.txs[es[k].t]))
  {
    hide Interleaved, Unmixed, Commits;
    var k := |es| - 1;
    assert forall i: nat | i < k :: es[..k][..i] == es[..i] && es[..k][i] == es[i];
  }

  /** Note n is in proper form, and so are its snapshots. */
  ghost predicate NoteFits(s: Store, n: NoteId) {
    n in s.notes && LayersFit(s.notes[n]) && forall v | v in VersionsOf(s.versions, n) :: v.content.Text?
  }

  /** So is every row that a running request about n has loaded. */
  ghost predicate Sound(sys: System, n: NoteId) {
    NoteFits(sys.store, n) && forall t | t in sys.txs && sys.txs[t].note == n :: LayersFit(sys.txs[t].seen)
  }

  lemma ReadVersionIsText(cfg: Config, sys: System, t: nat)
    requires Safe(cfg, sys) && t in sys.txs && NoteFits(sys.store, sys.txs[t].note)
    ensures sys.txs[t].version.Some? ==> sys.txs[t].version.value.content.Text?
  {
    hide VersionsOf, Plaintext, Assigned, Patch, LayersFit;
    assert TxOk(cfg, sys.store, sys.txs[t]);
    var tx := sys.txs[t];
    if tx.version.Some? {
      assert VersionsOf(sys.store.versions, tx.note)[tx.req.op.number - 1] in VersionsOf(sys.store.versions, tx.note);
    }
  }

  /** A commit keeps the note in proper form exactly when it is unmixed. */
  lemma CommitFitsIff(cfg: Config, sys: System, t: nat, n: NoteId)
    requires Safe(cfg, sys) && Sound(sys, n) && Commits(sys, Commit(t), n)
    ensures Sound(Next(cfg, sys, Commit(t)), n) <==> Unmixed(cfg, sys.txs[t])
    ensures LayersFit(sys.txs[t].phase.written) <==> Unmixed(cfg, sys.txs[t])
  {
    hide VersionsOf, Assigned, Patch, Layers, LayersFit, SpoilsMerge, Plaintext;
    var tx := sys.txs[t];
    assert TxOk(cfg, sys.store, tx);
    ReadVersionIsText(cfg, sys, t);
    MergeFitsIff(cfg, tx.seen, tx.req, tx.version, tx.phase.reread, tx.req.env.now);
    FitsIffReadable(tx.seen);
    CommitKeeps(cfg, sys, Commit(t), n);
  }

  /** With one configured key, a commit leaves privacy, key version and content agreeing exactly when it is unmixed. */
  lemma CommitKeepsOneLayerIff(cfg: Config, sys: System, t: nat, n: NoteId)
    requires Safe(cfg, sys) && NoteFits(sys.store, n) && Commits(sys, Commit(t), n)
    requires WrittenUnder(cfg, sys.txs[t].seen) && WrittenUnder(cfg, sys.store.notes[n])
    ensures n in Next(cfg, sys, Commit(t)).store.notes
    ensures OneLayer(Next(cfg, sys, Commit(t)).store.notes[n]) <==> Unmixed(cfg, sys.txs[t])
  {
    hide VersionsOf, Assigned, Patch, OneLayer, SpoilsMerge, Plaintext, WrittenUnder;
    var tx := sys.txs[t];
    assert TxOk(cfg, sys.store, tx);
    ReadVersionIsText(cfg, sys, t);
    MergeIsOneLayerIff(cfg, tx.seen, tx.req, tx.version, tx.phase.reread, tx.req.env.now);
    CommitKeeps(cfg, sys, Commit(t), n);
  }

  lemma OthersStaySound(cfg: Config, sys: System, e: Event, n: NoteId)
    requires Safe(cfg, sys) && Sound(sys, n) && !Commits(sys, e, n)
    ensures Sound(Next(cfg, sys, e), n)
  {
    hide VersionsOf, Assigned, Patch, Layers, LayersFit, Plaintext, Find;
    OthersKeepNote(cfg, sys, e, n);
  }

  ghost predicate FitsAfter(cfg: Config, s: Store, es: seq<Event>, n: NoteId) {
    NoteFits(Interleaved(cfg, s, es).store, n)
  }

  /** The run keeps the note in proper form from beginning to end. */
  ghost predicate AlwaysFits(cfg: Config, s: Store, es: seq<Event>, n: NoteId) {
    forall i: nat | i <= |es| :: FitsAfter(cfg, s, es[..i], n)
  }

  lemma AlwaysFitsStep(cfg: Config, s: Store, es: seq<Event>, n: NoteId)
    requires es != []
    ensures AlwaysFits(cfg, s, es, n) <==>
      AlwaysFits(cfg, s, es[..|es| - 1], n) && FitsAfter(cfg, s, es, n)
  {
    hide FitsAfter;
    var k := |es| - 1;
    assert forall i: nat | i <= k :: es[..k][..i] == es[..i];
    assert es[..|es|] == es;
  }

  /** The two together, with the strengthening that carries the induction. */
  lemma {:induction false} FitsIffUnmixed(cfg: Config, s: Store, es: seq<Event>, n: NoteId)
    requires GapFree(s) && NoteFits(s, n)
    ensures AlwaysFits(cfg, s, es, n) <==> AllUnmixed(cfg, s, es, n)
    ensures AllUnmixed(cfg, s, es, n) ==> Sound(Interleaved(cfg, s, es), n)
  {
    hide NoteFits, Next, Commits, Unmixed;
    if es != [] {
      var init, last := es[..|es| - 1], es[|es| - 1];
      var sys := Interleaved(cfg, s, init);
      FitsIffUnmixed(cfg, s, init, n);
      InterleavedIsSafe(cfg, s, init);
      AllUnmixedStep(cfg, s, es, n);
      AlwaysFitsStep(cfg, s, es, n);
      if AllUnmixed(cfg, s, init, n) {
        StepFitsIff(cfg, sys, last, n);
      }
    } else {
      assert es[..0] == [];
    }
  }

  lemma StepFitsIff(cfg: Config, sys: System, e: Event, n: NoteId)
    requires Safe(cfg, sys) && Sound(sys, n)
    ensures NoteFits(Next(cfg, sys, e).store, n) <==> (Commits(sys, e, n) ==> Unmixed(cfg, sys.txs[e.t]))
    ensures NoteFits(Next(cfg, sys, e).store, n) ==> Sound(Next(cfg, sys, e), n)
  {
    hide VersionsOf, Layers, LayersFit, Unmixed, Safe;
    if Commits(sys, e, n) {
      CommitFitsIff(cfg, sys, e.t, n);
      CommitKeeps(cfg, sys, e, n);
    } else {
      OthersStaySound(cfg, sys, e, n);
    }
  }

  /** Exactly the interleavings whose commits about n are all unmixed keep n, from beginning to end, with one layer if
      private and none if public, and with readable snapshots. */
  lemma InterleavingKeepsLayersIff(cfg: Config, s: Store, es: seq<Event>, n: NoteId)
    requires GapFree(s) && NoteFits(s, n)
    ensures AlwaysFits(cfg, s, es, n) <==> AllUnmixed(cfg, s, es, n)
  {
    FitsIffUnmixed(cfg, s, es, n);
  }

  // States: when the history is that of the requests in their order of commit.

  /** The states of n told from the committed requests alone, in their order of commit, as in a serial run. */
  function Told(cfg: Config, s: Store, es: seq<Event>, n: NoteId): seq<Moment> {
    if es == [] then Recorded(s, n)
    else
      var init, last := es[..|es| - 1], es[|es| - 1];
      var sys := Interleaved(cfg, s, init);
      var past := Told(cfg, s, init, n);
      if Commits(sys, last, n) then Extended(past, n, sys.txs[last.t].req) else past
  }

  /** At every point of the run the versions of n followed by its current state are the states told. */
  ghost predicate AlwaysTold(cfg: Config, s: Store, es: seq<Event>, n: NoteId) {
    forall i: nat | i <= |es| :: Recorded(Interleaved(cfg, s, es[..i]).store, n) == Told(cfg, s, es[..i], n)
  }

  lemma AlwaysToldStep(cfg: Config, s: Store, es: seq<Event>, n: NoteId)
    requires es != []
    ensures AlwaysTold(cfg, s, es, n) <==>
      AlwaysTold(cfg, s, es[..|es| - 1], n) && Recorded(Interleaved(cfg, s, es).store, n) == Told(cfg, s, es, n)
  {
    hide Interleaved, Recorded, Told;
    var k := |es| - 1;
    assert forall i: nat | i <= k :: es[..k][..i] == es[..i];
    assert es[..|es|] == es;
  }

  lemma Readable(s: Store, n: NoteId)
    requires n in s.notes && LayersFit(s.notes[n])
    ensures Plaintext(s.notes[n]).Some?
    ensures Recorded(s, n) == Moments(VersionsOf(s.versions, n)) + [Current(s.notes[n])]
  {
    FitsIffReadable(s.notes[n]);
  }

  lemma MomentsOf(vs: seq<VersionRow>, k: int)
    ensures |Moments(vs)| == |vs|
    ensures 1 <= k <= |vs| ==> Moments(vs)[k - 1] == Moment(vs[k - 1].title, vs[k - 1].content)
  {
  }

  /** The next state told, from the last one, is what the request was asked to make of the note. */
  lemma ToldIsIntended(cfg: Config, sys: System, t: nat, n: NoteId)
    requires Safe(cfg, sys) && Sound(sys, n) && Commits(sys, Commit(t), n)
    ensures var tx := sys.txs[t];
      && Plaintext(tx.phase.reread).Some?
      && Recorded(sys.store, n) == Moments(VersionsOf(sys.store.versions, n)) + [Current(tx.phase.reread)]
      && Extended(Recorded(sys.store, n), n, tx.req) ==
         Recorded(sys.store, n) + [Intended(Current(tx.phase.reread), tx.req.op, tx.version)]
  {
    hide VersionsOf, Plaintext, Patch, Layers, LayersFit, Moments, Recorded;
    var tx := sys.txs[t];
    assert TxOk(cfg, sys.store, tx);
    Readable(sys.store, n);
    MomentsOf(VersionsOf(sys.store.versions, n), if tx.req.op.RestoreVersion? then tx.req.op.number else 0);
  }

  /** The record after a commit: its snapshot and its row, if that is readable. */
  lemma RecordedAfter(cfg: Config, sys: System, t: nat, n: NoteId)
    requires Safe(cfg, sys) && Commits(sys, Commit(t), n)
    ensures var tx, s' := sys.txs[t], Next(cfg, sys, Commit(t)).store;
      Recorded(s', n) ==
        if Plaintext(tx.phase.written).None? then []
        else Moments(VersionsOf(sys.store.versions, n)) + [Moment(tx.phase.saved.title, tx.phase.saved.content)]
             + [Current(tx.phase.written)]
  {
    hide VersionsOf, Plaintext, Assigned, Patch, Moments;
    CommitKeeps(cfg, sys, Commit(t), n);
    MomentsAppend(VersionsOf(sys.store.versions, n), sys.txs[t].phase.saved);
  }

  lemma TwoEndsAgreeIff<T>(ms: seq<T>, m: T, w: T, c: T, x: T)
    ensures ms + [m] + [w] == ms + [c] + [x] <==> m == c && w == x
  {
    var a, b := ms + [m] + [w], ms + [c] + [x];
    assert a[|ms|] == m && a[|ms| + 1] == w && b[|ms|] == c && b[|ms| + 1] == x;
  }

  /** A commit after which the record is still the one told is exactly one that read the same and is unmixed. */
  lemma CommitFollowsIff(cfg: Config, sys: System, t: nat, n: NoteId)
    requires Safe(cfg, sys) && Sound(sys, n) && Commits(sys, Commit(t), n)
    ensures var tx := sys.txs[t];
      Recorded(Next(cfg, sys, Commit(t)).store, n) == Extended(Recorded(sys.store, n), n, tx.req) <==>
      ReadTheSame(tx) && Unmixed(cfg, tx)
  {
    hide VersionsOf, Patch, Layers, LayersFit, Moments, Recorded, Extended, Next, Assigned, Intended, SpoilsMerge;
    var tx := sys.txs[t];
    assert TxOk(cfg, sys.store, tx);
    ReadVersionIsText(cfg, sys, t);
    ToldIsIntended(cfg, sys, t, n);
    RecordedAfter(cfg, sys, t, n);
    CommitFitsIff(cfg, sys, t, n);
    WrittenIsIntendedIff(cfg, sys, t, n);
    var ms := Moments(VersionsOf(sys.store.versions, n));
    if Plaintext(tx.phase.written).Some? {
      TwoEndsAgreeIff(ms, Moment(tx.phase.saved.title, tx.phase.saved.content), Current(tx.phase.written),
                      Current(tx.phase.reread), Intended(Current(tx.phase.reread), tx.req.op, tx.version));
    }
  }

  /** Over a row that reads the same, the written row is the intended state exactly when the commit is unmixed. */
  lemma WrittenIsIntendedIff(cfg: Config, sys: System, t: nat, n: NoteId)
    requires Safe(cfg, sys) && Sound(sys, n) && Commits(sys, Commit(t), n)
    ensures var tx := sys.txs[t];
      && Plaintext(tx.phase.reread).Some?
      && (ReadTheSame(tx) ==>
          (Plaintext(tx.phase.written) == Some(Intended(Current(tx.phase.reread), tx.req.op, tx.version).text)
           && tx.phase.written.title == Intended(Current(tx.phase.reread), tx.req.op, tx.version).title
           <==> Unmixed(cfg, tx)))
  {
    hide VersionsOf, Patch, Layers, LayersFit, Assigned, Intended, SpoilsMerge, Next;
    var tx := sys.txs[t];
    assert TxOk(cfg, sys.store, tx);
    ReadVersionIsText(cfg, sys, t);
    CommitFitsIff(cfg, sys, t, n);
    FitsIffReadable(tx.phase.reread);
    FitsIffReadable(tx.phase.written);
    IntendedIsText(tx.phase.reread, tx.req.op, tx.version);
    if ReadTheSame(tx) && Unmixed(cfg, tx) {
      MergeIsIntended(cfg, tx.seen, tx.req, tx.version, tx.phase.reread, tx.req.env.now);
    }
  }

  /** At every point of a run the record of n is what its requests tell in their order of commit, exactly when every
      committed request about n read the same title and plaintext at both of its reads and is unmixed. */
  lemma {:induction false} HistoryFollowsCommitsIff(cfg: Config, s: Store, es: seq<Event>, n: NoteId)
    requires GapFree(s) && NoteFits(s, n)
    ensures AlwaysTold(cfg, s, es, n) <==> AllReadTheSame(cfg, s, es, n) && AllUnmixed(cfg, s, es, n)
  {
    hide NoteFits, Next, Commits, Unmixed, ReadTheSame, Recorded, Extended, Sound, Safe, AllUnmixed, AllReadTheSame;
    if es != [] {
      var init := es[..|es| - 1];
      HistoryFollowsCommitsIff(cfg, s, init, n);
      InterleavedIsSafe(cfg, s, init);
      AllUnmixedStep(cfg, s, es, n);
      AllReadTheSameStep(cfg, s, es, n);
      AlwaysToldStep(cfg, s, es, n);
      if AlwaysTold(cfg, s, init, n) {
        FitsIffUnmixed(cfg, s, init, n);
        assert init[..|init|] == init;
        StepFollowsIff(cfg, s, es, n);
      }
    } else {
      NothingYet(cfg, s, n);
    }
  }

  lemma NothingYet(cfg: Config, s: Store, n: NoteId)
    ensures AlwaysTold(cfg, s, [], n) && AllReadTheSame(cfg, s, [], n) && AllUnmixed(cfg, s, [], n)
  {
  }

  lemma StepFollowsIff(cfg: Config, s: Store, es: seq<Event>, n: NoteId)
    requires es != [] && Safe(cfg, Interleaved(cfg, s, es[..|es| - 1])) && Sound(Interleaved(cfg, s, es[..|es| - 1]), n)
    requires Recorded(Interleaved(cfg, s, es[..|es| - 1]).store, n) == Told(cfg, s, es[..|es| - 1], n)
    ensures var last, sys := es[|es| - 1], Interleaved(cfg, s, es[..|es| - 1]);
      Recorded(Interleaved(cfg, s, es).store, n) == Told(cfg, s, es, n) <==>
      (Commits(sys, last, n) ==> ReadTheSame(sys.txs[last.t]) && Unmixed(cfg, sys.txs[last.t]))
  {
    hide Next, Unmixed, ReadTheSame, Extended, Safe, VersionsOf, LayersFit, Moments;
    var last, sys := es[|es| - 1], Interleaved(cfg, s, es[..|es| - 1]);
    if Commits(sys, last, n) {
      CommitFollowsIff(cfg, sys, last.t, n);
    } else {
      OthersKeepNote(cfg, sys, last, n);
    }
  }
}
