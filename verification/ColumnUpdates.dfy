/** The UPDATE that a flush sends names the changed columns only, so over another request's row it merges. */
module ColumnUpdates {
  import opened Wrappers
  import opened Security
  import opened Models
  import opened NoteRules
  import opened Invariants
  import opened Representation

  /** The requests that write title, content, privacy or key version. */
  predicate IsRewrite(op: Op) {
    op.UpdateNote? || op.RestoreVersion?
  }

  /** The loaded object after the assignments of the request; None when decryption raises. */
  function Assigned(cfg: Config, seen: NoteRow, req: Request, version: Option<VersionRow>): Option<NoteRow> {
    match req.op
    case UpdateNote(_, data) => EditRow(cfg, seen, data, req.env.nonce)
    case RestoreVersion(_, _) =>
      if version.None? then None else Some(RestoreRow(cfg, seen, version.value, req.env.nonce))
    case _ => None
  }

  /** What the UPDATE of an object loaded as `seen` and now `edited` makes of the committed row. */
  function Patch(seen: NoteRow, edited: NoteRow, row: NoteRow, now: Time): NoteRow {
    if edited == seen then row
    else
      row.(title := if edited.title != seen.title then edited.title else row.title,
           content := if edited.content != seen.content then edited.content else row.content,
           isPrivate := if edited.isPrivate != seen.isPrivate then edited.isPrivate else row.isPrivate,
           keyVersion := if edited.keyVersion != seen.keyVersion then edited.keyVersion else row.keyVersion,
           updatedAt := now)
  }

  /** Over the row it was loaded from, the UPDATE stores the object. */
  lemma PatchOfOwnRow(cfg: Config, seen: NoteRow, req: Request, version: Option<VersionRow>, now: Time)
    requires Assigned(cfg, seen, req, version).Some?
    ensures var edited := Assigned(cfg, seen, req, version).value;
      Patch(seen, edited, seen, now) == Stamp(seen, edited, now)
  {
  }

  /** Title and plaintext are those of the other row. */
  predicate ReadsAs(a: NoteRow, b: NoteRow) {
    a.title == b.title && Plaintext(a) == Plaintext(b)
  }

  /** The request itself changes the privacy of the row it loaded. */
  predicate Flips(seen: NoteRow, op: Op) {
    op.UpdateNote? && op.data.isPrivate.Some? && op.data.isPrivate.value != seen.isPrivate
  }

  /** The UPDATE leaves content and privacy from different requests: the committed row has another privacy than the one
      loaded, content is written and privacy is not. For a request that does write privacy, what is left is the
      publication under an empty key version, which spoils the row unless it writes no content and the row was
      published already. */
  predicate SpoilsMerge(cfg: Config, seen: NoteRow, op: Op, edited: NoteRow, committed: NoteRow) {
    if Flips(seen, op) then Spoils(cfg, seen, op.data) && (edited.content != seen.content || committed.isPrivate)
    else committed.isPrivate != seen.isPrivate && edited.content != seen.content
  }

  /** The object itself is in proper form unless the edit spoils it. */
  lemma AssignedFits(cfg: Config, seen: NoteRow, req: Request, version: Option<VersionRow>)
    requires LayersFit(seen) && Assigned(cfg, seen, req, version).Some?
      && (version.Some? ==> version.value.content.Text?)
    ensures var edited := Assigned(cfg, seen, req, version).value;
      && (LayersFit(edited) <==> !(Flips(seen, req.op) && Spoils(cfg, seen, req.op.data)))
      && (edited.isPrivate != seen.isPrivate <==> Flips(seen, req.op))
      && (Flips(seen, req.op) && !Spoils(cfg, seen, req.op.data) ==> edited.content != seen.content)
      && (Flips(seen, req.op) && Spoils(cfg, seen, req.op.data) ==> edited.content.Cipher?)
  {
    FitsIffReadable(seen);
    FitsIffReadable(Assigned(cfg, seen, req, version).value);
  }

  /** Exactly when the merged row has one layer if private and none if public. */
  lemma MergeFitsIff(cfg: Config, seen: NoteRow, req: Request, version: Option<VersionRow>, committed: NoteRow,
                     now: Time)
    requires LayersFit(seen) && LayersFit(committed)
    requires Assigned(cfg, seen, req, version).Some? && (version.Some? ==> version.value.content.Text?)
    ensures var edited := Assigned(cfg, seen, req, version).value;
      LayersFit(Patch(seen, edited, committed, now)) <==> !SpoilsMerge(cfg, seen, req.op, edited, committed)
  {
    hide Assigned, Spoils, Flips;
    var edited := Assigned(cfg, seen, req, version).value;
    AssignedFits(cfg, seen, req, version);
    FitsIffReadable(seen);
    FitsIffReadable(edited);
    FitsIffReadable(committed);
    FitsIffReadable(Patch(seen, edited, committed, now));
  }

  /** The same for the whole representation, when both rows were written under the one configured key version. */
  lemma MergeIsOneLayerIff(cfg: Config, seen: NoteRow, req: Request, version: Option<VersionRow>, committed: NoteRow,
                           now: Time)
    requires WrittenUnder(cfg, seen) && WrittenUnder(cfg, committed)
    requires Assigned(cfg, seen, req, version).Some? && (version.Some? ==> version.value.content.Text?)
    ensures var edited := Assigned(cfg, seen, req, version).value;
      && (OneLayer(Patch(seen, edited, committed, now)) <==> !SpoilsMerge(cfg, seen, req.op, edited, committed))
      && (WrittenUnder(cfg, Patch(seen, edited, committed, now)) <==> !SpoilsMerge(cfg, seen, req.op, edited,
        committed))
  {
    hide Layers, Spoils;
    MergeFitsIff(cfg, seen, req, version, committed, now);
    MergedKey(cfg, seen, req, version, committed, now);
  }

  lemma MergedKey(cfg: Config, seen: NoteRow, req: Request, version: Option<VersionRow>, committed: NoteRow, now: Time)
    requires WrittenUnder(cfg, seen) && WrittenUnder(cfg, committed) && Assigned(cfg, seen, req, version).Some?
    ensures var row := Patch(seen, Assigned(cfg, seen, req, version).value, committed, now);
      KeyOk(row) && (row.isPrivate ==> row.keyVersion == Some(cfg.keyVersion))
  {
  }

  /** The state a request makes of a note, told without rows: an edit overrides it, a restore replaces it. */
  function Intended(m: Moment, op: Op, version: Option<VersionRow>): Moment {
    if op.UpdateNote? then Edited(m, op.data)
    else if version.Some? then Moment(version.value.title, version.value.content)
    else m
  }

  /** The object's title is the intended one, and so is its text unless the edit spoils it; an object whose content is
      unchanged was not asked for another text. */
  lemma AssignedIsIntended(cfg: Config, seen: NoteRow, req: Request, version: Option<VersionRow>)
    requires LayersFit(seen) && Assigned(cfg, seen, req, version).Some?
      && (version.Some? ==> version.value.content.Text?)
    ensures Plaintext(seen).Some?
    ensures var edited, m := Assigned(cfg, seen, req, version).value, Intended(Current(seen), req.op, version);
      && edited.title == m.title
      && (!(Flips(seen, req.op) && Spoils(cfg, seen, req.op.data)) ==> Plaintext(edited) == Some(m.text))
      && (edited.content == seen.content ==> Plaintext(seen) == Some(m.text))
  {
    FitsIffReadable(seen);
  }

  /** An unspoilt merge over a row that reads as the one loaded gives the state the request was asked for. */
  lemma MergeIsIntended(cfg: Config, seen: NoteRow, req: Request, version: Option<VersionRow>, committed: NoteRow,
                        now: Time)
    requires LayersFit(seen) && LayersFit(committed) && ReadsAs(seen, committed)
    requires Assigned(cfg, seen, req, version).Some? && (version.Some? ==> version.value.content.Text?)
    requires !SpoilsMerge(cfg, seen, req.op, Assigned(cfg, seen, req, version).value, committed)
    ensures var row := Patch(seen, Assigned(cfg, seen, req, version).value, committed, now);
      && Plaintext(row).Some? && Plaintext(committed).Some?
      && Current(row) == Intended(Current(committed), req.op, version)
  {
    hide Assigned, Spoils, Flips, Layers, LayersFit, Intended;
    FitsIffReadable(seen);
    FitsIffReadable(committed);
    AssignedFits(cfg, seen, req, version);
    AssignedIsIntended(cfg, seen, req, version);
    assert Current(seen) == Current(committed);
  }

  lemma IntendedIsText(committed: NoteRow, op: Op, version: Option<VersionRow>)
    requires LayersFit(committed) && (version.Some? ==> version.value.content.Text?)
    ensures Plaintext(committed).Some? && Intended(Current(committed), op, version).text.Text?
  {
    FitsIffReadable(committed);
  }
}
