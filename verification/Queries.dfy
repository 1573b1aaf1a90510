/** The query expressions of app/repositories/note_repository.py over the tables. */
module Queries {
  import opened Wrappers
  import opened Security
  import opened Models

  /** `scalar_one_or_none`: no row, the row, or MultipleResultsFound. */
  datatype Lookup<+T> = Absent | Unique(row: T) | Ambiguous

  function Find<T>(xs: seq<T>, p: T -> bool): (r: Lookup<T>)
    ensures r.Absent? <==> forall i | 0 <= i < |xs| :: !p(xs[i])
    ensures r.Unique? ==> exists i ::
      0 <= i < |xs| && p(xs[i]) && r.row == xs[i] && forall j | 0 <= j < |xs| && p(xs[j]) :: j == i
    ensures r.Ambiguous? ==> exists i, j :: 0 <= i < j < |xs| && p(xs[i]) && p(xs[j])
  {
    if xs == [] then Absent
    else
      var init, last := xs[..|xs| - 1], xs[|xs| - 1];
      var r := Find(init, p);
      if !p(last) then
        assert forall i | 0 <= i < |init| :: init[i] == xs[i];
        r
      else if r.Absent? then
        assert forall i | 0 <= i < |init| :: init[i] == xs[i];
        Unique(last)
      else
        assert exists i :: 0 <= i < |init| && p(init[i]);
        assert forall i | 0 <= i < |init| :: init[i] == xs[i];
        assert p(xs[|xs| - 1]);
        Ambiguous
  }

  /** A row that is alone in meeting the condition is what the lookup returns. */
  lemma FindAt<T>(xs: seq<T>, p: T -> bool, i: nat)
    requires i < |xs| && p(xs[i])
    requires forall j | 0 <= j < |xs| && p(xs[j]) :: j == i
    ensures Find(xs, p) == Unique(xs[i])
  {
    var r := Find(xs, p);
    assert !r.Absent?;
    assert !r.Ambiguous?;
  }

  lemma FindAppend<T>(xs: seq<T>, x: T, p: T -> bool)
    ensures Find(xs + [x], p) ==
      if !p(x) then Find(xs, p) else if Find(xs, p).Absent? then Unique(x) else Ambiguous
  {
    assert (xs + [x])[..|xs|] == xs;
  }

  lemma FindSameIndices<T>(xs: seq<T>, ys: seq<T>, p: T -> bool)
    requires |xs| == |ys| && forall i | 0 <= i < |xs| :: p(xs[i]) <==> p(ys[i])
    requires forall i, j | 0 <= i < j < |xs| :: !(p(xs[i]) && p(xs[j]))
    ensures forall i | 0 <= i < |xs| && p(xs[i]) :: Find(xs, p) == Unique(xs[i]) && Find(ys, p) == Unique(ys[i])
    ensures (forall i | 0 <= i < |xs| :: !p(xs[i])) ==> Find(xs, p) == Find(ys, p) == Absent
  {
    forall i | 0 <= i < |xs| && p(xs[i])
      ensures Find(xs, p) == Unique(xs[i]) && Find(ys, p) == Unique(ys[i])
    {
      forall j | 0 <= j < |xs| && (p(xs[j]) || p(ys[j]))
        ensures j == i
      {
        assert p(xs[j]);
      }
      FindAt(xs, p, i);
      FindAt(ys, p, i);
    }
  }

  function ShareOf(n: NoteId, u: UserId): ShareRow -> bool {
    (s: ShareRow) => s.noteId == n && s.withId == u
  }

  function LinkWith(h: Digest<RawToken>): LinkRow -> bool {
    (l: LinkRow) => l.tokenHash == h
  }

  function WithNumber(k: int): VersionRow -> bool {
    (v: VersionRow) => v.number == k
  }

  function GetShare(s: Store, n: NoteId, u: UserId): Lookup<ShareRow> {
    Find(s.shares, ShareOf(n, u))
  }

  function GetLink(s: Store, h: Digest<RawToken>): Lookup<LinkRow> {
    Find(s.links, LinkWith(h))
  }

  /** The versions of one note, in the order they were inserted. */
  function VersionsOf(vs: seq<VersionRow>, n: NoteId): (r: seq<VersionRow>)
    ensures forall v :: v in r <==> v in vs && v.noteId == n
  {
    if vs == [] then []
    else
      var init, last := vs[..|vs| - 1], vs[|vs| - 1];
      assert vs == init + [last];
      if last.noteId == n then VersionsOf(init, n) + [last] else VersionsOf(init, n)
  }

  function GetVersion(s: Store, n: NoteId, k: int): Lookup<VersionRow> {
    Find(VersionsOf(s.versions, n), WithNumber(k))
  }

  /** `coalesce(max(version_number), 0)`. */
  function MaxNumber(vs: seq<VersionRow>): (m: nat)
    ensures forall v | v in vs :: v.number <= m
    ensures m == 0 || exists v :: v in vs && v.number == m
  {
    if vs == [] then 0
    else
      var rest := MaxNumber(vs[1..]);
      assert vs == [vs[0]] + vs[1..];
      if vs[0].number > rest then vs[0].number else rest
  }

  function NextVersionNumber(s: Store, n: NoteId): nat {
    MaxNumber(VersionsOf(s.versions, n)) + 1
  }

  /** `count_pinned` selects these rows. */
  function PinnedNotes(s: Store, owner: UserId): set<NoteId> {
    set n | n in s.notes && s.notes[n].ownerId == owner && s.notes[n].isPinned && !s.notes[n].IsDeleted()
  }

  /** The WHERE clause of the owned-notes list; `search` holds the rows the full-text condition selects. */
  function OwnedNotes(s: Store, owner: UserId, search: Option<set<NoteId>>): set<NoteId> {
    set n | n in s.notes && s.notes[n].ownerId == owner && !s.notes[n].IsDeleted()
            && (search.Some? ==> n in search.value)
  }

  /** The join of notes with shares, one result per share row. */
  function SharedJoin(shares: seq<ShareRow>, notes: map<NoteId, NoteRow>, u: UserId): (r: seq<NoteId>)
    ensures forall n :: n in r <==>
      exists i :: 0 <= i < |shares| && shares[i].noteId == n && shares[i].withId == u
                  && n in notes && !notes[n].IsDeleted()
  {
    if shares == [] then []
    else
      var init, last := shares[..|shares| - 1], shares[|shares| - 1];
      var rest := SharedJoin(init, notes, u);
      assert forall i | 0 <= i < |init| :: init[i] == shares[i];
      if last.withId == u && last.noteId in notes && !notes[last.noteId].IsDeleted()
      then rest + [last.noteId] else rest
  }

  /** DELETE of the share rows of one pair. */
  function WithoutShare(shares: seq<ShareRow>, n: NoteId, u: UserId): (r: seq<ShareRow>)
    ensures forall x :: x in r <==> x in shares && !ShareOf(n, u)(x)
  {
    if shares == [] then []
    else
      var init, last := shares[..|shares| - 1], shares[|shares| - 1];
      assert shares == init + [last];
      if ShareOf(n, u)(last) then WithoutShare(init, n, u) else WithoutShare(init, n, u) + [last]
  }

  /** UPDATE of the share rows with the key of `row`. */
  function PutShare(shares: seq<ShareRow>, row: ShareRow): seq<ShareRow> {
    seq(|shares|, i requires 0 <= i < |shares| =>
      if ShareOf(row.noteId, row.withId)(shares[i]) then row else shares[i])
  }

  /** UPDATE of the link rows with the key of `row`. */
  function PutLink(links: seq<LinkRow>, row: LinkRow): seq<LinkRow> {
    seq(|links|, i requires 0 <= i < |links| =>
      if links[i].tokenHash == row.tokenHash then row else links[i])
  }

  /** The links of one note, in the order they were inserted. */
  function LinksTo(links: seq<LinkRow>, n: NoteId): (r: seq<LinkRow>)
    ensures forall l :: l in r <==> l in links && l.noteId == n
  {
    if links == [] then []
    else
      var init, last := links[..|links| - 1], links[|links| - 1];
      assert links == init + [last];
      if last.noteId == n then LinksTo(init, n) + [last] else LinksTo(init, n)
  }

  /** `sum(access_count)` over the links of one note. */
  function AccessTotal(links: seq<LinkRow>, n: NoteId): nat {
    if links == [] then 0
    else
      var init, last := links[..|links| - 1], links[|links| - 1];
      AccessTotal(init, n) + if last.noteId == n then last.accessCount else 0
  }
}
