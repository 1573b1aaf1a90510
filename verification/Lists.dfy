/** The two list requests as a client sees them: pages answered by the service, put back together. */
module Lists {
  import opened Wrappers
  import opened Models
  import opened Queries
  import opened Division
  import opened Pagination
  import opened Listing
  import opened NoteRules
  import opened Invariants
  import opened Sharing

  /** The response envelope of one page. */
  function EnvelopeOf(o: Outcome, page: PageParams): Envelope<(NoteId, NoteRow)>
    requires o.Done? && o.reply.NotesReply?
  {
    Create(o.reply.notes, o.reply.total, page)
  }

  datatype ListKind = Own(search: Option<set<NoteId>>) | SharedWithUser

  function ListOp(kind: ListKind, page: PageParams): Op {
    match kind
    case Own(search) => ListNotes(page, search)
    case SharedWithUser => ListShared(page)
  }

  /** What the service answers a client that asks for page k. */
  function Asked(cfg: Config, s: Store, u: UserId, kind: ListKind, env: Env, size: int, k: int): Outcome
    requires 1 <= size <= 100 && k >= 1
  {
    Apply(cfg, s, Request(u, ListOp(kind, PageRequest(k, size)), env))
  }

  function NotesIn(o: Outcome): seq<(NoteId, NoteRow)> {
    if o.Done? && o.reply.NotesReply? then o.reply.notes else []
  }

  /** What a client gathers from the answers to pages 1 to k. */
  function Walk(cfg: Config, s: Store, u: UserId, kind: ListKind, env: Env, size: int, k: nat): seq<(NoteId, NoteRow)>
    requires 1 <= size <= 100
  {
    if k == 0 then []
    else Walk(cfg, s, u, kind, env, size, k - 1) + NotesIn(Asked(cfg, s, u, kind, env, size, k))
  }

  /** The answers are the pages of the list xs. */
  ghost predicate Pages(cfg: Config, s: Store, u: UserId, kind: ListKind, env: Env, size: int, xs: seq<NoteId>)
    requires Known(s.notes, xs) && 1 <= size <= 100
  {
    forall k: int | k >= 1 ::
      Asked(cfg, s, u, kind, env, size, k) == PageAnswer(s, xs, |xs|, PageRequest(k, size))
  }

  lemma ViewsOfParts(s: Store, a: seq<NoteId>, b: seq<NoteId>)
    requires Known(s.notes, a) && Known(s.notes, b)
    ensures Known(s.notes, a + b) && Views(s, a + b) == Views(s, a) + Views(s, b)
  {
  }

  lemma PageItems(s: Store, xs: seq<NoteId>, total: nat, size: int, k: int)
    requires Known(s.notes, xs) && 1 <= size <= 100 && k >= 1
    ensures Known(s.notes, PageOf(xs, k, size).items)
    ensures NotesIn(PageAnswer(s, xs, total, PageRequest(k, size))) == Views(s, PageOf(xs, k, size).items)
  {
    hide TrueDivide, Ceil;
  }

  lemma {:induction false} WalkIsFirstPages(cfg: Config, s: Store, u: UserId, kind: ListKind, env: Env, size: int,
                                            xs: seq<NoteId>, k: nat)
    requires Known(s.notes, xs) && 1 <= size <= 100 && Pages(cfg, s, u, kind, env, size, xs)
    ensures Known(s.notes, FirstPages(xs, size, k))
    ensures Walk(cfg, s, u, kind, env, size, k) == Views(s, FirstPages(xs, size, k))
  {
    hide PageAnswer, NotesIn, PageOf, Views, Known, Asked;
    if k > 0 {
      WalkIsFirstPages(cfg, s, u, kind, env, size, xs, k - 1);
      PageItems(s, xs, |xs|, size, k);
      ViewsOfParts(s, FirstPages(xs, size, k - 1), PageOf(xs, k, size).items);
    } else {
      ViewsOfNothing(s);
    }
  }

  lemma ViewsOfNothing(s: Store)
    ensures Known(s.notes, []) && Views(s, []) == []
  {
  }

  /** The envelope of whichever page: as many pages as hold the whole list, and `has_next` exactly while a later page
      answers something. */
  lemma WalkIsWholeList(cfg: Config, s: Store, u: UserId, kind: ListKind, env: Env, size: int, xs: seq<NoteId>,
                        page: int)
    requires Known(s.notes, xs) && 1 <= size <= 100 && page >= 1 && |xs| <= P53
    requires Pages(cfg, s, u, kind, env, size, xs)
    ensures var o := Asked(cfg, s, u, kind, env, size, page);
      && o.Done? && o.store == s && o.reply.NotesReply? && o.reply.total == |xs|
      && var e := EnvelopeOf(o, PageRequest(page, size));
        && e.totalPages >= 1 && Walk(cfg, s, u, kind, env, size, e.totalPages) == Views(s, xs)
        && (e.hasNext <==> exists q :: q > page && NotesIn(Asked(cfg, s, u, kind, env, size, q)) != [])
        && (e.hasPrev <==> page > 1)
  {
    hide TrueDivide, Ceil, FirstPages, Walk, Views, Window, Known, Asked;
    var o := Asked(cfg, s, u, kind, env, size, page);
    assert o == PageAnswer(s, xs, |xs|, PageRequest(page, size));
    PagesPartition(xs, page, size);
    WalkIsFirstPages(cfg, s, u, kind, env, size, xs, PageOf(xs, page, size).totalPages);
    HasNextIff(xs, page, size);
    forall q | q > page
      ensures NotesIn(Asked(cfg, s, u, kind, env, size, q)) != [] <==> PageOf(xs, q, size).items != []
    {
      PageItems(s, xs, |xs|, size, q);
      ViewsLength(s, PageOf(xs, q, size).items);
    }
  }

  lemma ViewsLength(s: Store, xs: seq<NoteId>)
    requires Known(s.notes, xs)
    ensures |Views(s, xs)| == |xs|
  {
  }

  /** The gathered answers are the wanted notes, each once and as the client reads it. */
  ghost predicate Gathers(s: Store, walk: seq<(NoteId, NoteRow)>, wanted: set<NoteId>) {
    && |walk| == |wanted|
    && (forall i, j | 0 <= i < j < |walk| :: walk[i].0 != walk[j].0)
    && (forall n | n in wanted :: n in s.notes && (n, Shown(s.notes[n])) in walk)
  }

  lemma ViewsGather(s: Store, xs: seq<NoteId>, wanted: set<NoteId>)
    requires Known(s.notes, xs) && Distinct(xs) && |xs| == |wanted|
    requires forall n :: n in xs <==> n in wanted
    ensures Gathers(s, Views(s, xs), wanted)
  {
    forall n | n in wanted
      ensures n in s.notes && (n, Shown(s.notes[n])) in Views(s, xs)
    {
      var i :| 0 <= i < |xs| && xs[i] == n;
      assert Views(s, xs)[i] == (n, Shown(s.notes[n]));
    }
  }

  /** Pinned notes before unpinned ones, and within each group the later update first. */
  ghost predicate PinnedThenNewest(walk: seq<(NoteId, NoteRow)>) {
    forall i, j | 0 <= i < j < |walk| ::
      && (walk[j].1.isPinned ==> walk[i].1.isPinned)
      && (walk[i].1.isPinned == walk[j].1.isPinned ==> walk[i].1.updatedAt >= walk[j].1.updatedAt)
  }

  ghost predicate NewestFirst(walk: seq<(NoteId, NoteRow)>) {
    forall i, j | 0 <= i < j < |walk| :: walk[i].1.updatedAt >= walk[j].1.updatedAt
  }

  lemma ViewsInOrder(s: Store, xs: seq<NoteId>, pinnedFirst: bool)
    requires Known(s.notes, xs) && Sorted(s.notes, pinnedFirst, xs)
    ensures pinnedFirst ==> PinnedThenNewest(Views(s, xs))
    ensures !pinnedFirst ==> NewestFirst(Views(s, xs))
  {
    var walk := Views(s, xs);
    forall i, j | 0 <= i < j < |walk|
      ensures Before(s.notes, pinnedFirst, xs[i], xs[j])
      ensures walk[i].1.isPinned == s.notes[xs[i]].isPinned && walk[i].1.updatedAt == s.notes[xs[i]].updatedAt
      ensures walk[j].1.isPinned == s.notes[xs[j]].isPinned && walk[j].1.updatedAt == s.notes[xs[j]].updatedAt
    {
    }
  }

  /** What an owner's list is for: the user's live notes that the search selects. */
  function OwnLive(s: Store, u: UserId, search: Option<set<NoteId>>): set<NoteId> {
    set n | n in s.notes && s.notes[n].ownerId == u && s.notes[n].deletedAt.None?
            && (search.Some? ==> n in search.value)
  }

  lemma OwnedAnswers(cfg: Config, s: Store, u: UserId, search: Option<set<NoteId>>, env: Env, size: int)
    requires u in s.users && 1 <= size <= 100
    ensures var xs := OwnedList(s, u, search, true);
      && Known(s.notes, xs) && Distinct(xs) && |xs| == |OwnLive(s, u, search)|
      && (forall n :: n in xs <==> n in OwnLive(s, u, search))
      && Sorted(s.notes, true, xs) && Pages(cfg, s, u, Own(search), env, size, xs)
  {
    hide OwnedList, PageAnswer, Sorted, Known;
    OwnedListIsExact(s, u, search, true);
    assert OwnedNotes(s, u, search) == OwnLive(s, u, search);
  }

  /** The answers to pages 1..total_pages of the owned list, whichever page announced that number, hold every live note
      of the user that the search selects exactly once, as the client reads it, pinned first and newest first. */
  lemma OwnedPagesPartition(cfg: Config, s: Store, u: UserId, search: Option<set<NoteId>>, env: Env, size: int,
                            page: int)
    requires u in s.users && 1 <= size <= 100 && page >= 1 && |OwnLive(s, u, search)| <= P53
    ensures var o := Asked(cfg, s, u, Own(search), env, size, page);
      && o.Done? && o.store == s && o.reply.NotesReply? && o.reply.total == |OwnLive(s, u, search)|
      && var e := EnvelopeOf(o, PageRequest(page, size));
        && e.totalPages >= 1
        && Gathers(s, Walk(cfg, s, u, Own(search), env, size, e.totalPages), OwnLive(s, u, search))
        && PinnedThenNewest(Walk(cfg, s, u, Own(search), env, size, e.totalPages))
        && (e.hasNext <==> exists q :: q > page && NotesIn(Asked(cfg, s, u, Own(search), env, size, q)) != [])
  {
    hide OwnedList, OwnLive, Walk, Gathers, Views, Sorted, Asked, Pages, Known, Distinct, PinnedThenNewest;
    var xs := OwnedList(s, u, search, true);
    OwnedAnswers(cfg, s, u, search, env, size);
    WalkIsWholeList(cfg, s, u, Own(search), env, size, xs, page);
    ViewsGather(s, xs, OwnLive(s, u, search));
    ViewsInOrder(s, xs, true);
  }

  /** What the shared-with-me list is for: the live notes on which the run's shares grant the user anything. */
  function GrantedLive(cfg: Config, users: set<UserId>, reqs: seq<Request>, u: UserId): set<NoteId> {
    set n | n in Exec(cfg, users, reqs).notes && Exec(cfg, users, reqs).notes[n].deletedAt.None?
            && Granted(cfg, users, reqs, n, u).Some?
  }

  lemma GrantedIsShared(cfg: Config, users: set<UserId>, reqs: seq<Request>, u: UserId)
    ensures GrantedLive(cfg, users, reqs, u) == SharedWithMe(Exec(cfg, users, reqs), u)
  {
    hide Exec, Granted, PermissionOf;
    var s := Exec(cfg, users, reqs);
    SharesAreUniqueAndForeign(cfg, users, reqs);
    forall n
      ensures Granted(cfg, users, reqs, n, u).Some? <==> exists r :: r in s.shares && r.noteId == n && r.withId == u
    {
      PermissionIsFold(cfg, users, reqs, n, u);
      PermittedIff(s, n, u);
    }
  }

  lemma PermittedIff(s: Store, n: NoteId, u: UserId)
    requires forall i, j | 0 <= i < j < |s.shares| ::
      (s.shares[i].noteId, s.shares[i].withId) != (s.shares[j].noteId, s.shares[j].withId)
    ensures PermissionOf(s, n, u).Some? <==> exists r :: r in s.shares && r.noteId == n && r.withId == u
  {
    var p := ShareOf(n, u);
    var found := Find(s.shares, p);
    if r :| r in s.shares && r.noteId == n && r.withId == u {
      var i :| 0 <= i < |s.shares| && s.shares[i] == r;
      assert p(s.shares[i]);
    }
    if found.Unique? {
      var i :| 0 <= i < |s.shares| && p(s.shares[i]);
      assert s.shares[i] in s.shares;
    }
  }

  lemma SharedAnswers(cfg: Config, users: set<UserId>, reqs: seq<Request>, u: UserId, env: Env, size: int)
    requires u in users && 1 <= size <= 100
    ensures var s := Exec(cfg, users, reqs); var xs := SharedList(s, u);
      && Known(s.notes, xs) && Distinct(xs) && |xs| == |GrantedLive(cfg, users, reqs, u)|
      && (forall n :: n in xs <==> n in GrantedLive(cfg, users, reqs, u))
      && Sorted(s.notes, false, xs) && Pages(cfg, s, u, SharedWithUser, env, size, xs)
  {
    hide SharedList, PageAnswer, Sorted, Known, Exec, SharedWithMe, GrantedLive, SharedJoin;
    RunKeeps(cfg, users, reqs);
    SharedListIsExact(cfg, users, reqs, u);
    SharedListLength(Exec(cfg, users, reqs), u);
    GrantedIsShared(cfg, users, reqs, u);
  }

  lemma SharedListLength(s: Store, u: UserId)
    ensures Known(s.notes, SharedList(s, u)) && |SharedList(s, u)| == |SharedJoin(s.shares, s.notes, u)|
  {
  }

  /** The same for shared-with-me, in every run: the answers hold every live note that is granted to the user exactly
      once, newest first. */
  lemma SharedPagesPartition(cfg: Config, users: set<UserId>, reqs: seq<Request>, u: UserId, env: Env, size: int,
                             page: int)
    requires u in users && 1 <= size <= 100 && page >= 1 && |GrantedLive(cfg, users, reqs, u)| <= P53
    ensures var s := Exec(cfg, users, reqs); var o := Asked(cfg, s, u, SharedWithUser, env, size, page);
      && o.Done? && o.store == s && o.reply.NotesReply? && o.reply.total == |GrantedLive(cfg, users, reqs, u)|
      && var e := EnvelopeOf(o, PageRequest(page, size));
        && e.totalPages >= 1
        && Gathers(s, Walk(cfg, s, u, SharedWithUser, env, size, e.totalPages), GrantedLive(cfg, users, reqs, u))
        && NewestFirst(Walk(cfg, s, u, SharedWithUser, env, size, e.totalPages))
        && (e.hasNext <==> exists q :: q > page && NotesIn(Asked(cfg, s, u, SharedWithUser, env, size, q)) != [])
  {
    hide SharedList, GrantedLive, Walk, Gathers, Views, Sorted, Asked, Pages, Known, Distinct, NewestFirst, Exec;
    var s := Exec(cfg, users, reqs);
    var xs := SharedList(s, u);
    SharedAnswers(cfg, users, reqs, u, env, size);
    WalkIsWholeList(cfg, s, u, SharedWithUser, env, size, xs, page);
    ViewsGather(s, xs, GrantedLive(cfg, users, reqs, u));
    ViewsInOrder(s, xs, false);
  }
}
