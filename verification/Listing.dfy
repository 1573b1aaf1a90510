/** ORDER BY of the list queries, with ties broken by id so that the order is one order. */
module Listing {
  import opened Wrappers
  import opened Models
  import opened Queries

  /** a may stand before b: pinned first when asked for, then the later update, then the smaller id. */
  predicate Before(notes: map<NoteId, NoteRow>, pinnedFirst: bool, a: NoteId, b: NoteId)
    requires a in notes && b in notes
  {
    if pinnedFirst && notes[a].isPinned != notes[b].isPinned then notes[a].isPinned
    else if notes[a].updatedAt != notes[b].updatedAt then notes[a].updatedAt > notes[b].updatedAt
    else a <= b
  }

  predicate Known(notes: map<NoteId, NoteRow>, xs: seq<NoteId>) {
    forall i | 0 <= i < |xs| :: xs[i] in notes
  }

  ghost predicate Sorted(notes: map<NoteId, NoteRow>, pinnedFirst: bool, xs: seq<NoteId>)
    requires Known(notes, xs)
  {
    forall i, j | 0 <= i < j < |xs| :: Before(notes, pinnedFirst, xs[i], xs[j])
  }

  ghost predicate Distinct<T>(xs: seq<T>) {
    forall i, j | 0 <= i < j < |xs| :: xs[i] != xs[j]
  }

  function Insert(notes: map<NoteId, NoteRow>, pinnedFirst: bool, x: NoteId, xs: seq<NoteId>): (r: seq<NoteId>)
    requires x in notes && Known(notes, xs)
    ensures multiset(r) == multiset(xs) + multiset{x}
    ensures Known(notes, r)
  {
    if xs == [] then [x]
    else if Before(notes, pinnedFirst, x, xs[0]) then
      assert [x] + xs == [x] + xs[..];
      [x] + xs
    else
      assert xs == [xs[0]] + xs[1..];
      [xs[0]] + Insert(notes, pinnedFirst, x, xs[1..])
  }

  lemma {:induction false} InsertSorts(notes: map<NoteId, NoteRow>, pinnedFirst: bool, x: NoteId, xs: seq<NoteId>)
    requires x in notes && Known(notes, xs) && Sorted(notes, pinnedFirst, xs)
    ensures Sorted(notes, pinnedFirst, Insert(notes, pinnedFirst, x, xs))
  {
    if xs != [] && !Before(notes, pinnedFirst, x, xs[0]) {
      InsertSorts(notes, pinnedFirst, x, xs[1..]);
      var rest := Insert(notes, pinnedFirst, x, xs[1..]);
      forall j | 0 <= j < |rest|
        ensures Before(notes, pinnedFirst, xs[0], rest[j])
      {
        assert rest[j] in multiset(rest);
        if rest[j] != x {
          assert rest[j] in xs[1..];
        }
      }
    }
  }

  function Sort(notes: map<NoteId, NoteRow>, pinnedFirst: bool, xs: seq<NoteId>): (r: seq<NoteId>)
    requires Known(notes, xs)
    ensures multiset(r) == multiset(xs) && |r| == |xs|
    ensures Known(notes, r)
  {
    if xs == [] then []
    else
      assert xs == [xs[0]] + xs[1..];
      var r := Insert(notes, pinnedFirst, xs[0], Sort(notes, pinnedFirst, xs[1..]));
      assert multiset(r) == multiset(xs);
      assert |multiset(r)| == |multiset(xs)|;
      r
  }

  lemma {:induction false} SortSorts(notes: map<NoteId, NoteRow>, pinnedFirst: bool, xs: seq<NoteId>)
    requires Known(notes, xs)
    ensures Sorted(notes, pinnedFirst, Sort(notes, pinnedFirst, xs))
  {
    if xs != [] {
      SortSorts(notes, pinnedFirst, xs[1..]);
      InsertSorts(notes, pinnedFirst, xs[0], Sort(notes, pinnedFirst, xs[1..]));
    }
  }

  predicate IsLeast(x: nat, s: set<nat>) {
    x in s && forall y | y in s :: x <= y
  }

  lemma {:induction false} LeastExists(s: set<nat>)
    requires s != {}
    ensures exists x :: IsLeast(x, s)
  {
    var a :| a in s;
    var rest := s - {a};
    assert s == rest + {a};
    if rest == {} {
      assert IsLeast(a, s);
    } else {
      LeastExists(rest);
      var b :| IsLeast(b, rest);
      assert IsLeast(if a <= b then a else b, s);
    }
  }

  /** A table scan of the selected rows. */
  function Scan(s: set<nat>): (r: seq<nat>)
    ensures forall x :: x in r <==> x in s
    ensures Distinct(r) && |r| == |s|
  {
    if s == {} then []
    else
      LeastExists(s);
      var x :| IsLeast(x, s);
      [x] + Scan(s - {x})
  }

  lemma DistinctByMultiset<T>(xs: seq<T>, ys: seq<T>)
    requires Distinct(xs) && multiset(xs) == multiset(ys)
    ensures Distinct(ys)
  {
    forall i, j | 0 <= i < j < |ys|
      ensures ys[i] != ys[j]
    {
      if ys[i] == ys[j] {
        CountTwice(ys, i, j);
        CountOnce(xs, ys[i]);
        assert false;
      }
    }
  }

  lemma SameMembers<T>(xs: seq<T>, ys: seq<T>)
    requires multiset(xs) == multiset(ys)
    ensures forall x :: x in xs <==> x in ys
  {
    forall x
      ensures x in xs <==> x in ys
    {
      assert x in multiset(xs) <==> x in multiset(ys);
    }
  }

  lemma CountTwice<T>(ys: seq<T>, i: nat, j: nat)
    requires i < j < |ys| && ys[i] == ys[j]
    ensures multiset(ys)[ys[i]] >= 2
  {
    var a, b := ys[..j], ys[j..];
    assert ys == a + b;
    assert a[i] == ys[i] && b[0] == ys[j];
    assert ys[i] in multiset(a) && ys[i] in multiset(b);
    assert multiset(ys) == multiset(a) + multiset(b);
  }

  lemma {:induction false} CountOnce<T>(xs: seq<T>, x: T)
    requires Distinct(xs)
    ensures multiset(xs)[x] <= 1
  {
    if xs != [] {
      var init, last := xs[..|xs| - 1], xs[|xs| - 1];
      assert xs == init + [last];
      CountOnce(init, x);
      if x == last {
        assert x !in init;
        assert x !in multiset(init);
      }
    }
  }

  /** The ordered result of the owned-notes query, before OFFSET and LIMIT. */
  function OwnedList(s: Store, owner: UserId, search: Option<set<NoteId>>, pinnedFirst: bool): seq<NoteId> {
    var scan := Scan(OwnedNotes(s, owner, search));
    assert forall i | 0 <= i < |scan| :: scan[i] in OwnedNotes(s, owner, search);
    Sort(s.notes, pinnedFirst, scan)
  }

  /** The ordered result of the shared-with-me query, before OFFSET and LIMIT. */
  function SharedList(s: Store, u: UserId): seq<NoteId> {
    var join := SharedJoin(s.shares, s.notes, u);
    assert forall i | 0 <= i < |join| :: join[i] in join;
    Sort(s.notes, false, join)
  }

  /** The owned list is every matching live note exactly once; each note's place is given by the order. */
  lemma OwnedListIsExact(s: Store, owner: UserId, search: Option<set<NoteId>>, pinnedFirst: bool)
    ensures var xs := OwnedList(s, owner, search, pinnedFirst);
      && Distinct(xs)
      && (forall n :: n in xs <==> n in OwnedNotes(s, owner, search))
      && |xs| == |OwnedNotes(s, owner, search)|
      && Known(s.notes, xs) && Sorted(s.notes, pinnedFirst, xs)
  {
    var scan := Scan(OwnedNotes(s, owner, search));
    var xs := OwnedList(s, owner, search, pinnedFirst);
    assert forall i | 0 <= i < |scan| :: scan[i] in OwnedNotes(s, owner, search);
    SortSorts(s.notes, pinnedFirst, scan);
    DistinctByMultiset(scan, xs);
    SameMembers(scan, xs);
  }

  /** Pinned notes come before unpinned ones, and within each group the newer update comes first. */
  lemma PinnedFirstNewestFirst(s: Store, owner: UserId, search: Option<set<NoteId>>, i: nat, j: nat)
    requires i < j < |OwnedList(s, owner, search, true)|
    ensures var a, b := OwnedList(s, owner, search, true)[i], OwnedList(s, owner, search, true)[j];
      && a in s.notes && b in s.notes
      && (s.notes[b].isPinned ==> s.notes[a].isPinned)
      && (s.notes[a].isPinned == s.notes[b].isPinned ==> s.notes[a].updatedAt >= s.notes[b].updatedAt)
  {
    OwnedListIsExact(s, owner, search, true);
    var xs := OwnedList(s, owner, search, true);
    assert Before(s.notes, true, xs[i], xs[j]);
  }
}
