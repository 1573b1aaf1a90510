/** The activity timeline: `get_user_activity` over the append-only log. */
module Activity {
  import opened Wrappers
  import opened Models
  import opened NoteRules
  import opened Division
  import opened Pagination
  import opened Links
  import opened Audit

  datatype Filter = Filter(user: UserId, action: Option<Action>, note: Option<NoteId>)

  /** The WHERE clause. */
  predicate Matches(f: Filter, e: LogEntry) {
    && e.userId == Some(f.user)
    && (f.action.Some? ==> e.action == f.action.value)
    && (f.note.Some? ==> e.noteId == f.note.value)
  }

  /** ORDER BY created_at DESC; of entries made at one time the later insert comes first. */
  function Place(e: LogEntry, xs: seq<LogEntry>): (r: seq<LogEntry>)
    ensures multiset(r) == multiset(xs) + multiset{e} && |r| == |xs| + 1
  {
    if xs == [] || e.at >= xs[0].at then [e] + xs
    else
      assert xs == [xs[0]] + xs[1..];
      [xs[0]] + Place(e, xs[1..])
  }

  /** The matching entries, latest first; the log is in the order of insertion. */
  function UserActivity(log: seq<LogEntry>, f: Filter): seq<LogEntry> {
    if log == [] then []
    else
      var rest, last := UserActivity(log[..|log| - 1], f), log[|log| - 1];
      if Matches(f, last) then Place(last, rest) else rest
  }

  ghost predicate LatestFirst(xs: seq<LogEntry>) {
    forall i, j | 0 <= i < j < |xs| :: xs[i].at >= xs[j].at
  }

  lemma {:induction false} PlaceKeepsOrder(e: LogEntry, xs: seq<LogEntry>)
    requires LatestFirst(xs)
    ensures LatestFirst(Place(e, xs))
  {
    if xs != [] && e.at < xs[0].at {
      PlaceKeepsOrder(e, xs[1..]);
      var rest := Place(e, xs[1..]);
      forall j | 0 <= j < |rest|
        ensures xs[0].at >= rest[j].at
      {
        assert rest[j] in multiset(rest);
        assert rest[j] == e || rest[j] in xs[1..];
      }
    }
  }

  lemma Append(log: seq<LogEntry>, e: LogEntry, f: Filter)
    ensures UserActivity(log + [e], f) ==
      if Matches(f, e) then Place(e, UserActivity(log, f)) else UserActivity(log, f)
  {
    assert (log + [e])[..|log|] == log;
  }

  lemma {:induction false} TimelineIsOrdered(log: seq<LogEntry>, f: Filter)
    ensures LatestFirst(UserActivity(log, f))
  {
    if log != [] {
      TimelineIsOrdered(log[..|log| - 1], f);
      if Matches(f, log[|log| - 1]) {
        PlaceKeepsOrder(log[|log| - 1], UserActivity(log[..|log| - 1], f));
      }
    }
  }

  /** The timeline is the user's own entries, of the action and the note asked for, each as often as it was logged and
      ordered by time. */
  lemma {:induction false} TimelineIsExact(log: seq<LogEntry>, f: Filter, e: LogEntry)
    ensures LatestFirst(UserActivity(log, f))
    ensures multiset(UserActivity(log, f))[e] ==
      if e.userId == Some(f.user) && (f.action == None || f.action == Some(e.action))
         && (f.note == None || f.note == Some(e.noteId))
      then multiset(log)[e] else 0
  {
    hide Place, LatestFirst;
    TimelineIsOrdered(log, f);
    if log != [] {
      var init, last := log[..|log| - 1], log[|log| - 1];
      assert log == init + [last];
      TimelineIsExact(init, f, e);
    }
  }

  /** A new entry comes out on top, with everything seen before behind it, exactly when no entry of the timeline was
      made later: that is what a clock that goes back can break. */
  lemma EntryLeadsIff(log: seq<LogEntry>, e: LogEntry, f: Filter)
    requires Matches(f, e)
    ensures UserActivity(log + [e], f) == [e] + UserActivity(log, f) <==>
      forall i | 0 <= i < |UserActivity(log, f)| :: UserActivity(log, f)[i].at <= e.at
  {
    var xs := UserActivity(log, f);
    Append(log, e, f);
    TimelineIsOrdered(log, f);
    if xs != [] && e.at < xs[0].at {
      assert Place(e, xs)[0] == xs[0];
    }
  }

  // Runs.

  /** Every entry of the log was made by now. */
  ghost predicate MadeBy(log: seq<LogEntry>, now: Time) {
    forall i | 0 <= i < |log| :: log[i].at <= now
  }

  lemma TimelineMadeBy(log: seq<LogEntry>, f: Filter, now: Time)
    requires MadeBy(log, now)
    ensures MadeBy(UserActivity(log, f), now)
  {
    var xs := UserActivity(log, f);
    forall i | 0 <= i < |xs|
      ensures xs[i].at <= now
    {
      TimelineIsExact(log, f, xs[i]);
      assert xs[i] in multiset(xs);
      assert xs[i] in multiset(log);
      assert xs[i] in log;
    }
  }

  /** One request appends at most one entry, made at the request's time. */
  lemma StepLogs(cfg: Config, s: Store, req: Request)
    ensures Step(cfg, s, req).log == s.log
      || exists e :: Step(cfg, s, req).log == s.log + [e] && e.at == req.env.now
  {
    hide Apply;
    if Apply(cfg, s, req).Done? {
      EveryWriteIsLoggedOnce(cfg, s, req);
      var log := Step(cfg, s, req).log;
      if log != s.log {
        assert log == s.log + [log[|s.log|]];
      }
    }
  }

  /** A request at a time no earlier than the log grows a timeline at its front, if at all. */
  lemma StepGrowsAtFront(cfg: Config, s: Store, req: Request, f: Filter)
    requires MadeBy(s.log, req.env.now)
    ensures exists newer :: UserActivity(Step(cfg, s, req).log, f) == newer + UserActivity(s.log, f)
  {
    hide UserActivity, Step, Matches;
    StepLogs(cfg, s, req);
    if Step(cfg, s, req).log == s.log {
      assert UserActivity(s.log, f) == [] + UserActivity(s.log, f);
    } else {
      var e :| Step(cfg, s, req).log == s.log + [e] && e.at == req.env.now;
      Append(s.log, e, f);
      if Matches(f, e) {
        TimelineMadeBy(s.log, f, req.env.now);
        EntryLeadsIff(s.log, e, f);
      } else {
        assert UserActivity(s.log, f) == [] + UserActivity(s.log, f);
      }
    }
  }

  lemma {:induction false} RunIsMadeBy(cfg: Config, users: set<UserId>, reqs: seq<Request>, now: Time)
    requires forall i | 0 <= i < |reqs| :: reqs[i].env.now <= now
    ensures MadeBy(Exec(cfg, users, reqs).log, now)
  {
    if reqs != [] {
      var init, last := reqs[..|reqs| - 1], reqs[|reqs| - 1];
      assert forall i | 0 <= i < |init| :: init[i] == reqs[i];
      RunIsMadeBy(cfg, users, init, now);
      StepLogs(cfg, Exec(cfg, users, init), last);
    }
  }

  /** With a clock that never goes back, a timeline only grows at its front: what a user has seen after some requests
      stays, in the same order, behind what is newer. */
  lemma {:induction false} TimelineGrowsAtFront(cfg: Config, users: set<UserId>, reqs: seq<Request>, k: nat, f: Filter)
    requires k <= |reqs| && ClockNeverGoesBack(reqs)
    ensures exists newer ::
      UserActivity(Exec(cfg, users, reqs).log, f) == newer + UserActivity(Exec(cfg, users, reqs[..k]).log, f)
  {
    hide UserActivity, Step;
    if k == |reqs| {
      assert reqs[..k] == reqs;
      var xs := UserActivity(Exec(cfg, users, reqs).log, f);
      assert xs == [] + xs;
    } else {
      var init, last := reqs[..|reqs| - 1], reqs[|reqs| - 1];
      var s := Exec(cfg, users, init);
      assert forall i | 0 <= i < |init| :: init[i] == reqs[i];
      assert init[..k] == reqs[..k];
      TimelineGrowsAtFront(cfg, users, init, k, f);
      RunIsMadeBy(cfg, users, init, last.env.now);
      StepGrowsAtFront(cfg, s, last, f);
      var a :| UserActivity(s.log, f) == a + UserActivity(Exec(cfg, users, reqs[..k]).log, f);
      var b :| UserActivity(Step(cfg, s, last).log, f) == b + UserActivity(s.log, f);
      assert UserActivity(Exec(cfg, users, reqs).log, f)
          == (b + a) + UserActivity(Exec(cfg, users, reqs[..k]).log, f);
    }
  }

  /** Walking the pages of a timeline gives every matching entry once, latest first. */
  lemma TimelinePagesPartition(log: seq<LogEntry>, f: Filter, page: int, size: int)
    requires page >= 1 && 1 <= size <= 100 && |UserActivity(log, f)| <= P53
    ensures FirstPages(UserActivity(log, f), size, PageOf(UserActivity(log, f), page, size).totalPages) ==
      UserActivity(log, f)
    ensures |UserActivity(log, f)| == |MatchingPlaces(log, f)|
  {
    PagesPartition(UserActivity(log, f), page, size);
    ActivityCount(log, f);
  }

  /** The places in the log of the user's own entries, of the action and the note asked for. */
  function MatchingPlaces(log: seq<LogEntry>, f: Filter): set<nat> {
    set i: nat | i < |log| && log[i].userId == Some(f.user) && (f.action == None || f.action == Some(log[i].action))
                 && (f.note == None || f.note == Some(log[i].noteId))
  }

  lemma {:induction false} ActivityCount(log: seq<LogEntry>, f: Filter)
    ensures |UserActivity(log, f)| == |MatchingPlaces(log, f)|
  {
    if log != [] {
      var n := |log| - 1;
      ActivityCount(log[..n], f);
      OneMorePlace(log, f);
    }
  }

  lemma OneMorePlace(log: seq<LogEntry>, f: Filter)
    requires log != []
    ensures var n := |log| - 1;
      MatchingPlaces(log, f) == MatchingPlaces(log[..n], f) + if Matches(f, log[n]) then {n} else {}
  {
  }

  /** The user's successful requests that are logged: all but reads, changed permissions and link accesses. */
  function OwnWrites(cfg: Config, users: set<UserId>, reqs: seq<Request>, u: UserId): nat {
    if reqs == [] then 0
    else
      var init, last := reqs[..|reqs| - 1], reqs[|reqs| - 1];
      var s := Exec(cfg, users, init);
      OwnWrites(cfg, users, init, u)
      + if last.user == u && !last.op.AccessShareLink? && Apply(cfg, s, last).Done? && !Silent(s, last.op) then 1 else 0
  }

  /** In every run a user's timeline counts exactly the user's own successful writes. */
  lemma {:induction false} TimelineCountsOwnWrites(cfg: Config, users: set<UserId>, reqs: seq<Request>, u: UserId)
    ensures |UserActivity(Exec(cfg, users, reqs).log, Filter(u, None, None))| == OwnWrites(cfg, users, reqs, u)
  {
    hide Apply, UserActivity, Silent;
    if reqs == [] {
      NothingLogged(Filter(u, None, None));
    } else {
      var init, last := reqs[..|reqs| - 1], reqs[|reqs| - 1];
      var s := Exec(cfg, users, init);
      TimelineCountsOwnWrites(cfg, users, init, u);
      if Apply(cfg, s, last).Done? {
        EveryWriteIsLoggedOnce(cfg, s, last);
        var log := Step(cfg, s, last).log;
        if !Silent(s, last.op) {
          assert log == s.log + [log[|s.log|]];
          Append(s.log, log[|s.log|], Filter(u, None, None));
        }
      }
    }
  }

  lemma NothingLogged(f: Filter)
    ensures UserActivity([], f) == []
  {
  }
}
