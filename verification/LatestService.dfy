/** The service behind `ListLatest` as a whole: which requests get the database's page, what
    failed calls cost, and what a client collects that follows NextTime. */
module LatestService {
  import opened Wrappers
  import opened Collections
  import opened Decimal
  import opened Zset
  import opened FeedTable
  import opened KeysetPages
  import opened LatestFeed
  import opened LatestExact
  import VideoLookup

  /** A timeline with no gap within reach of the limit. */
  ghost predicate Fit(timeline: ZSet, rows: set<Video>, limit: nat)
  {
    ValidRows(rows) && DistinctTimes(rows) && GoodTimeline(timeline, rows) && HiddenGaps(timeline, rows, limit)
  }

  lemma RebuiltIsFit(rows: set<Video>, limit: nat)
    requires ValidRows(rows) && DistinctTimes(rows) && forall v :: v in rows ==> v.id < UINT_LIMIT
    ensures Fit(Rebuilt(rows), rows, limit)
  {
    RebuiltCovers(rows);
    CoverExactly(Rebuilt(rows), rows, limit);
  }

  // ---------- when every call succeeds ----------

  predicate StartOk(s: Start) { s.tail.ReadOk? && s.queryOk && s.added }

  /** Two starts are enough: the first may refill the timeline. */
  predicate AllOk(c: Calls)
  {
    && |c.starts| >= 2 && (forall i :: 0 <= i < |c.starts| ==> StartOk(c.starts[i]))
    && c.coldOk && c.hot.ReadOk? && c.lost == {} && c.stitchOk && c.dbOk
  }

  lemma NothingLostIsFound(timeline: ZSet, rows: set<Video>, limit: nat, before: Option<int>)
    requires ValidRows(rows)
    ensures FoundRows(timeline, rows, {}, limit, before) == HotRows(timeline, rows, limit, before)
  {
    VideoLookup.NothingLost(ParseIds(ZRevRangeByScore(timeline, Bound(before), limit)));
  }

  /** The answer is the page of the rows served. */
  lemma ServeIsRows(timeline: ZSet, rows: set<Video>, limit: nat, before: Option<int>, now: int, calls: Calls)
    requires ValidRows(rows) && timeline != map[] && calls.starts != [] && calls.starts[0].tail.ReadOk?
    requires calls.coldOk && calls.hot.ReadOk? && calls.lost == {} && calls.stitchOk
    ensures Serve(timeline, rows, limit, before, now, calls) == PageOf(ServeRows(timeline, rows, limit, before, now, true), limit)
  {
    ServeReads(timeline, rows, limit, before, now, calls);
    HotIsRows(timeline, rows, limit, before, now, calls);
  }

  lemma HotIsRows(timeline: ZSet, rows: set<Video>, limit: nat, before: Option<int>, now: int, calls: Calls)
    requires ValidRows(rows) && timeline != map[]
    requires calls.coldOk && calls.hot.ReadOk? && calls.lost == {} && calls.stitchOk
    ensures ServeHot(timeline, rows, limit, before, now, calls) == PageOf(ServeRows(timeline, rows, limit, before, now, true), limit)
  {
    NothingLostIsFound(timeline, rows, limit, before);
  }

  lemma FitPage(timeline: ZSet, rows: set<Video>, limit: nat, before: Option<int>, now: int, calls: Calls)
    requires Fit(timeline, rows, limit) && timeline != map[] && calls.starts != [] && calls.starts[0].tail.ReadOk?
    requires calls.coldOk && calls.hot.ReadOk? && calls.lost == {} && calls.stitchOk
    ensures Serve(timeline, rows, limit, before, now, calls) == PageOf(ListLatest(rows, limit, before), limit)
  {
    ServeIsRows(timeline, rows, limit, before, now, calls);
    HiddenGapsGiveSqlPage(timeline, rows, limit, before, now, true);
  }

  lemma SharedRebuildPage(rows: set<Video>, limit: nat, before: Option<int>, now: int, calls: Calls)
    requires ValidRows(rows) && DistinctTimes(rows) && (forall v :: v in rows ==> v.id < UINT_LIMIT) && rows != {}
    requires AllOk(calls) && calls.starts[0].shared
    ensures Serve(map[], rows, limit, before, now, calls) == PageOf(ListLatest(rows, limit, before), limit)
  {
    RebuiltNonEmpty(rows);
    RebuiltIsFit(rows, limit);
    FitPage(Rebuilt(rows), rows, limit, before, now, calls.(starts := calls.starts[1..]));
  }

  /** With every call succeeding, a request gets the database's page unless it is the leader
      of an unshared rebuild, which indexes the empty read it started from. */
  lemma ServesSqlPageExactly(timeline: ZSet, rows: set<Video>, limit: nat, before: Option<int>, now: int, calls: Calls)
    requires Fit(timeline, rows, limit) && (forall v :: v in rows ==> v.id < UINT_LIMIT) && AllOk(calls) && limit >= 1
    ensures Serve(timeline, rows, limit, before, now, calls) == PageOf(ListLatest(rows, limit, before), limit)
       <==> !(timeline == map[] && rows != {} && !calls.starts[0].shared)
    ensures timeline == map[] && rows != {} && !calls.starts[0].shared ==> Serve(timeline, rows, limit, before, now, calls) == IndexPanic
  {
    if timeline != map[] {
      FitPage(timeline, rows, limit, before, now, calls);
    } else if rows == {} {
      assert OlderThan(rows, before) == {};
    } else if calls.starts[0].shared {
      SharedRebuildPage(rows, limit, before, now, calls);
    }
  }

  // ---------- starting over ----------

  /** A start that ends in another one. */
  predicate StartsOver(s: Start) { s.tail.ReadOk? && s.queryOk && s.shared }

  /** Starts none of which ends the request. */
  predicate Repeating(starts: seq<Start>)
  {
    forall i :: 0 <= i < |starts| ==> StartsOver(starts[i]) && (i < |starts| - 1 ==> !starts[i].added)
  }

  /** The request is still not done after all these starts exactly when the timeline and its
      refills stayed empty: each rebuild but perhaps the last lost its ZADD and was shared. */
  lemma {:induction false} UnfinishedExactly(timeline: ZSet, rows: set<Video>, limit: nat, before: Option<int>, now: int, calls: Calls)
    requires ValidRows(rows) && calls.starts != []
    ensures Serve(timeline, rows, limit, before, now, calls) == Unfinished <==>
              timeline == map[] && rows != {} && Repeating(calls.starts)
    decreases |calls.starts|
  {
    var s, rest := calls.starts[0], calls.starts[1..];
    assert calls.starts == [s] + rest;
    if timeline == map[] && rows != {} && StartsOver(s) {
      RebuiltNonEmpty(rows);
      ServeAgain(rows, limit, before, now, calls);
      if rest != [] { UnfinishedExactly(Refilled(rows, s), rows, limit, before, now, calls.(starts := rest)); }
      UnfinishedStep(s, rest);
    } else {
      ServeEnds(timeline, rows, limit, before, now, calls);
    }
  }

  lemma UnfinishedStep(s: Start, rest: seq<Start>)
    requires StartsOver(s)
    ensures Repeating([s] + rest) <==> rest == [] || (!s.added && Repeating(rest))
  {
    var starts := [s] + rest;
    assert starts[0] == s && |starts| == |rest| + 1;
    if rest != [] && !s.added && Repeating(rest) {
      forall i | 0 <= i < |starts| ensures StartsOver(starts[i]) && (i < |starts| - 1 ==> !starts[i].added) {
        assert i > 0 ==> starts[i] == rest[i - 1];
      }
    }
    if Repeating(starts) && rest != [] {
      forall i | 0 <= i < |rest| ensures StartsOver(rest[i]) && (i < |rest| - 1 ==> !rest[i].added) {
        assert starts[i + 1] == rest[i];
      }
    }
  }

  /** A shared rebuild of an empty timeline leads to the next start. */
  lemma ServeAgain(rows: set<Video>, limit: nat, before: Option<int>, now: int, calls: Calls)
    requires ValidRows(rows) && rows != {} && calls.starts != [] && StartsOver(calls.starts[0])
    ensures Serve(map[], rows, limit, before, now, calls) ==
              Serve(Refilled(rows, calls.starts[0]), rows, limit, before, now, calls.(starts := calls.starts[1..]))
    ensures TimelineRead(map[], rows, calls.starts) == TimelineRead(Refilled(rows, calls.starts[0]), rows, calls.starts[1..])
  {
  }

  /** Anything else ends the request. */
  lemma ServeEnds(timeline: ZSet, rows: set<Video>, limit: nat, before: Option<int>, now: int, calls: Calls)
    requires ValidRows(rows) && calls.starts != [] && !(timeline == map[] && rows != {} && StartsOver(calls.starts[0]))
    ensures Serve(timeline, rows, limit, before, now, calls) != Unfinished
  {
  }

  // ---------- lookups that fail ----------

  /** The rows whose lookups succeed. */
  function Found(hot: seq<Video>, lost: set<nat>): seq<Video>
  {
    if hot == [] then []
    else Found(hot[..|hot| - 1], lost) + if hot[|hot| - 1].id in lost then [] else [hot[|hot| - 1]]
  }

  /** A lost row stands before a found one. */
  predicate Skips(hot: seq<Video>, lost: set<nat>)
  {
    exists i, j :: 0 <= i < j < |hot| && hot[i].id in lost && hot[j].id !in lost
  }

  lemma FoundStep(hot: seq<Video>, v: Video, lost: set<nat>)
    ensures Found(hot + [v], lost) == Found(hot, lost) + if v.id in lost then [] else [v]
  {
    assert (hot + [v])[..|hot|] == hot;
  }

  lemma {:induction false} KeptRowsAreFound(rows: set<Video>, ids: seq<nat>, lost: set<nat>)
    requires ValidRows(rows)
    ensures RowsInOrder(rows, VideoLookup.Kept(ids, lost)) == Found(RowsInOrder(rows, ids), lost)
    decreases |ids|
  {
    if ids != [] {
      var before, id := ids[..|ids| - 1], ids[|ids| - 1];
      assert ids == before + [id];
      KeptRowsAreFound(rows, before, lost);
      VideoLookup.KeptStep(ids, lost);
      VideoLookup.RowsInOrderAppend(rows, before, id);
      VideoLookup.RowsInOrderAppend(rows, VideoLookup.Kept(before, lost), id);
      if Exists(rows, id) {
        assert RowsInOrder(rows, ids) == RowsInOrder(rows, before) + [RowOf(rows, id)];
        FoundStep(RowsInOrder(rows, before), RowOf(rows, id), lost);
      } else {
        assert RowsInOrder(rows, ids) == RowsInOrder(rows, before);
      }
    }
  }

  lemma {:induction false} FoundMembers(hot: seq<Video>, lost: set<nat>)
    ensures forall v :: v in Found(hot, lost) <==> v in hot && v.id !in lost
    ensures |Found(hot, lost)| <= |hot|
    ensures (forall v :: v in hot ==> v.id !in lost) ==> Found(hot, lost) == hot
    decreases |hot|
  {
    if hot != [] {
      var before, v := hot[..|hot| - 1], hot[|hot| - 1];
      assert hot == before + [v];
      FoundMembers(before, lost);
    }
  }

  /** Without skipping, what is found is the beginning of the hot rows. */
  lemma {:induction false} FoundBegins(hot: seq<Video>, lost: set<nat>)
    requires !Skips(hot, lost)
    ensures Found(hot, lost) <= hot
    decreases |hot|
  {
    if hot != [] {
      var before, v := hot[..|hot| - 1], hot[|hot| - 1];
      assert hot == before + [v];
      assert forall i :: 0 <= i < |before| ==> before[i] == hot[i];
      FoundBegins(before, lost);
      if v.id !in lost {
        forall w | w in before ensures w.id !in lost {
          var i :| 0 <= i < |before| && before[i] == w;
          assert hot[i] == w;
        }
        FoundMembers(before, lost);
      }
    }
  }

  lemma BeginningIsUpper(rows: set<Video>, before: Option<int>, base: seq<Video>, part: seq<Video>)
    requires UpperPart(rows, before, base) && part <= base
    ensures UpperPart(rows, before, part)
  {
    forall v, u | v in OlderThan(rows, before) && u in part && v.createTime > u.createTime ensures v in part {
      var j :| 0 <= j < |part| && part[j] == u;
      assert base[j] == u;
      var i :| 0 <= i < |base| && base[i] == v;
      assert i > j ==> Precedes(ByTime, base[j], base[i]);
      assert part[i] == v;
    }
    forall v | v in part ensures v in OlderThan(rows, before) { assert v in base; }
  }

  /** A found row behind a lost one cannot stand where the page has it. */
  lemma SkippedIsNoPrefix(rows: set<Video>, hot: seq<Video>, lost: set<nat>, page: seq<Video>)
    requires InOrder(ByTime, page) && hot <= page && Skips(hot, lost)
    ensures !(Found(hot, lost) <= page)
  {
    var i, j :| 0 <= i < j < |hot| && hot[i].id in lost && hot[j].id !in lost;
    FoundMembers(hot, lost);
    assert hot[j] in Found(hot, lost);
    BeginningsAgree(page, hot, Found(hot, lost), i, j);
  }

  /** Of two beginnings of a page, one has whatever the other has before a row of both. */
  lemma BeginningsAgree(page: seq<Video>, a: seq<Video>, b: seq<Video>, i: nat, j: nat)
    requires InOrder(ByTime, page) && a <= page && i < j < |a| && a[j] in b
    ensures b <= page ==> a[i] in b
  {
    var p :| 0 <= p < |b| && b[p] == a[j];
    RowsDiffer(page, p, j);
    assert b <= page ==> p < |page| && page[p] == page[j];
    assert b <= page ==> b[i] == a[i];
  }

  lemma RowsDiffer(page: seq<Video>, p: nat, j: nat)
    requires InOrder(ByTime, page)
    ensures p < |page| && j < |page| && p != j ==> page[p] != page[j]
  {
    if p < j < |page| {
      assert Precedes(ByTime, page[p], page[j]);
    } else if j < p < |page| {
      assert Precedes(ByTime, page[j], page[p]);
    }
  }

  /** Lookups that fail cost no more than the end of the page exactly when none of the rows lost
      stands before one found; and then the stitch, if it succeeds, makes up for them. */
  lemma LostRowsExactly(timeline: ZSet, rows: set<Video>, lost: set<nat>, limit: nat, before: Option<int>, stitchOk: bool)
    requires Fit(timeline, rows, limit)
    ensures var hot, page := HotRows(timeline, rows, limit, before), ListLatest(rows, limit, before);
            var served := Stitched(FoundRows(timeline, rows, lost, limit, before), rows, limit, before, stitchOk);
            && (served <= page <==> !Skips(hot, lost))
            && (stitchOk ==> (served == page <==> !Skips(hot, lost)))
  {
    KeptRowsAreFound(rows, ParseIds(ZRevRangeByScore(timeline, Bound(before), limit)), lost);
    HotRowsBegin(timeline, rows, limit, before);
    StitchedFoundExactly(rows, HotRows(timeline, rows, limit, before), lost, limit, before, stitchOk);
  }

  lemma StitchedFoundExactly(rows: set<Video>, hot: seq<Video>, lost: set<nat>, limit: nat, before: Option<int>, stitchOk: bool)
    requires ValidRows(rows) && DistinctTimes(rows) && UpperPart(rows, before, hot) && |hot| <= limit
    ensures var page, served := ListLatest(rows, limit, before), Stitched(Found(hot, lost), rows, limit, before, stitchOk);
            && (served <= page <==> !Skips(hot, lost))
            && (stitchOk ==> (served == page <==> !Skips(hot, lost)))
  {
    var page := ListLatest(rows, limit, before);
    FoundMembers(hot, lost);
    if Skips(hot, lost) {
      StitchCompletes(rows, limit, before, hot, true);
      PageInOrder(rows, limit, before);
      SkippedIsNoPrefix(rows, hot, lost, page);
      assert Found(hot, lost) <= Stitched(Found(hot, lost), rows, limit, before, stitchOk);
    } else {
      FoundBegins(hot, lost);
      BeginningIsUpper(rows, before, hot, Found(hot, lost));
      StitchCompletes(rows, limit, before, Found(hot, lost), stitchOk);
    }
  }

  lemma PageInOrder(rows: set<Video>, limit: nat, before: Option<int>)
    requires ValidRows(rows)
    ensures InOrder(ByTime, ListLatest(rows, limit, before))
  {
    SortDescInOrder(ByTime, OlderThan(rows, before));
  }

  predicate PrefixOfSqlPage(r: Response, rows: set<Video>, limit: nat, before: Option<int>)
    requires ValidRows(rows)
  {
    r.Page? ==> r.videos <= ListLatest(rows, limit, before)
  }

  /** The request takes the hot branch and loses a row before one it finds. */
  predicate LosesRow(timeline: ZSet, rows: set<Video>, limit: nat, before: Option<int>, now: int, calls: Calls)
    requires ValidRows(rows)
  {
    && timeline != map[] && TakesHotBranch(timeline, before, now, calls)
    && Skips(HotRows(timeline, rows, limit, before), calls.lost)
  }

  lemma HotAnswerExactly(timeline: ZSet, rows: set<Video>, limit: nat, before: Option<int>, now: int, calls: Calls)
    requires Fit(timeline, rows, limit) && timeline != map[]
    ensures PrefixOfSqlPage(ServeHot(timeline, rows, limit, before, now, calls), rows, limit, before) <==>
              !LosesRow(timeline, rows, limit, before, now, calls)
  {
    LostRowsExactly(timeline, rows, calls.lost, limit, before, calls.stitchOk);
    ServeHotAnswers(timeline, rows, limit, before, now, calls);
  }

  predicate TakesHotBranch(timeline: ZSet, before: Option<int>, now: int, calls: Calls)
    requires timeline != map[]
  {
    RequestTime(before, now) > LowestScore(timeline) && calls.hot.ReadOk?
  }

  lemma ServeHotAnswers(timeline: ZSet, rows: set<Video>, limit: nat, before: Option<int>, now: int, calls: Calls)
    requires ValidRows(rows) && timeline != map[]
    ensures var r := ServeHot(timeline, rows, limit, before, now, calls);
            if TakesHotBranch(timeline, before, now, calls)
            then r == PageOf(Stitched(FoundRows(timeline, rows, calls.lost, limit, before), rows, limit, before, calls.stitchOk), limit)
            else PrefixOfSqlPage(r, rows, limit, before)
  {
  }

  /** The timeline the request comes to read, if it ever does. */
  function TimelineRead(timeline: ZSet, rows: set<Video>, starts: seq<Start>): (z: ZSet)
    requires ValidRows(rows)
    decreases |starts|
  {
    if starts == [] || !starts[0].tail.ReadOk? then map[]
    else if timeline != map[] then timeline
    else if rows == {} || !StartsOver(starts[0]) then map[]
    else TimelineRead(Refilled(rows, starts[0]), rows, starts[1..])
  }

  /** Whatever calls fail, what is served is a prefix of the database's page, except when, and
      only when, the hot branch loses a row before one it finds. */
  lemma {:induction false} ServedPageExactly(timeline: ZSet, rows: set<Video>, limit: nat, before: Option<int>, now: int, calls: Calls)
    requires Fit(timeline, rows, limit) && forall v :: v in rows ==> v.id < UINT_LIMIT
    ensures PrefixOfSqlPage(Serve(timeline, rows, limit, before, now, calls), rows, limit, before) <==>
              !LosesRow(TimelineRead(timeline, rows, calls.starts), rows, limit, before, now, calls)
    decreases |calls.starts|
  {
    if calls.starts != [] && calls.starts[0].tail.ReadOk? && timeline != map[] {
      HotAnswerExactly(timeline, rows, limit, before, now, calls);
      ServeReads(timeline, rows, limit, before, now, calls);
    } else if calls.starts != [] && StartsOver(calls.starts[0]) && timeline == map[] && rows != {} {
      RebuiltIsFit(rows, limit);
      ServeAgain(rows, limit, before, now, calls);
      ServedPageExactly(Refilled(rows, calls.starts[0]), rows, limit, before, now, calls.(starts := calls.starts[1..]));
    } else {
      OtherAnswers(timeline, rows, limit, before, now, calls);
    }
  }

  lemma ServeReads(timeline: ZSet, rows: set<Video>, limit: nat, before: Option<int>, now: int, calls: Calls)
    requires ValidRows(rows) && calls.starts != [] && calls.starts[0].tail.ReadOk? && timeline != map[]
    ensures Serve(timeline, rows, limit, before, now, calls) == ServeHot(timeline, rows, limit, before, now, calls)
    ensures TimelineRead(timeline, rows, calls.starts) == timeline
  {
  }

  lemma OtherAnswers(timeline: ZSet, rows: set<Video>, limit: nat, before: Option<int>, now: int, calls: Calls)
    requires ValidRows(rows)
    requires calls.starts == [] || !calls.starts[0].tail.ReadOk? || (timeline == map[] && (rows == {} || !StartsOver(calls.starts[0])))
    ensures PrefixOfSqlPage(Serve(timeline, rows, limit, before, now, calls), rows, limit, before)
    ensures TimelineRead(timeline, rows, calls.starts) == map[]
  {
  }

  // ---------- following NextTime ----------

  /** What one request of a walk meets: the timeline, the clock and the outcomes of its calls
      may all have changed since the last one. */
  datatype Visit = Visit(timeline: ZSet, now: int, calls: Calls)

  ghost predicate Welcome(visit: Visit, rows: set<Video>, limit: nat)
  {
    Fit(visit.timeline, rows, limit) && visit.timeline != map[] && AllOk(visit.calls)
  }

  /** The answer to a request whose calls all succeed. */
  function Answer(visit: Visit, rows: set<Video>, limit: nat, before: Option<int>): (r: Response)
    requires Welcome(visit, rows, limit)
    ensures r == PageOf(ListLatest(rows, limit, before), limit)
  {
    FitPage(visit.timeline, rows, limit, before, visit.now, visit.calls);
    Serve(visit.timeline, rows, limit, before, visit.now, visit.calls)
  }

  /** What a page and its NextTime leave. */
  lemma PageAndRest(rows: set<Video>, limit: nat, before: Option<int>, page: Response)
    requires ValidRows(rows) && DistinctTimes(rows) && limit >= 1 && page == PageOf(ListLatest(rows, limit, before), limit)
    ensures page.hasMore ==>
              && |OlderThan(rows, Some(page.nextTime))| < |OlderThan(rows, before)|
              && SortDesc(ByTime, OlderThan(rows, before)) == page.videos + SortDesc(ByTime, OlderThan(rows, Some(page.nextTime)))
    ensures !page.hasMore ==> page.videos == SortDesc(ByTime, OlderThan(rows, before))
  {
    var l := ListLatest(rows, limit, before);
    assert page.videos == l && page.hasMore == (|l| == limit);
    if page.hasMore { LatestProgress(rows, limit, before); } else { ShortPageIsAll(rows, limit, before); }
  }

  lemma ShortPageIsAll(rows: set<Video>, limit: nat, before: Option<int>)
    requires ValidRows(rows) && |ListLatest(rows, limit, before)| != limit
    ensures ListLatest(rows, limit, before) == SortDesc(ByTime, OlderThan(rows, before))
  {
  }

  /** The rows a client collects by passing each answer's NextTime back, while HasMore: every
      row once, newest first, however the pages were put together. */
  function LatestWalk(visits: nat -> Visit, n: nat, rows: set<Video>, limit: nat, before: Option<int>): (collected: seq<Video>)
    requires ValidRows(rows) && DistinctTimes(rows) && limit >= 1 && forall k: nat :: Welcome(visits(k), rows, limit)
    ensures collected == SortDesc(ByTime, OlderThan(rows, before))
    decreases |OlderThan(rows, before)|
  {
    var page := Answer(visits(n), rows, limit, before);
    PageAndRest(rows, limit, before, page);
    page.videos + if page.hasMore then LatestWalk(visits, n + 1, rows, limit, Some(page.nextTime)) else []
  }
}
