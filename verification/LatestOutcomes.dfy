/** How a `ListLatest` request ends, by the outcome of each call it makes: with the database's
    page, with an error, with the index panic, or with rows of the timeline. */
module LatestOutcomes {
  import opened Wrappers
  import opened Collections
  import opened Decimal
  import opened Zset
  import opened FeedTable
  import opened KeysetPages
  import opened LatestFeed
  import opened LatestExact
  import opened LatestService

  // ---------- the start that decides ----------

  /** The k-th start comes about: all before it led to another one, none but perhaps the last
      of them with an entry written. */
  predicate Reached(timeline: ZSet, rows: set<Video>, starts: seq<Start>, k: nat)
  {
    k < |starts| && (k > 0 ==> timeline == map[] && rows != {} && Repeating(starts[..k]))
  }

  /** The timeline it finds. */
  function TimelineAt(timeline: ZSet, rows: set<Video>, starts: seq<Start>, k: nat): ZSet
    requires ValidRows(rows) && k <= |starts|
  {
    if k == 0 then timeline else if starts[k - 1].added then Rebuilt(rows) else map[]
  }

  /** It leads to another start. */
  predicate GoesOn(z: ZSet, rows: set<Video>, s: Start) { z == map[] && rows != {} && StartsOver(s) }

  lemma ReachedBefore(timeline: ZSet, rows: set<Video>, starts: seq<Start>, k: nat)
    requires ValidRows(rows) && Reached(timeline, rows, starts, k) && k > 0
    ensures Reached(timeline, rows, starts, k - 1) && GoesOn(TimelineAt(timeline, rows, starts, k - 1), rows, starts[k - 1])
  {
    var passed, shorter := starts[..k], starts[..k - 1];
    assert passed[k - 1] == starts[k - 1];
    forall i | 0 <= i < |shorter| ensures StartsOver(shorter[i]) && (i < |shorter| - 1 ==> !shorter[i].added) {
      assert shorter[i] == passed[i];
    }
    if k > 1 { assert passed[k - 2] == starts[k - 2]; }
  }

  lemma ReachedNext(timeline: ZSet, rows: set<Video>, starts: seq<Start>, k: nat)
    requires ValidRows(rows) && Reached(timeline, rows, starts, k) && GoesOn(TimelineAt(timeline, rows, starts, k), rows, starts[k])
    ensures timeline == map[] && Repeating(starts[..k + 1])
  {
    RebuiltNonEmpty(rows);
    var passed, longer := starts[..k], starts[..k + 1];
    forall i | 0 <= i < |longer| ensures StartsOver(longer[i]) && (i < |longer| - 1 ==> !longer[i].added) {
      if i < k { assert longer[i] == passed[i]; }
    }
  }

  /** From a start that comes about the request goes on as if it began there. */
  lemma {:induction false} ServeFrom(timeline: ZSet, rows: set<Video>, limit: nat, before: Option<int>, now: int, calls: Calls, k: nat)
    requires ValidRows(rows) && Reached(timeline, rows, calls.starts, k)
    ensures Serve(timeline, rows, limit, before, now, calls) ==
              Serve(TimelineAt(timeline, rows, calls.starts, k), rows, limit, before, now, calls.(starts := calls.starts[k..]))
  {
    if k == 0 {
      assert calls.starts[0..] == calls.starts;
    } else {
      ReachedBefore(timeline, rows, calls.starts, k);
      ServeFrom(timeline, rows, limit, before, now, calls, k - 1);
      ServeAgain(rows, limit, before, now, calls.(starts := calls.starts[k - 1..]));
      assert calls.starts[k - 1..][1..] == calls.starts[k..];
    }
  }

  /** Unless the request is still starting over, one of its starts decides. */
  lemma {:induction false} DecidingStart(timeline: ZSet, rows: set<Video>, limit: nat, before: Option<int>, now: int, calls: Calls, k: nat)
    returns (d: nat)
    requires ValidRows(rows) && Reached(timeline, rows, calls.starts, k)
    requires Serve(timeline, rows, limit, before, now, calls) != Unfinished
    ensures Reached(timeline, rows, calls.starts, d) && !GoesOn(TimelineAt(timeline, rows, calls.starts, d), rows, calls.starts[d])
    decreases |calls.starts| - k
  {
    d := k;
    if GoesOn(TimelineAt(timeline, rows, calls.starts, k), rows, calls.starts[k]) {
      ReachedNext(timeline, rows, calls.starts, k);
      if k + 1 < |calls.starts| {
        d := DecidingStart(timeline, rows, limit, before, now, calls, k + 1);
      } else {
        assert calls.starts[..k + 1] == calls.starts;
        UnfinishedExactly(timeline, rows, limit, before, now, calls);
      }
    }
  }

  // ---------- what it decides ----------

  /** The request is no newer than any entry of the timeline. */
  ghost predicate IsCold(z: ZSet, before: Option<int>, now: int)
  {
    forall m :: m in z ==> (if before.Some? then before.value else now) <= z[m]
  }

  lemma ColdExactly(z: ZSet, before: Option<int>, now: int)
    requires z != map[]
    ensures IsCold(z, before, now) <==> RequestTime(before, now) <= LowestScore(z)
  {
    assert Descending(z)[|z| - 1] in Descending(z);
    forall m | m in z ensures LowestScore(z) <= z[m] { LowestScoreIsMinimum(z, m); }
  }

  /** A start that finds the timeline `z` fails the request: a Redis read with an error other
      than the open breaker, or a failed query on the branch it takes. */
  ghost predicate FailsAt(z: ZSet, before: Option<int>, now: int, s: Start, calls: Calls)
  {
    match s.tail
    case ReadError => true
    case BreakerOpen => !calls.dbOk
    case ReadOk =>
      if z == map[] then !s.queryOk
      else if IsCold(z, before, now) then !calls.coldOk
      else calls.hot.ReadError? || (calls.hot.BreakerOpen? && !calls.dbOk)
  }

  /** It goes to the database for the whole page: the breaker is open at either read, or the
      request is cold. */
  ghost predicate FallsBack(z: ZSet, before: Option<int>, now: int, s: Start, calls: Calls)
  {
    s.tail.BreakerOpen? || (s.tail.ReadOk? && z != map[] && (IsCold(z, before, now) || calls.hot.BreakerOpen?))
  }

  /** It rebuilds the timeline alone. */
  ghost predicate RebuildsAlone(z: ZSet, rows: set<Video>, s: Start)
  {
    s.tail.ReadOk? && z == map[] && s.queryOk && rows != {} && !s.shared
  }

  /** A page that says where the next one begins, and whether there is one. */
  predicate WellMarked(r: Response, limit: nat)
  {
    r.Page? ==>
      && (r.hasMore <==> |r.videos| == limit)
      && (r.videos != [] ==> r.nextTime == r.videos[|r.videos| - 1].createTime)
  }

  lemma FirstStart(timeline: ZSet, rows: set<Video>, limit: nat, before: Option<int>, now: int, calls: Calls)
    requires ValidRows(rows) && limit >= 1 && calls.starts != [] && !GoesOn(timeline, rows, calls.starts[0])
    ensures var r, s := Serve(timeline, rows, limit, before, now, calls), calls.starts[0];
            && (r == Failed <==> FailsAt(timeline, before, now, s, calls))
            && (r == IndexPanic <==> RebuildsAlone(timeline, rows, s))
            && WellMarked(r, limit)
  {
    if calls.starts[0].tail.ReadOk? && timeline != map[] {
      ServeReads(timeline, rows, limit, before, now, calls);
      HotEnds(timeline, rows, limit, before, now, calls);
    } else {
      ColdEnds(timeline, rows, limit, before, now, calls);
    }
  }

  lemma HotEnds(timeline: ZSet, rows: set<Video>, limit: nat, before: Option<int>, now: int, calls: Calls)
    requires ValidRows(rows) && timeline != map[]
    ensures var r := ServeHot(timeline, rows, limit, before, now, calls);
            && r != IndexPanic && WellMarked(r, limit)
            && (r == Failed <==> if IsCold(timeline, before, now) then !calls.coldOk
                                 else calls.hot.ReadError? || (calls.hot.BreakerOpen? && !calls.dbOk))
  {
    ColdExactly(timeline, before, now);
    MarkedPage(ListLatest(rows, limit, before), limit);
    MarkedPage(Stitched(FoundRows(timeline, rows, calls.lost, limit, before), rows, limit, before, calls.stitchOk), limit);
    HotAnswers(timeline, rows, limit, before, now, calls);
  }

  lemma MarkedPage(videos: seq<Video>, limit: nat)
    ensures PageOf(videos, limit).Page? && WellMarked(PageOf(videos, limit), limit)
  {
  }

  lemma HotAnswers(timeline: ZSet, rows: set<Video>, limit: nat, before: Option<int>, now: int, calls: Calls)
    requires ValidRows(rows) && timeline != map[]
    ensures var r := ServeHot(timeline, rows, limit, before, now, calls);
            var page := PageOf(ListLatest(rows, limit, before), limit);
            if RequestTime(before, now) <= LowestScore(timeline) then r == if calls.coldOk then page else Failed
            else if calls.hot.ReadError? then r == Failed
            else if calls.hot.BreakerOpen? then r == if calls.dbOk then page else Failed
            else r == PageOf(Stitched(FoundRows(timeline, rows, calls.lost, limit, before), rows, limit, before, calls.stitchOk), limit)
  {
  }

  lemma ColdEnds(timeline: ZSet, rows: set<Video>, limit: nat, before: Option<int>, now: int, calls: Calls)
    requires ValidRows(rows) && limit >= 1 && calls.starts != [] && !GoesOn(timeline, rows, calls.starts[0])
    requires timeline == map[] || !calls.starts[0].tail.ReadOk?
    ensures var r, s := Serve(timeline, rows, limit, before, now, calls), calls.starts[0];
            && (r == Failed <==> FailsAt(timeline, before, now, s, calls))
            && (r == IndexPanic <==> RebuildsAlone(timeline, rows, s))
            && WellMarked(r, limit)
  {
  }

  lemma FirstFallsBack(timeline: ZSet, rows: set<Video>, limit: nat, before: Option<int>, now: int, calls: Calls)
    requires ValidRows(rows) && calls.starts != []
    requires FallsBack(timeline, before, now, calls.starts[0], calls) && !FailsAt(timeline, before, now, calls.starts[0], calls)
    ensures Serve(timeline, rows, limit, before, now, calls) == PageOf(ListLatest(rows, limit, before), limit)
  {
    if timeline != map[] { ColdExactly(timeline, before, now); }
  }

  /** At the start that decides. */
  lemma DecidedAt(timeline: ZSet, rows: set<Video>, limit: nat, before: Option<int>, now: int, calls: Calls, k: nat)
    requires ValidRows(rows) && limit >= 1 && Reached(timeline, rows, calls.starts, k)
    requires !GoesOn(TimelineAt(timeline, rows, calls.starts, k), rows, calls.starts[k])
    ensures var r, z, s := Serve(timeline, rows, limit, before, now, calls), TimelineAt(timeline, rows, calls.starts, k), calls.starts[k];
            && (r == Failed <==> FailsAt(z, before, now, s, calls))
            && (r == IndexPanic <==> RebuildsAlone(z, rows, s))
            && WellMarked(r, limit)
  {
    ServeFrom(timeline, rows, limit, before, now, calls, k);
    FirstStart(TimelineAt(timeline, rows, calls.starts, k), rows, limit, before, now, calls.(starts := calls.starts[k..]));
  }

  /** A request fails exactly when a start it comes to does: which read, which query, on which
      branch. */
  lemma FailedExactly(timeline: ZSet, rows: set<Video>, limit: nat, before: Option<int>, now: int, calls: Calls)
    requires ValidRows(rows) && limit >= 1 && calls.starts != []
    ensures Serve(timeline, rows, limit, before, now, calls) == Failed <==>
              exists k: nat :: Reached(timeline, rows, calls.starts, k) &&
                FailsAt(TimelineAt(timeline, rows, calls.starts, k), before, now, calls.starts[k], calls)
  {
    if Serve(timeline, rows, limit, before, now, calls) == Failed {
      var k := DecidingStart(timeline, rows, limit, before, now, calls, 0);
      DecidedAt(timeline, rows, limit, before, now, calls, k);
    }
    if k: nat :| Reached(timeline, rows, calls.starts, k) && FailsAt(TimelineAt(timeline, rows, calls.starts, k), before, now, calls.starts[k], calls) {
      DecidedAt(timeline, rows, limit, before, now, calls, k);
    }
  }

  /** And indexes an empty slice exactly when it rebuilds the timeline alone. */
  lemma PanicsExactly(timeline: ZSet, rows: set<Video>, limit: nat, before: Option<int>, now: int, calls: Calls)
    requires ValidRows(rows) && limit >= 1 && calls.starts != []
    ensures Serve(timeline, rows, limit, before, now, calls) == IndexPanic <==>
              exists k: nat :: Reached(timeline, rows, calls.starts, k) &&
                RebuildsAlone(TimelineAt(timeline, rows, calls.starts, k), rows, calls.starts[k])
  {
    if Serve(timeline, rows, limit, before, now, calls) == IndexPanic {
      var k := DecidingStart(timeline, rows, limit, before, now, calls, 0);
      DecidedAt(timeline, rows, limit, before, now, calls, k);
    }
    if k: nat :| Reached(timeline, rows, calls.starts, k) && RebuildsAlone(TimelineAt(timeline, rows, calls.starts, k), rows, calls.starts[k]) {
      DecidedAt(timeline, rows, limit, before, now, calls, k);
    }
  }

  /** With the breaker open at either read, or a cold request, a working database answers with
      the newest rows below the cursor, whatever the timeline holds. */
  lemma FallbackIsPage(timeline: ZSet, rows: set<Video>, limit: nat, before: Option<int>, now: int, calls: Calls, k: nat)
    requires ValidRows(rows) && limit >= 1 && Reached(timeline, rows, calls.starts, k)
    requires var z := TimelineAt(timeline, rows, calls.starts, k);
             FallsBack(z, before, now, calls.starts[k], calls) && !FailsAt(z, before, now, calls.starts[k], calls)
    ensures var r := Serve(timeline, rows, limit, before, now, calls);
            r.Page? && NewestPage(rows, limit, before, r.videos) && WellMarked(r, limit)
  {
    ServeFrom(timeline, rows, limit, before, now, calls, k);
    FirstFallsBack(TimelineAt(timeline, rows, calls.starts, k), rows, limit, before, now, calls.(starts := calls.starts[k..]));
    ListLatestIsNewestPage(rows, limit, before);
  }

  /** Every page says where the next one begins. */
  lemma PagesAreMarked(timeline: ZSet, rows: set<Video>, limit: nat, before: Option<int>, now: int, calls: Calls)
    requires ValidRows(rows) && limit >= 1
    ensures WellMarked(Serve(timeline, rows, limit, before, now, calls), limit)
  {
    if calls.starts != [] && Serve(timeline, rows, limit, before, now, calls) != Unfinished {
      var k := DecidingStart(timeline, rows, limit, before, now, calls, 0);
      DecidedAt(timeline, rows, limit, before, now, calls, k);
    }
  }

  // ---------- the timeline it leaves ----------

  /** A rebuild of the k-th start writes the timeline. */
  ghost predicate Refills(timeline: ZSet, rows: set<Video>, starts: seq<Start>, k: nat)
    requires ValidRows(rows)
  {
    && Reached(timeline, rows, starts, k) && TimelineAt(timeline, rows, starts, k) == map[] && rows != {}
    && starts[k].tail.ReadOk? && starts[k].queryOk && starts[k].added
  }

  lemma {:induction false} TimelineAfterFrom(timeline: ZSet, rows: set<Video>, starts: seq<Start>, k: nat)
    requires ValidRows(rows) && Reached(timeline, rows, starts, k)
    ensures TimelineAfter(timeline, rows, starts) == TimelineAfter(TimelineAt(timeline, rows, starts, k), rows, starts[k..])
  {
    if k == 0 {
      assert starts[0..] == starts;
    } else {
      ReachedBefore(timeline, rows, starts, k);
      TimelineAfterFrom(timeline, rows, starts, k - 1);
      assert starts[k - 1..][0] == starts[k - 1] && starts[k - 1..][1..] == starts[k..];
    }
  }

  /** The request leaves the timeline as it was, unless one of its rebuilds writes it: then it
      is the newest 1000 rows. */
  lemma TimelineAfterExactly(timeline: ZSet, rows: set<Video>, starts: seq<Start>)
    requires ValidRows(rows)
    ensures TimelineAfter(timeline, rows, starts) ==
              if exists k: nat :: Refills(timeline, rows, starts, k) then Rebuilt(rows) else timeline
  {
    if k: nat :| Refills(timeline, rows, starts, k) {
      TimelineAfterFrom(timeline, rows, starts, k);
      RebuiltNonEmpty(rows);
    } else if starts != [] {
      LastIsUnwritten(timeline, rows, starts, 0);
    }
  }

  lemma {:induction false} LastIsUnwritten(timeline: ZSet, rows: set<Video>, starts: seq<Start>, k: nat)
    requires ValidRows(rows) && Reached(timeline, rows, starts, k) && forall i: nat :: !Refills(timeline, rows, starts, i)
    requires TimelineAt(timeline, rows, starts, k) == timeline
    ensures TimelineAfter(timeline, rows, starts) == timeline
    decreases |starts| - k
  {
    TimelineAfterFrom(timeline, rows, starts, k);
    var rest := starts[k..];
    assert rest[0] == starts[k] && rest[1..] == starts[k + 1..];
    assert !Refills(timeline, rows, starts, k);
    if GoesOn(timeline, rows, starts[k]) {
      ReachedNext(timeline, rows, starts, k);
      if k + 1 < |starts| { LastIsUnwritten(timeline, rows, starts, k + 1); }
    }
  }
}
