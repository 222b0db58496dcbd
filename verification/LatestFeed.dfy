/** `ListLatest`: the newest videos, served from the bounded timeline sorted set with the
    database behind it: the request as a function of its calls, and the service that computes it. */
module LatestFeed {
  import opened Wrappers
  import opened Collections
  import opened Decimal
  import opened Zset
  import opened BoundedZset
  import opened FeedTable
  import opened KeysetPages
  import VideoLookup

  // ---------- the hot read ----------

  /** Members that parse, as ids, in order. */
  function ParseIds(ms: seq<Member>): seq<nat>
  {
    if ms == [] then []
    else
      var id := ParseUint(ms[|ms| - 1]);
      ParseIds(ms[..|ms| - 1]) + if id.Some? then [id.value] else []
  }

  /** `ids` are, in order, the numbers of exactly those members that parse. */
  ghost predicate IdsOf(ms: seq<Member>, ids: seq<nat>) { exists ks :: IdsAt(ms, ids, ks) }

  ghost predicate IdsAt(ms: seq<Member>, ids: seq<nat>, ks: seq<nat>)
  {
    && |ids| == |ks| && (forall i, j :: 0 <= i < j < |ks| ==> ks[i] < ks[j])
    && (forall k: nat :: k in ks <==> k < |ms| && ParseUint(ms[k]).Some?)
    && forall i :: 0 <= i < |ids| ==> ks[i] in ks && ParseUint(ms[ks[i]]) == Some(ids[i])
  }

  lemma {:induction false} ParseIdsAt(ms: seq<Member>) returns (ks: seq<nat>)
    ensures IdsAt(ms, ParseIds(ms), ks)
    decreases |ms|
  {
    ks := [];
    if ms != [] {
      var before, m := ms[..|ms| - 1], ms[|ms| - 1];
      ks := ParseIdsAt(before);
      IdsMore(before, ParseIds(before), ks, m);
      assert ms == before + [m];
      if ParseUint(m).Some? { ks := ks + [|before|]; }
    }
  }

  lemma IdsMore(ms: seq<Member>, ids: seq<nat>, ks: seq<nat>, m: Member)
    requires IdsAt(ms, ids, ks)
    ensures ParseUint(m).None? ==> IdsAt(ms + [m], ids, ks)
    ensures ParseUint(m).Some? ==> IdsAt(ms + [m], ids + [ParseUint(m).value], ks + [|ms|])
  {
    var more := if ParseUint(m).Some? then ks + [|ms|] else ks;
    forall k: nat ensures k in more <==> k < |ms + [m]| && ParseUint((ms + [m])[k]).Some? {
      assert k in more <==> k in ks || (ParseUint(m).Some? && k == |ms|);
      if k < |ms| { assert (ms + [m])[k] == ms[k]; }
    }
    forall i, j | 0 <= i < j < |more| ensures more[i] < more[j] {
      if j == |ks| { assert ks[i] in ks; }
    }
    forall i | 0 <= i < |ids| ensures more[i] in more && ParseUint((ms + [m])[more[i]]) == Some(ids[i]) { assert ks[i] in ks; }
  }

  lemma ParseIdsStep(ms: seq<Member>, i: nat)
    requires i < |ms|
    ensures ParseIds(ms[..i + 1]) == ParseIds(ms[..i]) + if ParseUint(ms[i]).Some? then [ParseUint(ms[i]).value] else []
  {
    assert ms[..i + 1][..i] == ms[..i];
  }

  function Bound(before: Option<int>): ScoreBound
  {
    if before.None? then PlusInf else AtMost(before.value - 1)
  }

  /** The rows behind the newest `limit` timeline members below the cursor. */
  function HotRows(timeline: ZSet, rows: set<Video>, limit: nat, before: Option<int>): seq<Video>
    requires ValidRows(rows)
  {
    RowsInOrder(rows, ParseIds(ZRevRangeByScore(timeline, Bound(before), limit)))
  }

  /** The cursor of the stitched query: the last hot row, or the request's own cursor. */
  function StitchFrom(base: seq<Video>, before: Option<int>): Option<int>
  {
    if base == [] then before else Some(base[|base| - 1].createTime)
  }

  /** Hot rows that fall short of the limit are completed from the database. A failed stitch
      query is ignored. */
  function Stitched(base: seq<Video>, rows: set<Video>, limit: nat, before: Option<int>, stitchOk: bool): seq<Video>
    requires ValidRows(rows)
  {
    if |base| < limit && stitchOk then base + ListLatest(rows, limit - |base|, StitchFrom(base, before)) else base
  }

  function RequestTime(before: Option<int>, now: int): int { if before.Some? then before.value else now }

  /** The rows of the response, given a non-empty timeline and no failed call. */
  function ServeRows(timeline: ZSet, rows: set<Video>, limit: nat, before: Option<int>, now: int, stitchOk: bool): seq<Video>
    requires ValidRows(rows) && timeline != map[]
  {
    if RequestTime(before, now) <= LowestScore(timeline) then ListLatest(rows, limit, before)
    else Stitched(HotRows(timeline, rows, limit, before), rows, limit, before, stitchOk)
  }

  // ---------- the service ----------

  datatype Read = ReadOk | BreakerOpen | ReadError

  /** Unfinished is a request that is about to start over once more. */
  datatype Response = Page(videos: seq<Video>, nextTime: int, hasMore: bool) | Failed | IndexPanic | Unfinished

  function PageOf(videos: seq<Video>, limit: nat): Response
  {
    Page(videos, if videos == [] then 0 else videos[|videos| - 1].createTime, |videos| == limit)
  }

  /** The timeline a rebuild writes: the newest 1000 rows. */
  function Rebuilt(rows: set<Video>): ZSet
    requires ValidRows(rows)
  {
    AddRows(map[], ListLatest(rows, TIMELINE_CAP, None))
  }

  function AddRows(z: ZSet, vs: seq<Video>): ZSet
  {
    if vs == [] then z
    else ZAdd(AddRows(z, vs[..|vs| - 1]), FormatUint(vs[|vs| - 1].id), vs[|vs| - 1].createTime)
  }

  /** A request starts over after a shared rebuild. One start: the read of the timeline's tail
      and, should the timeline be empty, the rebuild's query, whether its ZADD is applied (no
      error of it is looked at), and what singleflight reports. */
  datatype Start = Start(tail: Read, queryOk: bool, added: bool, shared: bool)

  /** Outcomes of the calls one request makes to Redis and MySQL, and the ids whose own lookup
      fails: GetVideoByIDs leaves them out and reports no error. */
  datatype Calls = Calls(starts: seq<Start>, coldOk: bool, hot: Read, lost: set<nat>, stitchOk: bool, dbOk: bool)

  function FromDB(rows: set<Video>, limit: nat, before: Option<int>, dbOk: bool): Response
    requires ValidRows(rows)
  {
    if dbOk then PageOf(ListLatest(rows, limit, before), limit) else Failed
  }

  /** The hot rows whose lookups succeed. */
  function FoundRows(timeline: ZSet, rows: set<Video>, lost: set<nat>, limit: nat, before: Option<int>): seq<Video>
    requires ValidRows(rows)
  {
    RowsInOrder(rows, VideoLookup.Kept(ParseIds(ZRevRangeByScore(timeline, Bound(before), limit)), lost))
  }

  /** The answer once the timeline has entries. */
  function ServeHot(timeline: ZSet, rows: set<Video>, limit: nat, before: Option<int>, now: int, calls: Calls): Response
    requires ValidRows(rows) && timeline != map[]
  {
    if RequestTime(before, now) <= LowestScore(timeline) then FromDB(rows, limit, before, calls.coldOk)
    else if calls.hot.BreakerOpen? then FromDB(rows, limit, before, calls.dbOk)
    else if calls.hot.ReadError? then Failed
    else PageOf(Stitched(FoundRows(timeline, rows, calls.lost, limit, before), rows, limit, before, calls.stitchOk), limit)
  }

  /** The answer to a request. The leader of an unshared rebuild goes on to index the empty
      read it started from; a shared rebuild starts the request over. */
  function Serve(timeline: ZSet, rows: set<Video>, limit: nat, before: Option<int>, now: int, calls: Calls): Response
    requires ValidRows(rows)
    decreases |calls.starts|
  {
    if calls.starts == [] then Unfinished
    else
      var s := calls.starts[0];
      if s.tail.BreakerOpen? then FromDB(rows, limit, before, calls.dbOk)
      else if s.tail.ReadError? then Failed
      else if timeline != map[] then ServeHot(timeline, rows, limit, before, now, calls)
      else if !s.queryOk then Failed
      else if rows == {} then Page([], 0, false)
      else if !s.shared then IndexPanic
      else Serve(Refilled(rows, s), rows, limit, before, now, calls.(starts := calls.starts[1..]))
  }

  /** What a rebuild makes of an empty timeline. */
  function Refilled(rows: set<Video>, s: Start): ZSet
    requires ValidRows(rows)
  {
    if s.added then Rebuilt(rows) else map[]
  }

  /** The timeline a request leaves. */
  function TimelineAfter(timeline: ZSet, rows: set<Video>, starts: seq<Start>): ZSet
    requires ValidRows(rows)
    decreases |starts|
  {
    if starts == [] || timeline != map[] || rows == {} || !starts[0].tail.ReadOk? || !starts[0].queryOk then timeline
    else if starts[0].shared then TimelineAfter(Refilled(rows, starts[0]), rows, starts[1..])
    else Refilled(rows, starts[0])
  }

  lemma RebuiltNonEmpty(rows: set<Video>)
    requires ValidRows(rows) && rows != {}
    ensures ListLatest(rows, TIMELINE_CAP, None) != [] && Rebuilt(rows) != map[]
  {
    assert OlderThan(rows, None) == rows;
    var vs := ListLatest(rows, TIMELINE_CAP, None);
    assert |SortDesc(ByTime, rows)| > 0;
    assert FormatUint(vs[|vs| - 1].id) in AddRows(map[], vs);
  }

  /** What a database answer means. */
  lemma FromDBFacts(rows: set<Video>, limit: nat, before: Option<int>)
    requires ValidRows(rows)
    ensures var r := FromDB(rows, limit, before, true);
            && r.Page? && NewestPage(rows, limit, before, r.videos)
            && (!r.hasMore ==> forall v :: v in OlderThan(rows, before) ==> v in r.videos)
            && (r.hasMore && limit >= 1 && DistinctTimes(rows) ==>
                  Continues(rows, before, r.videos) && r.nextTime == r.videos[|r.videos| - 1].createTime)
  {
    PageFacts(rows, limit, before);
  }

  lemma PageFacts(rows: set<Video>, limit: nat, before: Option<int>)
    requires ValidRows(rows)
    ensures var page := ListLatest(rows, limit, before);
            && NewestPage(rows, limit, before, page)
            && (|page| != limit ==> forall v :: v in OlderThan(rows, before) ==> v in page)
            && (|page| == limit >= 1 && DistinctTimes(rows) ==> Continues(rows, before, page))
  {
    var page := ListLatest(rows, limit, before);
    ListLatestIsNewestPage(rows, limit, before);
    if |page| == limit >= 1 && DistinctTimes(rows) { DistinctKeepsRows(rows, limit, before, page); }
  }

  class FeedService {
    /** feed:global_timeline. */
    var timeline: ZSet

    constructor (timeline: ZSet)
      ensures this.timeline == timeline
    {
      this.timeline := timeline;
    }

    /** The newest rows below the cursor; without HasMore there are no others, and with it
        NextTime selects exactly the others, given distinct times. */
    method FetchFromDB(rows: set<Video>, limit: nat, before: Option<int>, dbOk: bool) returns (r: Response)
      requires ValidRows(rows)
      ensures r == FromDB(rows, limit, before, dbOk)
      ensures if dbOk then r.Page? && NewestPage(rows, limit, before, r.videos) else r.Failed?
      ensures r.Page? && !r.hasMore ==> forall v :: v in OlderThan(rows, before) ==> v in r.videos
      ensures r.Page? && r.hasMore && limit >= 1 && DistinctTimes(rows) ==>
                Continues(rows, before, r.videos) && r.nextTime == r.videos[|r.videos| - 1].createTime
    {
      if !dbOk {
        return Failed;
      }
      FromDBFacts(rows, limit, before);
      var videos := ListLatest(rows, limit, before);
      var nextTime := 0;
      if |videos| > 0 {
        nextTime := videos[|videos| - 1].createTime;
      }
      r := Page(videos, nextTime, |videos| == limit);
    }

    /** Refill the timeline from the newest rows with one ZADD, whose error is ignored. */
    method Rebuild(rows: set<Video>, added: bool)
      requires ValidRows(rows) && timeline == map[]
      modifies this
      ensures timeline == if added then Rebuilt(rows) else map[]
    {
      var dbVideos := ListLatest(rows, TIMELINE_CAP, None);
      var elements: ZSet := map[];
      for i := 0 to |dbVideos|
        invariant elements == AddRows(map[], dbVideos[..i])
      {
        assert dbVideos[..i + 1][..i] == dbVideos[..i];
        elements := ZAdd(elements, FormatUint(dbVideos[i].id), dbVideos[i].createTime);
      }
      assert dbVideos[..|dbVideos|] == dbVideos;
      if added {
        timeline := elements;
      }
    }

    method ReadHotIds(limit: nat, before: Option<int>) returns (videoIDs: seq<nat>)
      ensures videoIDs == ParseIds(ZRevRangeByScore(timeline, Bound(before), limit))
      ensures IdsOf(ZRevRangeByScore(timeline, if before.None? then PlusInf else AtMost(before.value - 1), limit), videoIDs)
    {
      var maxScore := PlusInf;
      if before.Some? {
        maxScore := AtMost(before.value - 1);
      }
      var members := ZRevRangeByScore(timeline, maxScore, limit);
      videoIDs := ParseMembers(members);
    }

    static method ParseMembers(members: seq<Member>) returns (videoIDs: seq<nat>)
      ensures videoIDs == ParseIds(members) && IdsOf(members, videoIDs)
    {
      videoIDs := [];
      for i := 0 to |members|
        invariant videoIDs == ParseIds(members[..i])
      {
        ParseIdsStep(members, i);
        var id := ParseUint(members[i]);
        if id.Some? {
          videoIDs := videoIDs + [id.value];
        }
      }
      assert members[..|members|] == members;
      ghost var ks := ParseIdsAt(members);
    }

    method Stitch(base: seq<Video>, rows: set<Video>, limit: nat, before: Option<int>, stitchOk: bool) returns (videos: seq<Video>)
      requires ValidRows(rows)
      ensures videos == Stitched(base, rows, limit, before, stitchOk)
    {
      videos := base;
      if |videos| < limit {
        var remainLimit := limit - |videos|;
        var oldMax := before;
        if |videos| != 0 {
          oldMax := Some(videos[|videos| - 1].createTime);
        }
        if stitchOk {
          videos := videos + ListLatest(rows, remainLimit, oldMax);
        }
      }
    }

    /** The hot branch: timeline members first, the database for what is missing. */
    method HotQuery(rows: set<Video>, limit: nat, before: Option<int>, calls: Calls) returns (r: Response)
      requires ValidRows(rows)
      ensures r == PageOf(Stitched(FoundRows(timeline, rows, calls.lost, limit, before), rows, limit, before, calls.stitchOk), limit)
    {
      var videoIDs := ReadHotIds(limit, before);
      var baseVideos: seq<Video> := [];
      if |videoIDs| > 0 {
        baseVideos := RowsInOrder(rows, VideoLookup.Kept(videoIDs, calls.lost));
      }
      baseVideos := Stitch(baseVideos, rows, limit, before, calls.stitchOk);
      r := PageOf(baseVideos, limit);
    }

    /** The request against a timeline known to be non-empty. */
    method ReadTimeline(rows: set<Video>, limit: nat, before: Option<int>, now: int, calls: Calls) returns (r: Response)
      requires ValidRows(rows) && timeline != map[]
      ensures r == ServeHot(timeline, rows, limit, before, now, calls)
    {
      var watermark := LowestScore(timeline);
      var reqTime := now;
      if before.Some? {
        reqTime := before.value;
      }
      if reqTime <= watermark {
        r := FetchFromDB(rows, limit, before, calls.coldOk);
        return;
      }
      if calls.hot.BreakerOpen? {
        r := FetchFromDB(rows, limit, before, calls.dbOk);
        return;
      }
      if calls.hot.ReadError? {
        return Failed;
      }
      r := HotQuery(rows, limit, before, calls);
    }

    /** The whole request, with every start it makes. */
    method ListLatestVideos(rows: set<Video>, limit: nat, before: Option<int>, now: int, calls: Calls) returns (r: Response)
      requires ValidRows(rows)
      modifies this
      ensures r == Serve(old(timeline), rows, limit, before, now, calls)
      ensures timeline == TimelineAfter(old(timeline), rows, calls.starts)
      decreases |calls.starts|
    {
      if calls.starts == [] {
        return Unfinished;
      }
      var start := calls.starts[0];
      if start.tail.BreakerOpen? {
        r := FetchFromDB(rows, limit, before, calls.dbOk);
        return;
      }
      if start.tail.ReadError? {
        return Failed;
      }
      if timeline == map[] {
        if !start.queryOk {
          return Failed;
        }
        if rows == {} {
          return Page([], 0, false);
        }
        Rebuild(rows, start.added);
        if start.shared {
          r := ListLatestVideos(rows, limit, before, now, calls.(starts := calls.starts[1..]));
          return;
        }
        return IndexPanic;
      }
      r := ReadTimeline(rows, limit, before, now, calls);
    }
  }
}
