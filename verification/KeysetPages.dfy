/** Keyset pagination: following the cursors that the service returns walks the whole table. */
module KeysetPages {
  import opened Collections
  import opened Wrappers
  import opened FeedTable

  // ---------- the pages the service returns ----------

  datatype LikesPage = LikesPage(videos: seq<Video>, hasMore: bool, next: Option<LikesCountCursor>)

  function ListLikesCount(rows: set<Video>, limit: nat, cursor: Option<LikesCountCursor>): LikesPage
    requires ValidRows(rows)
  {
    var videos := ListLikesCountWithCursor(rows, limit, cursor);
    LikesPage(videos, |videos| == limit,
      if videos == [] then None
      else Some(LikesCountCursor(videos[|videos| - 1].likesCount, videos[|videos| - 1].id)))
  }

  datatype PopularityPage = PopularityPage(videos: seq<Video>, hasMore: bool, next: PopularityCursor)

  /** The MySQL path of `ListByPopularity`. */
  function ListByPopularityPage(rows: set<Video>, limit: nat, cursor: PopularityCursor): PopularityPage
    requires ValidRows(rows)
  {
    var videos := ListByPopularity(rows, limit, cursor);
    PopularityPage(videos, |videos| == limit,
      if videos == [] then NO_POPULARITY_CURSOR
      else
        var last := videos[|videos| - 1];
        PopularityCursor(last.popularity, Some(last.createTime), last.id))
  }

  // ---------- one page and what is left ----------

  /** The rows strictly behind `last` in the order of `o`. */
  function Behind(o: Order, rows: set<Video>, last: Video): set<Video>
  {
    set v | v in rows && Precedes(o, last, v)
  }

  /** The rows a cursor leaves: whatever comes behind one of them is left as well. */
  predicate Cut(o: Order, rows: set<Video>, cut: set<Video>)
  {
    cut <= rows && forall v, w :: v in cut && w in rows && Precedes(o, v, w) ==> w in cut
  }

  /** Behind the last row of a page lies exactly the rest of the list. */
  lemma BehindPage(o: Order, rows: set<Video>, cut: set<Video>, s: seq<Video>, n: nat)
    requires Cut(o, rows, cut) && Lists(o, s, cut) && 1 <= n <= |s|
    ensures Lists(o, s[n..], Behind(o, rows, s[n - 1]))
    ensures Behind(o, rows, s[n - 1]) < cut
  {
    var last, rest, left := s[n - 1], s[n..], Behind(o, rows, s[n - 1]);
    assert last in cut;
    forall v | v in rest ensures v in left {
      var i :| 0 <= i < |rest| && rest[i] == v;
      assert v == s[n + i];
    }
    forall v | v in left ensures v in rest && v in cut && v != last {
      assert v in s;
      var i :| 0 <= i < |s| && s[i] == v;
      assert i < n - 1 ==> Precedes(o, s[i], last);
      assert rest[i - n] == v;
    }
    forall i, j | 0 <= i < j < |rest| ensures Precedes(o, rest[i], rest[j]) {
      assert Precedes(o, s[n + i], s[n + j]);
    }
  }

  /** A full page and the rows behind its last one make up what the page was cut from. */
  lemma PageSplits(o: Order, rows: set<Video>, cut: set<Video>, s: seq<Video>, limit: nat)
    requires ValidRows(rows) && Cut(o, rows, cut) && Lists(o, s, cut) && 1 <= limit <= |s|
    ensures s[limit - 1] in cut && |Behind(o, rows, s[limit - 1])| < |cut|
    ensures s == s[..limit] + SortDesc(o, Behind(o, rows, s[limit - 1]))
  {
    var left := Behind(o, rows, s[limit - 1]);
    assert s[limit - 1] in s;
    BehindPage(o, rows, cut, s, limit);
    SubsetSize(left, cut);
    RestIsSorted(o, rows, left, s, limit);
  }

  lemma RestIsSorted(o: Order, rows: set<Video>, left: set<Video>, s: seq<Video>, n: nat)
    requires ValidRows(rows) && left <= rows && n <= |s| && Lists(o, s[n..], left)
    ensures s == s[..n] + SortDesc(o, left)
  {
    SortDescUnique(o, left, s[n..]);
  }

  // ---------- the cursor by time alone ----------

  /** Any answer the query by time may give: the newest rows below the cursor, newest first,
      rows of one millisecond in any order. */
  ghost predicate NewestPage(rows: set<Video>, limit: nat, before: Option<int>, page: seq<Video>)
  {
    && Distinct(page) && |page| == (if |OlderThan(rows, before)| < limit then |OlderThan(rows, before)| else limit)
    && (forall v :: v in page ==> v in OlderThan(rows, before))
    && (forall i, j :: 0 <= i < j < |page| ==> page[i].createTime >= page[j].createTime)
    && (forall i, w :: 0 <= i < |page| && w in OlderThan(rows, before) && w !in page ==> page[i].createTime >= w.createTime)
  }

  lemma ListLatestIsNewestPage(rows: set<Video>, limit: nat, before: Option<int>)
    requires ValidRows(rows)
    ensures NewestPage(rows, limit, before, ListLatest(rows, limit, before))
  {
    var s, page := SortDesc(ByTime, OlderThan(rows, before)), ListLatest(rows, limit, before);
    SortDescInOrder(ByTime, OlderThan(rows, before));
    assert forall i :: 0 <= i < |page| ==> page[i] == s[i];
    forall i, j | 0 <= i < j < |s| ensures s[i] != s[j] && s[i].createTime >= s[j].createTime {
      assert Precedes(ByTime, s[i], s[j]);
    }
    forall i, w | 0 <= i < |page| && w in OlderThan(rows, before) && w !in page ensures page[i].createTime >= w.createTime {
      var j :| 0 <= j < |s| && s[j] == w;
      TakeKeeps(s, limit, j);
      assert s[i].createTime >= s[j].createTime;
    }
  }

  /** A row below the cursor that a page leaves out: the page is full and all of it as new. */
  lemma LeftOut(rows: set<Video>, limit: nat, before: Option<int>, page: seq<Video>, v: Video)
    requires NewestPage(rows, limit, before, page) && v in OlderThan(rows, before) && v !in page
    ensures |page| == limit && forall i :: 0 <= i < |page| ==> page[i].createTime >= v.createTime
  {
    DistinctSize(page);
    SubsetSize(Elements(page), OlderThan(rows, before));
    assert v !in Elements(page);
  }

  /** The rows below the cursor are those on the page and those its last creation time still
      selects. */
  predicate Continues(rows: set<Video>, before: Option<int>, page: seq<Video>)
  {
    page != [] && OlderThan(rows, before) == Elements(page) + OlderThan(rows, Some(page[|page| - 1].createTime))
  }

  /** So it is for every limit and cursor, and whatever order ties come in. */
  ghost predicate NextTimeKeepsRows(rows: set<Video>)
  {
    forall limit: nat, before, page ::
      NewestPage(rows, limit, before, page) && 1 <= limit == |page| ==> Continues(rows, before, page)
  }

  lemma DistinctKeepsRows(rows: set<Video>, limit: nat, before: Option<int>, page: seq<Video>)
    requires DistinctTimes(rows) && NewestPage(rows, limit, before, page) && 1 <= limit == |page|
    ensures Continues(rows, before, page)
  {
    var last := page[limit - 1];
    assert last in page;
    forall w | w in OlderThan(rows, before) && w !in page ensures w.createTime < last.createTime { }
  }

  /** A page that ends on one of two tied rows loses the other. */
  lemma TieIsLost(rows: set<Video>, v: Video, w: Video) returns (limit: nat)
    requires ValidRows(rows) && v in rows && w in rows && v != w && v.createTime == w.createTime && Precedes(ByTime, v, w)
    ensures var page := ListLatest(rows, limit, None); 1 <= limit == |page| && w !in page && page[limit - 1] == v
  {
    assert OlderThan(rows, None) == rows;
    var s := SortDesc(ByTime, rows);
    SortDescInOrder(ByTime, rows);
    var i :| 0 <= i < |s| && s[i] == v;
    limit := i + 1;
    forall j | 0 <= j <= i ensures s[j] != w { assert j < i ==> Precedes(ByTime, s[j], v); }
  }

  lemma TieBreaksCursor(rows: set<Video>, v: Video, w: Video)
    requires ValidRows(rows) && v in rows && w in rows && v != w && v.createTime == w.createTime && Precedes(ByTime, v, w)
    ensures !NextTimeKeepsRows(rows)
  {
    var limit := TieIsLost(rows, v, w);
    ListLatestIsNewestPage(rows, limit, None);
    EndsOnTie(rows, None, ListLatest(rows, limit, None), w);
  }

  lemma EndsOnTie(rows: set<Video>, before: Option<int>, page: seq<Video>, w: Video)
    requires page != [] && w in OlderThan(rows, before) && w !in page && w.createTime == page[|page| - 1].createTime
    ensures !Continues(rows, before, page)
  {
  }

  /** The time cursor alone loses nothing exactly when no two rows share a millisecond. */
  lemma NextTimeExactly(rows: set<Video>)
    requires ValidRows(rows)
    ensures NextTimeKeepsRows(rows) <==> DistinctTimes(rows)
  {
    if DistinctTimes(rows) {
      forall limit: nat, before, page | NewestPage(rows, limit, before, page) && 1 <= limit == |page|
        ensures Continues(rows, before, page)
      {
        DistinctKeepsRows(rows, limit, before, page);
      }
    } else {
      var v, w :| v in rows && w in rows && v.createTime == w.createTime && v != w;
      PrecedesTotal(ByTime, v, w);
      if Precedes(ByTime, v, w) { TieBreaksCursor(rows, v, w); } else { TieBreaksCursor(rows, w, v); }
    }
  }

  /** A popularity cursor without a time or an id is none at all: the first page is served. */
  lemma PartialCursorIsNone(rows: set<Video>, limit: nat, c: PopularityCursor)
    requires ValidRows(rows) && (c.time.None? || c.id == 0)
    ensures ListByPopularity(rows, limit, c) == Take(SortDesc(ByPopularity, rows), limit)
  {
    assert BelowPopularityCursor(rows, c) == rows;
  }

  /** With distinct times the page and the rest of the list make up the list. */
  lemma LatestProgress(rows: set<Video>, limit: nat, before: Option<int>)
    requires ValidRows(rows) && DistinctTimes(rows) && limit >= 1 && |ListLatest(rows, limit, before)| == limit
    ensures var page := ListLatest(rows, limit, before);
            var next := Some(page[limit - 1].createTime);
            && |OlderThan(rows, next)| < |OlderThan(rows, before)|
            && SortDesc(ByTime, OlderThan(rows, before)) == page + SortDesc(ByTime, OlderThan(rows, next))
  {
    var cut := OlderThan(rows, before);
    SortDescLists(ByTime, cut);
    TimePageSplits(rows, cut, before, SortDesc(ByTime, cut), limit);
  }

  lemma TimePageSplits(rows: set<Video>, cut: set<Video>, before: Option<int>, s: seq<Video>, limit: nat)
    requires ValidRows(rows) && DistinctTimes(rows) && cut == OlderThan(rows, before)
    requires Lists(ByTime, s, cut) && 1 <= limit <= |s|
    ensures |OlderThan(rows, Some(s[limit - 1].createTime))| < |cut|
    ensures s == s[..limit] + SortDesc(ByTime, OlderThan(rows, Some(s[limit - 1].createTime)))
  {
    PageSplits(ByTime, rows, cut, s, limit);
    BehindIsOlder(rows, s[limit - 1]);
  }

  lemma BehindIsOlder(rows: set<Video>, last: Video)
    requires DistinctTimes(rows) && last in rows
    ensures Behind(ByTime, rows, last) == OlderThan(rows, Some(last.createTime))
  {
  }

  // ---------- walking all pages ----------

  /** The pages a client collects from `cursor` on, until HasMore is false. */
  function LikesWalk(rows: set<Video>, limit: nat, cursor: Option<LikesCountCursor>): seq<Video>
    requires ValidRows(rows) && limit >= 1
    decreases |BelowLikesCursor(rows, cursor)|
  {
    var page := ListLikesCount(rows, limit, cursor);
    if page.hasMore then
      LikesProgress(rows, limit, cursor);
      page.videos + LikesWalk(rows, limit, page.next)
    else page.videos
  }

  lemma LikesProgress(rows: set<Video>, limit: nat, cursor: Option<LikesCountCursor>)
    requires ValidRows(rows) && limit >= 1 && ListLikesCount(rows, limit, cursor).hasMore
    ensures var next := ListLikesCount(rows, limit, cursor).next;
            && |BelowLikesCursor(rows, next)| < |BelowLikesCursor(rows, cursor)|
            && SortDesc(ByLikes, BelowLikesCursor(rows, cursor)) ==
                 ListLikesCount(rows, limit, cursor).videos + SortDesc(ByLikes, BelowLikesCursor(rows, next))
  {
    var cut := BelowLikesCursor(rows, cursor);
    assert Cut(ByLikes, rows, cut);
    SortDescLists(ByLikes, cut);
    PageSplits(ByLikes, rows, cut, SortDesc(ByLikes, cut), limit);
    LikesNextIsBehind(rows, limit, cursor);
  }

  lemma LikesNextIsBehind(rows: set<Video>, limit: nat, cursor: Option<LikesCountCursor>)
    requires ValidRows(rows) && 1 <= limit <= |BelowLikesCursor(rows, cursor)|
    ensures BelowLikesCursor(rows, ListLikesCount(rows, limit, cursor).next) ==
              Behind(ByLikes, rows, SortDesc(ByLikes, BelowLikesCursor(rows, cursor))[limit - 1])
  {
  }

  /** Following the likes cursors yields the whole table in (likes_count, id) order: no row
      skipped, none repeated, whatever the page size. */
  lemma {:induction false} LikesWalkIsTable(rows: set<Video>, limit: nat, cursor: Option<LikesCountCursor>)
    requires ValidRows(rows) && limit >= 1
    ensures LikesWalk(rows, limit, cursor) == SortDesc(ByLikes, BelowLikesCursor(rows, cursor))
    ensures cursor.None? ==> LikesWalk(rows, limit, cursor) == SortDesc(ByLikes, rows)
    decreases |BelowLikesCursor(rows, cursor)|
  {
    if ListLikesCount(rows, limit, cursor).hasMore {
      LikesProgress(rows, limit, cursor);
      LikesWalkIsTable(rows, limit, ListLikesCount(rows, limit, cursor).next);
    }
    if cursor.None? { assert BelowLikesCursor(rows, cursor) == rows; }
  }

  function PopularityWalk(rows: set<Video>, limit: nat, cursor: PopularityCursor): seq<Video>
    requires ValidRows(rows) && limit >= 1
    decreases |BelowPopularityCursor(rows, cursor)|
  {
    var page := ListByPopularityPage(rows, limit, cursor);
    if page.hasMore then
      PopularityProgress(rows, limit, cursor);
      page.videos + PopularityWalk(rows, limit, page.next)
    else page.videos
  }

  lemma PopularityProgress(rows: set<Video>, limit: nat, cursor: PopularityCursor)
    requires ValidRows(rows) && limit >= 1 && ListByPopularityPage(rows, limit, cursor).hasMore
    ensures var next := ListByPopularityPage(rows, limit, cursor).next;
            && |BelowPopularityCursor(rows, next)| < |BelowPopularityCursor(rows, cursor)|
            && SortDesc(ByPopularity, BelowPopularityCursor(rows, cursor)) ==
                 ListByPopularityPage(rows, limit, cursor).videos + SortDesc(ByPopularity, BelowPopularityCursor(rows, next))
  {
    var cut := BelowPopularityCursor(rows, cursor);
    assert Cut(ByPopularity, rows, cut);
    SortDescLists(ByPopularity, cut);
    PageSplits(ByPopularity, rows, cut, SortDesc(ByPopularity, cut), limit);
    PopularityNextIsBehind(rows, limit, cursor);
  }

  lemma PopularityNextIsBehind(rows: set<Video>, limit: nat, cursor: PopularityCursor)
    requires ValidRows(rows) && 1 <= limit <= |BelowPopularityCursor(rows, cursor)|
    ensures BelowPopularityCursor(rows, ListByPopularityPage(rows, limit, cursor).next) ==
              Behind(ByPopularity, rows, SortDesc(ByPopularity, BelowPopularityCursor(rows, cursor))[limit - 1])
  {
    var s := SortDesc(ByPopularity, BelowPopularityCursor(rows, cursor));
    assert s[limit - 1] in s && s[limit - 1] in rows;
    PopularityCursorOf(rows, s[limit - 1]);
  }

  lemma PopularityCursorOf(rows: set<Video>, v: Video)
    requires ValidRows(rows) && v in rows
    ensures BelowPopularityCursor(rows, PopularityCursor(v.popularity, Some(v.createTime), v.id)) == Behind(ByPopularity, rows, v)
  {
  }

  /** The same for the three-field cursor and (popularity, create_time, id) order. */
  lemma {:induction false} PopularityWalkIsTable(rows: set<Video>, limit: nat, cursor: PopularityCursor)
    requires ValidRows(rows) && limit >= 1
    ensures PopularityWalk(rows, limit, cursor) == SortDesc(ByPopularity, BelowPopularityCursor(rows, cursor))
    ensures cursor == NO_POPULARITY_CURSOR ==> PopularityWalk(rows, limit, cursor) == SortDesc(ByPopularity, rows)
    decreases |BelowPopularityCursor(rows, cursor)|
  {
    if ListByPopularityPage(rows, limit, cursor).hasMore {
      PopularityProgress(rows, limit, cursor);
      PopularityWalkIsTable(rows, limit, ListByPopularityPage(rows, limit, cursor).next);
    }
    if cursor == NO_POPULARITY_CURSOR { assert BelowPopularityCursor(rows, cursor) == rows; }
  }
}
