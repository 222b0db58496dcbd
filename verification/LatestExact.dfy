/** When does the timeline-backed `ListLatest` return exactly the database's page? For every
    limit up to a cap and every cursor, through the cold, hot and stitched branches alike, if
    and only if each live entry older than a missing row lies too deep below it to be read. */
module LatestExact {
  import opened Collections
  import opened Wrappers
  import opened Decimal
  import opened Zset
  import opened BoundedZset
  import opened FeedTable
  import opened LatestFeed
  import opened KeysetPages

  ghost predicate IsIdMember(m: Member) { exists id: nat :: id < UINT_LIMIT && m == FormatUint(id) }

  /** Members are decimal ids, and a member whose row exists carries that row's time. Members
      of deleted videos may remain, with any score. */
  ghost predicate GoodTimeline(timeline: ZSet, rows: set<Video>)
  {
    && (forall m :: m in timeline ==> IsIdMember(m))
    && (forall v :: v in rows && FormatUint(v.id) in timeline ==> timeline[FormatUint(v.id)] == v.createTime)
  }

  predicate Live(timeline: ZSet, v: Video) { FormatUint(v.id) in timeline }

  /** Every row newer than some live entry is itself in the timeline. */
  ghost predicate LiveCover(timeline: ZSet, rows: set<Video>)
  {
    forall v, u :: v in rows && u in rows && Live(timeline, u) && u.createTime < v.createTime ==> Live(timeline, v)
  }

  // ---------- the rows behind a list of members ----------

  function LiveRows(rows: set<Video>, ms: seq<Member>): seq<Video>
    requires ValidRows(rows)
  {
    RowsInOrder(rows, ParseIds(ms))
  }

  lemma LiveRowsStep(rows: set<Video>, ms: seq<Member>, id: nat)
    requires ValidRows(rows) && id < UINT_LIMIT
    ensures LiveRows(rows, ms + [FormatUint(id)]) ==
              LiveRows(rows, ms) + if Exists(rows, id) then [RowOf(rows, id)] else []
  {
    ParseFormatRoundTrip(id);
    assert (ms + [FormatUint(id)])[..|ms|] == ms;
    assert ParseIds(ms + [FormatUint(id)]) == ParseIds(ms) + [id];
    assert (ParseIds(ms) + [id])[..|ParseIds(ms)|] == ParseIds(ms);
  }

  lemma {:induction false} LiveRowsMembers(rows: set<Video>, ms: seq<Member>)
    requires ValidRows(rows)
    requires forall m :: m in ms ==> IsIdMember(m)
    ensures forall v :: v in LiveRows(rows, ms) <==> v in rows && FormatUint(v.id) in ms
    ensures |LiveRows(rows, ms)| <= |ms|
    decreases |ms|
  {
    if ms != [] {
      var before, m := ms[..|ms| - 1], ms[|ms| - 1];
      assert ms == before + [m] && IsIdMember(m);
      LiveRowsMembers(rows, before);
      var id: nat :| id < UINT_LIMIT && m == FormatUint(id);
      LiveRowsStep(rows, before, id);
      forall v | v in rows && FormatUint(v.id) == m ensures v.id == id { FormatInjective(v.id, id); }
    }
  }

  /** Members listed newest first give rows listed newest first. */
  lemma LowerRankedFollows(timeline: ZSet, rows: set<Video>, v: Video, w: Video)
    requires ValidRows(rows) && DistinctTimes(rows) && GoodTimeline(timeline, rows) && v in rows && w in rows
    requires FormatUint(v.id) in timeline && FormatUint(w.id) in timeline && Newer(timeline, FormatUint(v.id), FormatUint(w.id))
    ensures Precedes(ByTime, v, w)
  {
    NewerIrreflexive(timeline, FormatUint(w.id));
    assert v != w;
  }

  lemma {:induction false} LiveRowsInOrder(timeline: ZSet, rows: set<Video>, ms: seq<Member>)
    requires ValidRows(rows) && DistinctTimes(rows) && GoodTimeline(timeline, rows)
    requires forall m :: m in ms ==> m in timeline
    requires forall i, j :: 0 <= i < j < |ms| ==> Newer(timeline, ms[i], ms[j])
    ensures InOrder(ByTime, LiveRows(rows, ms))
    decreases |ms|
  {
    if ms != [] {
      var before, m := ms[..|ms| - 1], ms[|ms| - 1];
      assert ms == before + [m] && m in timeline && IsIdMember(m);
      LiveRowsInOrder(timeline, rows, before);
      LiveRowsMembers(rows, before);
      var id: nat :| id < UINT_LIMIT && m == FormatUint(id);
      LiveRowsStep(rows, before, id);
      if Exists(rows, id) {
        var w := RowOf(rows, id);
        forall v | v in LiveRows(rows, before) ensures Precedes(ByTime, v, w) {
          var i :| 0 <= i < |before| && before[i] == FormatUint(v.id);
          assert Newer(timeline, ms[i], ms[|ms| - 1]);
          LowerRankedFollows(timeline, rows, v, w);
        }
      }
    }
  }

  // ---------- the hot page ----------

  /** The members read: newest first, below the cursor, and closed upwards. */
  ghost predicate HotMembers(timeline: ZSet, before: Option<int>, limit: nat, ms: seq<Member>)
  {
    && |ms| <= limit
    && (forall m :: m in ms ==> m in timeline && Bound(before).Admits(timeline[m]))
    && (forall i, j :: 0 <= i < j < |ms| ==> Newer(timeline, ms[i], ms[j]))
    && (forall m, j :: 0 <= j < |ms| && m in timeline && Bound(before).Admits(timeline[m]) && timeline[m] > timeline[ms[j]] ==> m in ms)
  }

  lemma HigherScoreFirst(z: ZSet, s: seq<Member>, i: nat, j: nat)
    requires Ranked(z, s) && i < |s| && j < |s| && s[i] in z && s[j] in z && z[s[i]] > z[s[j]]
    ensures i < j
  {
  }

  lemma HotMembersRead(timeline: ZSet, before: Option<int>, limit: nat)
    ensures HotMembers(timeline, before, limit, ZRevRangeByScore(timeline, Bound(before), limit))
  {
    var z := UpTo(timeline, Bound(before));
    var d := Descending(z);
    var ms := Take(d, limit);
    forall m | m in ms ensures m in timeline && Bound(before).Admits(timeline[m]) { assert m in d; }
    HotMembersInOrder(timeline, before, limit);
    forall m, j | 0 <= j < |ms| && m in timeline && Bound(before).Admits(timeline[m]) && timeline[m] > timeline[ms[j]]
      ensures m in ms
    {
      assert m in z;
      var i :| 0 <= i < |d| && d[i] == m;
      DescendingIsSorted(z);
      HigherScoreFirst(z, d, i, j);
      assert ms[i] == m;
    }
  }

  lemma BoundedKeepsOrder(timeline: ZSet, before: Option<int>, a: Member, b: Member)
    requires var z := UpTo(timeline, Bound(before)); a in z && b in z && Newer(z, a, b)
    ensures a in timeline && b in timeline && Newer(timeline, a, b)
  {
  }

  lemma HotMembersInOrder(timeline: ZSet, before: Option<int>, limit: nat)
    ensures var ms := ZRevRangeByScore(timeline, Bound(before), limit);
            forall i, j :: 0 <= i < j < |ms| ==> ms[i] in timeline && ms[j] in timeline && Newer(timeline, ms[i], ms[j])
  {
    var d := Descending(UpTo(timeline, Bound(before)));
    var ms := ZRevRangeByScore(timeline, Bound(before), limit);
    DescendingIsSorted(UpTo(timeline, Bound(before)));
    assert |ms| <= |d| && forall i :: 0 <= i < |ms| ==> ms[i] == d[i];
    forall i, j | 0 <= i < j < |ms| ensures ms[i] in timeline && ms[j] in timeline && Newer(timeline, ms[i], ms[j]) {
      assert d[i] in d && d[j] in d;
      BoundedKeepsOrder(timeline, before, d[i], d[j]);
    }
  }

  /** What the hot read returns: rows below the cursor, newest first, and together with a row
      every live row between it and the cursor. */
  ghost predicate HotBase(timeline: ZSet, rows: set<Video>, before: Option<int>, base: seq<Video>)
  {
    && InOrder(ByTime, base)
    && (forall v :: v in base ==> v in OlderThan(rows, before) && Live(timeline, v))
    && (forall v, u :: v in OlderThan(rows, before) && Live(timeline, v) && u in base && v.createTime > u.createTime ==> v in base)
  }

  lemma HotBaseOf(timeline: ZSet, rows: set<Video>, limit: nat, before: Option<int>, ms: seq<Member>)
    requires ValidRows(rows) && DistinctTimes(rows) && GoodTimeline(timeline, rows)
    requires HotMembers(timeline, before, limit, ms)
    ensures HotBase(timeline, rows, before, LiveRows(rows, ms)) && |LiveRows(rows, ms)| <= limit
  {
    LiveRowsMembers(rows, ms);
    LiveRowsInOrder(timeline, rows, ms);
    var base := LiveRows(rows, ms);
    forall v, u | v in OlderThan(rows, before) && Live(timeline, v) && u in base && v.createTime > u.createTime
      ensures v in base
    {
      var j :| 0 <= j < |ms| && ms[j] == FormatUint(u.id);
      assert timeline[FormatUint(v.id)] > timeline[ms[j]];
    }
  }

  lemma HotRowsFacts(timeline: ZSet, rows: set<Video>, limit: nat, before: Option<int>)
    requires ValidRows(rows) && DistinctTimes(rows) && GoodTimeline(timeline, rows)
    ensures HotBase(timeline, rows, before, HotRows(timeline, rows, limit, before))
    ensures |HotRows(timeline, rows, limit, before)| <= limit
  {
    HotMembersRead(timeline, before, limit);
    HotBaseOf(timeline, rows, limit, before, ZRevRangeByScore(timeline, Bound(before), limit));
  }

  lemma LastIsOldest(base: seq<Video>, v: Video)
    requires InOrder(ByTime, base) && v in base
    ensures v == base[|base| - 1] || v.createTime > base[|base| - 1].createTime || v.id > base[|base| - 1].id
    ensures v.createTime >= base[|base| - 1].createTime
  {
    var i :| 0 <= i < |base| && base[i] == v;
    assert i < |base| - 1 ==> Precedes(ByTime, base[i], base[|base| - 1]);
  }

  // ---------- completing the hot rows ----------

  /** With a row also every newer one below the cursor. */
  ghost predicate ClosedAbove(rows: set<Video>, before: Option<int>, base: seq<Video>)
  {
    forall v, u :: v in OlderThan(rows, before) && u in base && v.createTime > u.createTime ==> v in base
  }

  /** Rows that begin the database's list. */
  ghost predicate UpperPart(rows: set<Video>, before: Option<int>, base: seq<Video>)
  {
    InOrder(ByTime, base) && (forall v :: v in base ==> v in OlderThan(rows, before)) && ClosedAbove(rows, before, base)
  }

  /** They split it into themselves and what lies behind the last of them. */
  lemma BaseSplits(rows: set<Video>, before: Option<int>, base: seq<Video>)
    requires ValidRows(rows) && DistinctTimes(rows) && UpperPart(rows, before, base) && base != []
    ensures SortDesc(ByTime, OlderThan(rows, before)) == base + SortDesc(ByTime, OlderThan(rows, StitchFrom(base, before)))
  {
    var low := OlderThan(rows, StitchFrom(base, before));
    BaseAndRest(rows, before, base, base[|base| - 1]);
    SortSplit(ByTime, Elements(base), low);
    SortDescUnique(ByTime, Elements(base), base);
  }

  lemma BaseAndRest(rows: set<Video>, before: Option<int>, base: seq<Video>, last: Video)
    requires DistinctTimes(rows) && UpperPart(rows, before, base) && base != [] && last == base[|base| - 1]
    ensures OlderThan(rows, before) == Elements(base) + OlderThan(rows, Some(last.createTime))
    ensures forall v, w :: v in Elements(base) && w in OlderThan(rows, Some(last.createTime)) ==> Precedes(ByTime, v, w)
  {
    var low := OlderThan(rows, Some(last.createTime));
    assert last in base && last in OlderThan(rows, before);
    forall v | v in base ensures v.createTime >= last.createTime { LastIsOldest(base, v); }
    forall v | v in OlderThan(rows, before) ensures v in Elements(base) + low {
      if v.createTime > last.createTime { assert v in base; }
    }
  }

  lemma TakeConcat<T>(a: seq<T>, b: seq<T>, n: nat)
    requires |a| <= n
    ensures Take(a + b, n) == a + Take(b, n - |a|)
    ensures a <= Take(a + b, n)
    ensures |a| == n ==> a == Take(a + b, n)
  {
  }

  lemma StitchCompletes(rows: set<Video>, limit: nat, before: Option<int>, base: seq<Video>, stitchOk: bool)
    requires ValidRows(rows) && DistinctTimes(rows) && UpperPart(rows, before, base) && |base| <= limit
    ensures base <= Stitched(base, rows, limit, before, stitchOk) <= ListLatest(rows, limit, before)
    ensures stitchOk ==> Stitched(base, rows, limit, before, stitchOk) == ListLatest(rows, limit, before)
  {
    if base != [] {
      BaseSplits(rows, before, base);
      TakeConcat(base, SortDesc(ByTime, OlderThan(rows, StitchFrom(base, before))), limit);
    }
  }

  // ---------- rows out of reach ----------

  /** Every live row older than a missing one lies at least `cap` deep among the entries no
      newer than the missing one. */
  ghost predicate HiddenGaps(timeline: ZSet, rows: set<Video>, cap: nat)
  {
    forall v, u :: v in rows && u in rows && Live(timeline, u) && !Live(timeline, v) && u.createTime < v.createTime ==>
      Depth(timeline, AtMost(v.createTime), FormatUint(u.id)) >= cap
  }

  lemma DepthGrows(z: ZSet, score: int, below: ScoreBound, m: Member)
    requires m in z && below.Admits(score)
    ensures Depth(z, AtMost(score), m) <= Depth(z, below, m)
  {
    SubsetSize(set x | x in z && AtMost(score).Admits(z[x]) && Newer(z, x, m), set x | x in z && below.Admits(z[x]) && Newer(z, x, m));
  }

  lemma DepthIsBounded(z: ZSet, below: ScoreBound, m: Member)
    requires m in z
    ensures Depth(z, below, m) < |z|
  {
    NewerIrreflexive(z, m);
    var above := set x | x in z && below.Admits(z[x]) && Newer(z, x, m);
    SubsetSize(above, z.Keys - {m});
    assert |z.Keys - {m}| == |z| - 1;
  }

  /** A cover is what it takes to have nothing within reach of the deepest read. */
  lemma CoverExactly(timeline: ZSet, rows: set<Video>, cap: nat)
    ensures LiveCover(timeline, rows) ==> HiddenGaps(timeline, rows, cap)
    ensures cap >= |timeline| ==> (HiddenGaps(timeline, rows, cap) <==> LiveCover(timeline, rows))
  {
    if HiddenGaps(timeline, rows, cap) && cap >= |timeline| {
      forall v, u | v in rows && u in rows && Live(timeline, u) && u.createTime < v.createTime ensures Live(timeline, v) {
        DepthIsBounded(timeline, AtMost(v.createTime), FormatUint(u.id));
      }
    }
  }

  lemma HotRowIsRead(timeline: ZSet, rows: set<Video>, limit: nat, before: Option<int>, u: Video)
    requires ValidRows(rows) && GoodTimeline(timeline, rows) && u in rows
    ensures u in HotRows(timeline, rows, limit, before) <==>
              u in OlderThan(rows, before) && Live(timeline, u) && Depth(timeline, Bound(before), FormatUint(u.id)) < limit
  {
    HotMembersRead(timeline, before, limit);
    LiveRowsMembers(rows, ZRevRangeByScore(timeline, Bound(before), limit));
    ReadExactly(timeline, Bound(before), limit, FormatUint(u.id));
  }

  lemma HotRowsAreRows(timeline: ZSet, rows: set<Video>, limit: nat, before: Option<int>)
    requires ValidRows(rows) && GoodTimeline(timeline, rows)
    ensures forall u :: u in HotRows(timeline, rows, limit, before) ==> u in rows
  {
    HotMembersRead(timeline, before, limit);
    LiveRowsMembers(rows, ZRevRangeByScore(timeline, Bound(before), limit));
  }

  lemma DeeperIsOlder(z: ZSet, below: ScoreBound, a: Member, b: Member)
    requires a in z && b in z && below.Admits(z[a]) && Newer(z, a, b)
    ensures Depth(z, below, a) < Depth(z, below, b)
  {
    var aboveA := set x | x in z && below.Admits(z[x]) && Newer(z, x, a);
    var aboveB := set x | x in z && below.Admits(z[x]) && Newer(z, x, b);
    forall x | x in aboveA ensures x in aboveB { NewerTransitive(z, x, a, b); }
    NewerIrreflexive(z, a);
    SubsetSize(aboveA + {a}, aboveB);
  }

  lemma HotRowsClosed(timeline: ZSet, rows: set<Video>, cap: nat, limit: nat, before: Option<int>)
    requires ValidRows(rows) && GoodTimeline(timeline, rows) && HiddenGaps(timeline, rows, cap) && limit <= cap
    ensures ClosedAbove(rows, before, HotRows(timeline, rows, limit, before))
  {
    var base := HotRows(timeline, rows, limit, before);
    HotRowsAreRows(timeline, rows, limit, before);
    forall v, u | v in OlderThan(rows, before) && u in base && v.createTime > u.createTime ensures v in base {
      HotRowIsRead(timeline, rows, limit, before, u);
      HotRowIsRead(timeline, rows, limit, before, v);
      if Live(timeline, v) {
        DeeperIsOlder(timeline, Bound(before), FormatUint(v.id), FormatUint(u.id));
      } else {
        DepthGrows(timeline, v.createTime, Bound(before), FormatUint(u.id));
      }
    }
  }

  lemma HotRowsBegin(timeline: ZSet, rows: set<Video>, limit: nat, before: Option<int>)
    requires ValidRows(rows) && DistinctTimes(rows) && GoodTimeline(timeline, rows) && HiddenGaps(timeline, rows, limit)
    ensures UpperPart(rows, before, HotRows(timeline, rows, limit, before))
    ensures |HotRows(timeline, rows, limit, before)| <= limit
  {
    HotRowsFacts(timeline, rows, limit, before);
    HotRowsClosed(timeline, rows, limit, limit, before);
  }

  /** With no gap within reach, the hot and stitched branches return the database's page; when
      the stitch query fails, a prefix of it. */
  lemma HiddenGapsGiveSqlPage(timeline: ZSet, rows: set<Video>, limit: nat, before: Option<int>, now: int, stitchOk: bool)
    requires ValidRows(rows) && DistinctTimes(rows) && GoodTimeline(timeline, rows) && timeline != map[]
    requires HiddenGaps(timeline, rows, limit)
    ensures ServeRows(timeline, rows, limit, before, now, stitchOk) <= ListLatest(rows, limit, before)
    ensures stitchOk ==> ServeRows(timeline, rows, limit, before, now, stitchOk) == ListLatest(rows, limit, before)
  {
    HotRowsBegin(timeline, rows, limit, before);
    StitchCompletes(rows, limit, before, HotRows(timeline, rows, limit, before), stitchOk);
  }

  /** So they do with a cover, whatever the limit. */
  lemma CoverGivesSqlPage(timeline: ZSet, rows: set<Video>, limit: nat, before: Option<int>, now: int, stitchOk: bool)
    requires ValidRows(rows) && DistinctTimes(rows) && GoodTimeline(timeline, rows) && timeline != map[]
    requires LiveCover(timeline, rows)
    ensures ServeRows(timeline, rows, limit, before, now, stitchOk) <= ListLatest(rows, limit, before)
    ensures stitchOk ==> ServeRows(timeline, rows, limit, before, now, stitchOk) == ListLatest(rows, limit, before)
  {
    CoverExactly(timeline, rows, limit);
    HiddenGapsGiveSqlPage(timeline, rows, limit, before, now, stitchOk);
  }

  // ---------- the converse ----------

  lemma NewestIsFirst(rows: set<Video>, v: Video)
    requires ValidRows(rows) && DistinctTimes(rows) && v in rows
    ensures SortDesc(ByTime, OlderThan(rows, Some(v.createTime + 1))) != []
    ensures SortDesc(ByTime, OlderThan(rows, Some(v.createTime + 1)))[0] == v
  {
    var older := OlderThan(rows, Some(v.createTime + 1));
    assert v in older;
    assert IsFirst(ByTime, older, v);
    FirstUnique(ByTime, older, v, First(ByTime, older));
  }

  lemma NewestLeads(rows: set<Video>, v: Video, limit: nat)
    requires ValidRows(rows) && DistinctTimes(rows) && v in rows && limit >= 1
    ensures ListLatest(rows, limit, Some(v.createTime + 1)) != [] && ListLatest(rows, limit, Some(v.createTime + 1))[0] == v
  {
    NewestIsFirst(rows, v);
  }

  /** A missing row is skipped by any request that starts at it and reaches a live row. */
  lemma GapIsVisible(timeline: ZSet, rows: set<Video>, v: Video, u: Video, limit: nat, now: int)
    requires ValidRows(rows) && DistinctTimes(rows) && GoodTimeline(timeline, rows) && timeline != map[]
    requires v in rows && u in rows && Live(timeline, u) && u.createTime < v.createTime && !Live(timeline, v)
    requires Depth(timeline, AtMost(v.createTime), FormatUint(u.id)) < limit
    ensures ServeRows(timeline, rows, limit, Some(v.createTime + 1), now, true) != ListLatest(rows, limit, Some(v.createTime + 1))
  {
    var before := Some(v.createTime + 1);
    LowestScoreIsMinimum(timeline, FormatUint(u.id));
    assert Bound(before) == AtMost(v.createTime);
    HotRowIsRead(timeline, rows, limit, before, u);
    LiveRowComesFirst(timeline, rows, limit, before, now, u);
    NewestLeads(rows, v, limit);
  }

  lemma LiveRowComesFirst(timeline: ZSet, rows: set<Video>, limit: nat, before: Option<int>, now: int, u: Video)
    requires ValidRows(rows) && DistinctTimes(rows) && GoodTimeline(timeline, rows) && timeline != map[]
    requires RequestTime(before, now) > LowestScore(timeline) && u in HotRows(timeline, rows, limit, before)
    ensures var page := ServeRows(timeline, rows, limit, before, now, true); page != [] && Live(timeline, page[0])
  {
    HotRowsFacts(timeline, rows, limit, before);
    var base := HotRows(timeline, rows, limit, before);
    assert base[0] in base;
    assert ServeRows(timeline, rows, limit, before, now, true)[0] == base[0];
  }

  /** The requests with a limit up to `cap`. */
  ghost predicate AlwaysSqlPage(timeline: ZSet, rows: set<Video>, cap: nat)
    requires ValidRows(rows) && timeline != map[]
  {
    forall limit: nat, before, now :: limit <= cap ==>
      ServeRows(timeline, rows, limit, before, now, true) == ListLatest(rows, limit, before)
  }

  lemma FewerAreHidden(timeline: ZSet, rows: set<Video>, cap: nat, limit: nat)
    requires HiddenGaps(timeline, rows, cap) && limit <= cap
    ensures HiddenGaps(timeline, rows, limit)
  {
  }

  /** The timeline may stand in for the database for every limit up to the cap, cursor and
      clock exactly when every gap is hidden. */
  lemma ExactlyWhenHidden(timeline: ZSet, rows: set<Video>, cap: nat)
    requires ValidRows(rows) && DistinctTimes(rows) && GoodTimeline(timeline, rows) && timeline != map[]
    ensures AlwaysSqlPage(timeline, rows, cap) <==> HiddenGaps(timeline, rows, cap)
  {
    if HiddenGaps(timeline, rows, cap) {
      forall limit: nat, before, now | limit <= cap
        ensures ServeRows(timeline, rows, limit, before, now, true) == ListLatest(rows, limit, before)
      {
        FewerAreHidden(timeline, rows, cap, limit);
        HiddenGapsGiveSqlPage(timeline, rows, limit, before, now, true);
      }
    } else {
      var v, u :| v in rows && u in rows && Live(timeline, u) && !Live(timeline, v) && u.createTime < v.createTime &&
        Depth(timeline, AtMost(v.createTime), FormatUint(u.id)) < cap;
      GapIsVisible(timeline, rows, v, u, cap, 0);
    }
  }

  /** Where limits may be as large as the timeline, exactly when it covers the rows above its
      live entries. */
  lemma ExactlyWhenCovered(timeline: ZSet, rows: set<Video>, cap: nat)
    requires ValidRows(rows) && DistinctTimes(rows) && GoodTimeline(timeline, rows) && timeline != map[]
    requires cap >= |timeline|
    ensures AlwaysSqlPage(timeline, rows, cap) <==> LiveCover(timeline, rows)
  {
    ExactlyWhenHidden(timeline, rows, cap);
    CoverExactly(timeline, rows, cap);
  }

  /** The design's own condition: the timeline has every row from its watermark on. */
  ghost predicate WatermarkCover(timeline: ZSet, rows: set<Video>)
    requires timeline != map[]
  {
    forall v :: v in rows && v.createTime >= LowestScore(timeline) ==> Live(timeline, v)
  }

  /** It is sufficient, and stronger than needed: entries of deleted videos below the oldest
      live one carry no obligation. */
  lemma WatermarkCoverSuffices(timeline: ZSet, rows: set<Video>, cap: nat)
    requires ValidRows(rows) && DistinctTimes(rows) && GoodTimeline(timeline, rows) && timeline != map[]
    requires WatermarkCover(timeline, rows)
    ensures LiveCover(timeline, rows) && AlwaysSqlPage(timeline, rows, cap)
  {
    forall v, u | v in rows && u in rows && Live(timeline, u) && u.createTime < v.createTime ensures Live(timeline, v) {
      LowestScoreIsMinimum(timeline, FormatUint(u.id));
    }
    CoverExactly(timeline, rows, cap);
    ExactlyWhenHidden(timeline, rows, cap);
  }

  /** Deleting videos brings no gap to light, although their members stay behind. */
  lemma DeletionKeepsPages(timeline: ZSet, rows: set<Video>, deleted: set<Video>, cap: nat)
    requires ValidRows(rows) && DistinctTimes(rows) && GoodTimeline(timeline, rows) && timeline != map[]
    requires AlwaysSqlPage(timeline, rows, cap)
    ensures ValidRows(rows - deleted) && AlwaysSqlPage(timeline, rows - deleted, cap)
  {
    ExactlyWhenHidden(timeline, rows, cap);
    ExactlyWhenHidden(timeline, rows - deleted, cap);
  }

  // ---------- rebuilding an empty timeline ----------

  lemma {:induction false} AddRowsHolds(rows: set<Video>, vs: seq<Video>)
    requires ValidRows(rows) && forall v :: v in vs ==> v in rows
    ensures forall m :: m in AddRows(map[], vs) ==> exists v :: v in vs && m == FormatUint(v.id)
    ensures forall v :: v in vs ==> FormatUint(v.id) in AddRows(map[], vs) && AddRows(map[], vs)[FormatUint(v.id)] == v.createTime
    decreases |vs|
  {
    if vs != [] {
      var before, w := vs[..|vs| - 1], vs[|vs| - 1];
      assert vs == before + [w];
      AddRowsHolds(rows, before);
      forall v | v in vs && FormatUint(v.id) == FormatUint(w.id) ensures v == w { FormatInjective(v.id, w.id); }
    }
  }

  /** The rows listed in a rebuilt timeline. */
  lemma RebuiltMembers(rows: set<Video>)
    requires ValidRows(rows)
    ensures forall m :: m in Rebuilt(rows) ==> exists v :: v in ListLatest(rows, TIMELINE_CAP, None) && m == FormatUint(v.id)
    ensures forall u :: u in rows ==> (Live(Rebuilt(rows), u) <==> u in ListLatest(rows, TIMELINE_CAP, None))
    ensures forall u :: u in rows && Live(Rebuilt(rows), u) ==> Rebuilt(rows)[FormatUint(u.id)] == u.createTime
  {
    var vs := ListLatest(rows, TIMELINE_CAP, None);
    forall v | v in vs ensures v in rows { assert v in SortDesc(ByTime, OlderThan(rows, None)); }
    AddRowsHolds(rows, vs);
    forall u | u in rows && Live(Rebuilt(rows), u) ensures u in vs {
      var v :| v in vs && FormatUint(u.id) == FormatUint(v.id);
      FormatInjective(u.id, v.id);
    }
  }

  lemma NewestAreUpwardClosed(rows: set<Video>, n: nat, u: Video, v: Video)
    requires ValidRows(rows) && u in ListLatest(rows, n, None) && v in rows && u.createTime < v.createTime
    ensures v in ListLatest(rows, n, None)
  {
    assert OlderThan(rows, None) == rows;
    var s, vs := SortDesc(ByTime, rows), ListLatest(rows, n, None);
    SortDescInOrder(ByTime, rows);
    var i :| 0 <= i < |s| && s[i] == v;
    var j :| 0 <= j < |vs| && vs[j] == u;
    assert vs == Take(s, n) && vs[j] == s[j];
    NewerFirst(s, i, j);
    assert vs[i] == v;
  }

  /** The newest 1000 rows make a timeline that covers the table. */
  lemma RebuiltCovers(rows: set<Video>)
    requires ValidRows(rows) && DistinctTimes(rows) && forall v :: v in rows ==> v.id < UINT_LIMIT
    ensures GoodTimeline(Rebuilt(rows), rows) && LiveCover(Rebuilt(rows), rows)
  {
    RebuiltMembers(rows);
    forall m | m in Rebuilt(rows) ensures IsIdMember(m) {
      var v :| v in ListLatest(rows, TIMELINE_CAP, None) && m == FormatUint(v.id);
      assert v in SortDesc(ByTime, OlderThan(rows, None));
    }
    forall v, u | v in rows && u in rows && Live(Rebuilt(rows), u) && u.createTime < v.createTime ensures Live(Rebuilt(rows), v) {
      NewestAreUpwardClosed(rows, TIMELINE_CAP, u, v);
    }
  }

  lemma NewerFirst(s: seq<Video>, i: nat, j: nat)
    requires InOrder(ByTime, s) && i < |s| && j < |s| && s[i].createTime > s[j].createTime
    ensures i < j
  {
  }
}
