/** `ListLatest` on any table, rows of one millisecond included. A request is answered
    rightly when its rows are an answer the query by time could give, whichever way the
    database breaks ties. */
module LatestTies {
  import opened Wrappers
  import opened Collections
  import opened Decimal
  import opened Zset
  import opened FeedTable
  import opened KeysetPages
  import opened LatestFeed
  import opened LatestExact

  // ---------- the stitched query ----------

  /** Rows a hot read may end on: distinct, below the cursor, newest first, and with all rows
      newer than the last of them. */
  ghost predicate HotShape(rows: set<Video>, before: Option<int>, base: seq<Video>)
  {
    && base != [] && Distinct(base)
    && (forall v :: v in base ==> v in OlderThan(rows, before))
    && (forall i, j :: 0 <= i < j < |base| ==> base[i].createTime >= base[j].createTime)
    && (forall v :: v in OlderThan(rows, before) && v.createTime > base[|base| - 1].createTime ==> v in base)
  }

  /** No row below the cursor and outside the base shares the last base row's millisecond. */
  ghost predicate EndsUntied(rows: set<Video>, before: Option<int>, base: seq<Video>)
    requires base != []
  {
    forall v :: v in OlderThan(rows, before) && v.createTime == base[|base| - 1].createTime ==> v in base
  }

  lemma LastIsLeast(base: seq<Video>, v: Video)
    requires base != [] && v in base && forall i, j :: 0 <= i < j < |base| ==> base[i].createTime >= base[j].createTime
    ensures v.createTime >= base[|base| - 1].createTime
  {
    var i :| 0 <= i < |base| && base[i] == v;
    assert i < |base| - 1 ==> base[i].createTime >= base[|base| - 1].createTime;
  }

  /** An untied base and the rows older than its last are all the rows below the cursor. */
  lemma UntiedSplits(rows: set<Video>, before: Option<int>, base: seq<Video>)
    requires HotShape(rows, before, base) && EndsUntied(rows, before, base)
    ensures OlderThan(rows, before) == Elements(base) + OlderThan(rows, Some(base[|base| - 1].createTime))
    ensures |OlderThan(rows, before)| == |base| + |OlderThan(rows, Some(base[|base| - 1].createTime))|
  {
    var last := base[|base| - 1];
    assert last in base;
    var low := OlderThan(rows, Some(last.createTime));
    forall v | v in base ensures v !in low { LastIsLeast(base, v); }
    forall v | v in OlderThan(rows, before) ensures v in Elements(base) + low { }
    DistinctSize(base);
    assert OlderThan(rows, before) == Elements(base) + low && Elements(base) !! low;
  }

  /** Base first, older rows after it: still distinct and newest first. */
  lemma JoinPages(rows: set<Video>, before: Option<int>, base: seq<Video>, tail: seq<Video>, n: nat)
    requires HotShape(rows, before, base) && NewestPage(rows, n, Some(base[|base| - 1].createTime), tail)
    ensures Distinct(base + tail)
    ensures var page := base + tail; forall i, j :: 0 <= i < j < |page| ==> page[i].createTime >= page[j].createTime
  {
    var page := base + tail;
    forall i, j | 0 <= i < j < |page| ensures page[i] != page[j] && page[i].createTime >= page[j].createTime {
      if i < |base| <= j {
        assert page[i] in base && page[j] in tail;
        LastIsLeast(base, page[i]);
      }
    }
  }

  lemma JoinMisses(rows: set<Video>, before: Option<int>, base: seq<Video>, tail: seq<Video>, n: nat, i: nat, w: Video)
    requires HotShape(rows, before, base) && EndsUntied(rows, before, base)
    requires NewestPage(rows, n, Some(base[|base| - 1].createTime), tail)
    requires i < |base + tail| && w in OlderThan(rows, before) && w !in base + tail
    ensures (base + tail)[i].createTime >= w.createTime
  {
    assert w in OlderThan(rows, Some(base[|base| - 1].createTime)) && w !in tail;
    if i < |base| { LastIsLeast(base, base[i]); }
  }

  lemma UntiedCompletes(rows: set<Video>, before: Option<int>, base: seq<Video>, tail: seq<Video>, limit: nat)
    requires HotShape(rows, before, base) && EndsUntied(rows, before, base) && |base| <= limit
    requires NewestPage(rows, limit - |base|, Some(base[|base| - 1].createTime), tail)
    ensures NewestPage(rows, limit, before, base + tail)
  {
    UntiedSplits(rows, before, base);
    JoinPages(rows, before, base, tail, limit - |base|);
    var page := base + tail;
    forall i, w | 0 <= i < |page| && w in OlderThan(rows, before) && w !in page ensures page[i].createTime >= w.createTime {
      JoinMisses(rows, before, base, tail, limit - |base|, i, w);
    }
    forall v | v in page ensures v in OlderThan(rows, before) { assert v in Elements(base) || v in tail; }
  }

  /** Any base fit for its limit is completed to an answer. */
  lemma StitchedIsRight(rows: set<Video>, before: Option<int>, base: seq<Video>, limit: nat)
    requires ValidRows(rows) && |base| <= limit
    requires base == [] || (HotShape(rows, before, base) && (|base| < limit ==> EndsUntied(rows, before, base)))
    ensures NewestPage(rows, limit, before, Stitched(base, rows, limit, before, true))
  {
    var tail := ListLatest(rows, limit - |base|, StitchFrom(base, before));
    ListLatestIsNewestPage(rows, limit - |base|, StitchFrom(base, before));
    assert Stitched(base, rows, limit, before, true) == base + tail;
    if base == [] {
      assert base + tail == tail;
    } else if |base| == limit {
      FullReadIsRight(rows, before, base);
      assert base + tail == base;
    } else {
      UntiedCompletes(rows, before, base, tail, limit);
    }
  }

  lemma FullReadIsRight(rows: set<Video>, before: Option<int>, base: seq<Video>)
    requires HotShape(rows, before, base)
    ensures NewestPage(rows, |base|, before, base)
  {
    DistinctSize(base);
    SubsetSize(Elements(base), OlderThan(rows, before));
    forall i, w | 0 <= i < |base| && w in OlderThan(rows, before) && w !in base ensures base[i].createTime >= w.createTime {
      LastIsLeast(base, base[i]);
    }
  }

  /** What a stitched query adds is older than the base, so a row outside the base that is not
      older than its end stays out, and the answer is wrong. */
  lemma MissingRowIsWrong(rows: set<Video>, before: Option<int>, base: seq<Video>, limit: nat, v: Video)
    requires ValidRows(rows) && base != [] && |base| < limit
    requires v in OlderThan(rows, before) && v !in base && v.createTime >= base[|base| - 1].createTime
    ensures !NewestPage(rows, limit, before, Stitched(base, rows, limit, before, true))
  {
    var cut := Some(base[|base| - 1].createTime);
    var tail := ListLatest(rows, limit - |base|, cut);
    ListLatestIsNewestPage(rows, limit - |base|, cut);
    assert v !in base + tail;
    if NewestPage(rows, limit, before, base + tail) { TailReachesDown(rows, before, base, tail, limit, v); }
  }

  /** In an answer that leaves a row out, what follows the base is at least as new as it. */
  lemma TailReachesDown(rows: set<Video>, before: Option<int>, base: seq<Video>, tail: seq<Video>, limit: nat, v: Video)
    requires NewestPage(rows, limit, before, base + tail) && |base| < limit && v in OlderThan(rows, before) && v !in base + tail
    ensures tail != [] && tail[0] in tail && tail[0].createTime >= v.createTime
  {
    LeftOut(rows, limit, before, base + tail, v);
    assert (base + tail)[|base|] == tail[0];
  }

  /** The stitched branch answers rightly for every limit exactly when the hot rows do not end
      in the middle of a tie. */
  lemma StitchExactly(rows: set<Video>, before: Option<int>, base: seq<Video>)
    requires ValidRows(rows) && HotShape(rows, before, base)
    ensures (forall limit: nat :: limit >= |base| ==> NewestPage(rows, limit, before, Stitched(base, rows, limit, before, true))) <==>
            EndsUntied(rows, before, base)
  {
    if EndsUntied(rows, before, base) {
      forall limit: nat | limit >= |base| ensures NewestPage(rows, limit, before, Stitched(base, rows, limit, before, true)) {
        StitchedIsRight(rows, before, base, limit);
      }
    } else {
      var v :| v in OlderThan(rows, before) && v.createTime == base[|base| - 1].createTime && v !in base;
      MissingRowIsWrong(rows, before, base, |base| + 1, v);
    }
  }

  // ---------- what the hot read returns ----------

  /** The member belongs to no row. */
  ghost predicate Dead(rows: set<Video>, m: Member) { forall v :: v in rows ==> m != FormatUint(v.id) }

  lemma {:induction false} HotRowsDescend(timeline: ZSet, rows: set<Video>, ms: seq<Member>)
    requires ValidRows(rows) && GoodTimeline(timeline, rows) && Ranked(timeline, ms)
    ensures Distinct(LiveRows(rows, ms))
    ensures forall i, j :: 0 <= i < j < |LiveRows(rows, ms)| ==> LiveRows(rows, ms)[i].createTime >= LiveRows(rows, ms)[j].createTime
    decreases |ms|
  {
    if ms != [] {
      var before, m := ms[..|ms| - 1], ms[|ms| - 1];
      assert ms == before + [m] && m in ms && IsIdMember(m);
      HotRowsDescend(timeline, rows, before);
      LiveRowsMembers(rows, before);
      var id: nat :| id < UINT_LIMIT && m == FormatUint(id);
      LiveRowsStep(rows, before, id);
      if Exists(rows, id) { LastRowIsOldest(timeline, rows, ms, RowOf(rows, id)); }
    }
  }

  lemma LastRowIsOldest(timeline: ZSet, rows: set<Video>, ms: seq<Member>, w: Video)
    requires GoodTimeline(timeline, rows) && Ranked(timeline, ms) && ms != [] && w in rows && ms[|ms| - 1] == FormatUint(w.id)
    ensures forall v :: v in rows && FormatUint(v.id) in ms[..|ms| - 1] ==> v != w && v.createTime >= w.createTime
  {
    forall v | v in rows && FormatUint(v.id) in ms[..|ms| - 1] ensures v != w && v.createTime >= w.createTime {
      var i :| 0 <= i < |ms| - 1 && ms[i] == FormatUint(v.id);
      assert ms[i] in ms && ms[|ms| - 1] in ms && Newer(timeline, ms[i], ms[|ms| - 1]);
      NewerIrreflexive(timeline, ms[i]);
    }
  }

  /** Every dead member read is one row less. */
  lemma {:induction false} DeadMembersCost(rows: set<Video>, ms: seq<Member>)
    requires ValidRows(rows) && forall m :: m in ms ==> IsIdMember(m)
    ensures |LiveRows(rows, ms)| <= |ms|
    ensures |LiveRows(rows, ms)| < |ms| <==> exists m :: m in ms && Dead(rows, m)
    decreases |ms|
  {
    if ms != [] {
      var before, m := ms[..|ms| - 1], ms[|ms| - 1];
      assert ms == before + [m] && IsIdMember(m);
      DeadMembersCost(rows, before);
      var id: nat :| id < UINT_LIMIT && m == FormatUint(id);
      LiveRowsStep(rows, before, id);
      DeadExactly(rows, id);
    }
  }

  lemma DeadExactly(rows: set<Video>, id: nat)
    ensures Dead(rows, FormatUint(id)) <==> !Exists(rows, id)
  {
    forall v | v in rows && FormatUint(id) == FormatUint(v.id) ensures v.id == id { FormatInjective(v.id, id); }
  }

  /** Members of the bounded set left unread rank below all those read, and the read is full. */
  lemma UnreadRankBelow(timeline: ZSet, before: Option<int>, limit: nat, m: Member)
    requires m in timeline && Bound(before).Admits(timeline[m]) && m !in ZRevRangeByScore(timeline, Bound(before), limit)
    ensures var ms := ZRevRangeByScore(timeline, Bound(before), limit);
            |ms| == limit && forall k :: k in ms ==> k in timeline && Newer(timeline, k, m)
  {
    var z := UpTo(timeline, Bound(before));
    var d, ms := Descending(z), ZRevRangeByScore(timeline, Bound(before), limit);
    DescendingIsSorted(z);
    assert m in z;
    var i :| 0 <= i < |d| && d[i] == m;
    TakeKeeps(d, limit, i);
    forall k | k in ms ensures k in timeline && Newer(timeline, k, m) {
      var j :| 0 <= j < |ms| && ms[j] == k;
      assert d[j] in d && Newer(z, d[j], d[i]);
      BoundedKeepsOrder(timeline, before, k, m);
    }
  }

  lemma HotMembersRanked(timeline: ZSet, before: Option<int>, limit: nat)
    ensures Ranked(timeline, ZRevRangeByScore(timeline, Bound(before), limit))
  {
    HotMembersRead(timeline, before, limit);
  }

  // ---------- the exact condition ----------

  /** Every request with a limit up to `cap` is answered as the database might have answered it. */
  ghost predicate AlwaysRight(timeline: ZSet, rows: set<Video>, cap: nat)
    requires ValidRows(rows) && timeline != map[]
  {
    forall limit: nat, before, now :: limit <= cap ==>
      NewestPage(rows, limit, before, ServeRows(timeline, rows, limit, before, now, true))
  }

  /** A read that runs out of entries: no row shares its millisecond with a live one and is
      missing, unless the entries no newer than it already fill the cap. */
  ghost predicate HiddenEnds(timeline: ZSet, rows: set<Video>, cap: nat)
  {
    forall v, u :: v in rows && u in rows && Live(timeline, u) && !Live(timeline, v) && u.createTime == v.createTime ==>
      |UpTo(timeline, AtMost(v.createTime))| >= cap
  }

  /** The score from which a read finds both. */
  function Top(timeline: ZSet, u: Video, m: Member): int
    requires m in timeline
  {
    if timeline[m] > u.createTime then timeline[m] else u.createTime
  }

  /** A read that finds the live row and the dead member but not the row tied with it. */
  ghost predicate Splits(timeline: ZSet, rows: set<Video>, u: Video, v: Video, m: Member)
  {
    && u in rows && v in rows && u != v && Live(timeline, u) && u.createTime == v.createTime
    && m in timeline && Dead(rows, m)
    && (Live(timeline, v) ==> Newer(timeline, FormatUint(u.id), FormatUint(v.id)) && Newer(timeline, m, FormatUint(v.id)))
  }

  /** Wherever a dead member may make a read come back short between two tied rows, the row or
      the member lies at least `cap` deep. */
  ghost predicate HiddenSplits(timeline: ZSet, rows: set<Video>, cap: nat)
  {
    forall u, v, m :: Splits(timeline, rows, u, v, m) ==> DeeperOf(timeline, u, m) >= cap
  }

  function DeeperOf(timeline: ZSet, u: Video, m: Member): nat
    requires Live(timeline, u) && m in timeline
  {
    var below := AtMost(Top(timeline, u, m));
    var a, b := Depth(timeline, below, FormatUint(u.id)), Depth(timeline, below, m);
    if a >= b then a else b
  }

  ghost predicate AllHidden(timeline: ZSet, rows: set<Video>, cap: nat)
  {
    HiddenGaps(timeline, rows, cap) && HiddenEnds(timeline, rows, cap) && HiddenSplits(timeline, rows, cap)
  }

  lemma HotRowsNewestFirst(timeline: ZSet, rows: set<Video>, limit: nat, before: Option<int>)
    requires ValidRows(rows) && GoodTimeline(timeline, rows)
    ensures var base := HotRows(timeline, rows, limit, before);
            Distinct(base) && forall i, j :: 0 <= i < j < |base| ==> base[i].createTime >= base[j].createTime
  {
    HotMembersRanked(timeline, before, limit);
    HotRowsDescend(timeline, rows, ZRevRangeByScore(timeline, Bound(before), limit));
  }

  lemma HotRowsAreBelow(timeline: ZSet, rows: set<Video>, limit: nat, before: Option<int>)
    requires ValidRows(rows) && GoodTimeline(timeline, rows)
    ensures |HotRows(timeline, rows, limit, before)| <= limit
    ensures forall v :: v in HotRows(timeline, rows, limit, before) ==> v in OlderThan(rows, before) && Live(timeline, v)
  {
    HotMembersRead(timeline, before, limit);
    LiveRowsMembers(rows, ZRevRangeByScore(timeline, Bound(before), limit));
    HotRowsAreRows(timeline, rows, limit, before);
    forall v | v in HotRows(timeline, rows, limit, before) ensures v in OlderThan(rows, before) && Live(timeline, v) {
      HotRowIsRead(timeline, rows, limit, before, v);
    }
  }

  lemma HotRowsShape(timeline: ZSet, rows: set<Video>, cap: nat, limit: nat, before: Option<int>)
    requires ValidRows(rows) && GoodTimeline(timeline, rows) && HiddenGaps(timeline, rows, cap) && limit <= cap
    requires HotRows(timeline, rows, limit, before) != []
    ensures HotShape(rows, before, HotRows(timeline, rows, limit, before))
  {
    HotRowsAreBelow(timeline, rows, limit, before);
    HotRowsNewestFirst(timeline, rows, limit, before);
    HotRowsClosed(timeline, rows, cap, limit, before);
  }

  /** A read short of rows has run out of entries or met a dead member. */
  lemma WhyShort(timeline: ZSet, rows: set<Video>, limit: nat, before: Option<int>)
    requires ValidRows(rows) && GoodTimeline(timeline, rows) && |HotRows(timeline, rows, limit, before)| < limit
    ensures |UpTo(timeline, Bound(before))| < limit ||
              exists m :: m in ZRevRangeByScore(timeline, Bound(before), limit) && Dead(rows, m)
  {
    HotMembersRead(timeline, before, limit);
    DeadMembersCost(rows, ZRevRangeByScore(timeline, Bound(before), limit));
  }

  /** A row tied with one read, and not read itself, must then be hidden. */
  lemma ShortReadEndsUntied(timeline: ZSet, rows: set<Video>, cap: nat, limit: nat, before: Option<int>)
    requires ValidRows(rows) && GoodTimeline(timeline, rows) && AllHidden(timeline, rows, cap) && limit <= cap
    requires HotRows(timeline, rows, limit, before) != [] && |HotRows(timeline, rows, limit, before)| < limit
    ensures EndsUntied(rows, before, HotRows(timeline, rows, limit, before))
  {
    var base := HotRows(timeline, rows, limit, before);
    var last := base[|base| - 1];
    HotRowIsLive(timeline, rows, limit, before, last);
    TiedAreRead(timeline, rows, cap, limit, before, last);
  }

  lemma HotRowIsLive(timeline: ZSet, rows: set<Video>, limit: nat, before: Option<int>, u: Video)
    requires ValidRows(rows) && GoodTimeline(timeline, rows) && u in HotRows(timeline, rows, limit, before)
    ensures u in rows && Live(timeline, u)
  {
    HotRowsAreBelow(timeline, rows, limit, before);
  }

  lemma TiedAreRead(timeline: ZSet, rows: set<Video>, cap: nat, limit: nat, before: Option<int>, u: Video)
    requires ValidRows(rows) && GoodTimeline(timeline, rows) && AllHidden(timeline, rows, cap) && limit <= cap
    requires |HotRows(timeline, rows, limit, before)| < limit
    requires u in HotRows(timeline, rows, limit, before) && u in rows && Live(timeline, u)
    ensures forall v :: v in OlderThan(rows, before) && v.createTime == u.createTime ==> v in HotRows(timeline, rows, limit, before)
  {
    forall v | v in OlderThan(rows, before) && v.createTime == u.createTime ensures v in HotRows(timeline, rows, limit, before) {
      TiedIsRead(timeline, rows, cap, limit, before, u, v);
    }
  }

  lemma TiedIsRead(timeline: ZSet, rows: set<Video>, cap: nat, limit: nat, before: Option<int>, u: Video, v: Video)
    requires ValidRows(rows) && GoodTimeline(timeline, rows) && AllHidden(timeline, rows, cap) && limit <= cap
    requires |HotRows(timeline, rows, limit, before)| < limit
    requires u in HotRows(timeline, rows, limit, before) && u in rows && Live(timeline, u)
    requires v in OlderThan(rows, before) && v.createTime == u.createTime
    ensures v in HotRows(timeline, rows, limit, before)
  {
    WhyShort(timeline, rows, limit, before);
    if |UpTo(timeline, Bound(before))| < limit {
      TiedInLongRead(timeline, rows, cap, limit, before, u, v);
    } else {
      var m :| m in ZRevRangeByScore(timeline, Bound(before), limit) && Dead(rows, m);
      TiedInShortRead(timeline, rows, cap, limit, before, u, v, m);
    }
  }

  lemma UpToGrows(z: ZSet, score: int, below: ScoreBound)
    requires below.Admits(score)
    ensures |UpTo(z, AtMost(score))| <= |UpTo(z, below)|
  {
    SubsetSize(UpTo(z, AtMost(score)).Keys, UpTo(z, below).Keys);
  }

  lemma DepthIsUpTo(z: ZSet, below: ScoreBound, m: Member)
    requires m in UpTo(z, below)
    ensures Depth(z, below, m) < |UpTo(z, below)|
  {
    DepthIsRank(z, below, m);
    NewerIrreflexive(z, m);
    SubsetSize(Above(UpTo(z, below), m) + {m}, UpTo(z, below).Keys);
  }

  lemma TiedInLongRead(timeline: ZSet, rows: set<Video>, cap: nat, limit: nat, before: Option<int>, u: Video, v: Video)
    requires ValidRows(rows) && GoodTimeline(timeline, rows) && HiddenEnds(timeline, rows, cap) && limit <= cap
    requires |UpTo(timeline, Bound(before))| < limit && u in rows && Live(timeline, u)
    requires v in OlderThan(rows, before) && v.createTime == u.createTime
    ensures v in HotRows(timeline, rows, limit, before)
  {
    UpToGrows(timeline, v.createTime, Bound(before));
    HotRowIsRead(timeline, rows, limit, before, v);
    DepthIsUpTo(timeline, Bound(before), FormatUint(v.id));
  }

  lemma TiedInShortRead(timeline: ZSet, rows: set<Video>, cap: nat, limit: nat, before: Option<int>, u: Video, v: Video, m: Member)
    requires ValidRows(rows) && GoodTimeline(timeline, rows) && HiddenSplits(timeline, rows, cap) && limit <= cap
    requires u in HotRows(timeline, rows, limit, before) && u in rows && Live(timeline, u)
    requires m in ZRevRangeByScore(timeline, Bound(before), limit) && Dead(rows, m)
    requires v in OlderThan(rows, before) && v.createTime == u.createTime
    ensures v in HotRows(timeline, rows, limit, before)
  {
    HotRowIsRead(timeline, rows, limit, before, u);
    ReadExactly(timeline, Bound(before), limit, FormatUint(u.id));
    ReadExactly(timeline, Bound(before), limit, m);
    if v !in HotRows(timeline, rows, limit, before) {
      ReadHasBoth(timeline, limit, before, u, m);
      UnreadIsSplit(timeline, rows, limit, before, u, v, m);
    }
  }

  lemma UnreadIsSplit(timeline: ZSet, rows: set<Video>, limit: nat, before: Option<int>, u: Video, v: Video, m: Member)
    requires ValidRows(rows) && GoodTimeline(timeline, rows) && u in rows && v in OlderThan(rows, before)
    requires FormatUint(u.id) in ZRevRangeByScore(timeline, Bound(before), limit) && Live(timeline, u)
    requires m in ZRevRangeByScore(timeline, Bound(before), limit) && m in timeline && Dead(rows, m)
    requires v !in HotRows(timeline, rows, limit, before) && v.createTime == u.createTime
    ensures Splits(timeline, rows, u, v, m)
  {
    HotRowIsRead(timeline, rows, limit, before, v);
    ReadExactly(timeline, Bound(before), limit, FormatUint(v.id));
    ReadExactly(timeline, Bound(before), limit, FormatUint(u.id));
    HotRowIsRead(timeline, rows, limit, before, u);
    if Live(timeline, v) { UnreadRankBelow(timeline, before, limit, FormatUint(v.id)); }
  }

  lemma ReadHasBoth(timeline: ZSet, limit: nat, before: Option<int>, u: Video, m: Member)
    requires Live(timeline, u) && m in timeline && Bound(before).Admits(u.createTime) && Bound(before).Admits(timeline[m])
    requires Depth(timeline, Bound(before), FormatUint(u.id)) < limit && Depth(timeline, Bound(before), m) < limit
    ensures DeeperOf(timeline, u, m) < limit
  {
    DepthGrows(timeline, Top(timeline, u, m), Bound(before), FormatUint(u.id));
    DepthGrows(timeline, Top(timeline, u, m), Bound(before), m);
  }

  lemma HiddenIsRight(timeline: ZSet, rows: set<Video>, cap: nat, limit: nat, before: Option<int>, now: int)
    requires ValidRows(rows) && GoodTimeline(timeline, rows) && timeline != map[]
    requires AllHidden(timeline, rows, cap) && limit <= cap
    ensures NewestPage(rows, limit, before, ServeRows(timeline, rows, limit, before, now, true))
  {
    ListLatestIsNewestPage(rows, limit, before);
    var base := HotRows(timeline, rows, limit, before);
    HotRowsAreBelow(timeline, rows, limit, before);
    if base != [] { HotRowsShape(timeline, rows, cap, limit, before); }
    if base != [] && |base| < limit { ShortReadEndsUntied(timeline, rows, cap, limit, before); }
    StitchedIsRight(rows, before, base, limit);
  }

  // ---------- its necessity ----------

  /** A read that begins at a score the timeline has is hot, whatever the clock. */
  lemma HotRequest(timeline: ZSet, rows: set<Video>, limit: nat, score: int, now: int, u: Video)
    requires ValidRows(rows) && GoodTimeline(timeline, rows) && timeline != map[]
    requires u in rows && Live(timeline, u) && u.createTime <= score && Depth(timeline, AtMost(score), FormatUint(u.id)) < limit
    ensures u in HotRows(timeline, rows, limit, Some(score + 1))
    ensures ServeRows(timeline, rows, limit, Some(score + 1), now, true) ==
              Stitched(HotRows(timeline, rows, limit, Some(score + 1)), rows, limit, Some(score + 1), true)
  {
    LowestScoreIsMinimum(timeline, FormatUint(u.id));
    assert Bound(Some(score + 1)) == AtMost(score);
    HotRowIsRead(timeline, rows, limit, Some(score + 1), u);
  }

  predicate Unread(timeline: ZSet, limit: nat, score: int, v: Video)
  {
    Live(timeline, v) ==> Depth(timeline, AtMost(score), FormatUint(v.id)) >= limit
  }

  predicate ComesShort(timeline: ZSet, rows: set<Video>, limit: nat, score: int)
    requires ValidRows(rows)
  {
    |HotRows(timeline, rows, limit, Some(score + 1))| < limit
  }

  /** If it misses a row not older than one it finds, and is short or misses a newer one, the
      answer is wrong. */
  lemma SkippedIsWrong(timeline: ZSet, rows: set<Video>, cap: nat, limit: nat, score: int, u: Video, v: Video)
    requires ValidRows(rows) && GoodTimeline(timeline, rows) && timeline != map[] && limit <= cap
    requires u in rows && Live(timeline, u) && u.createTime <= score && Depth(timeline, AtMost(score), FormatUint(u.id)) < limit
    requires v in rows && v.createTime <= score && Unread(timeline, limit, score, v)
    requires u.createTime < v.createTime || (u.createTime == v.createTime && ComesShort(timeline, rows, limit, score))
    ensures !AlwaysRight(timeline, rows, cap)
  {
    var before := Some(score + 1);
    var base := HotRows(timeline, rows, limit, before);
    HotRequest(timeline, rows, limit, score, 0, u);
    assert Bound(before) == AtMost(score);
    HotRowIsRead(timeline, rows, limit, before, v);
    HotRowsAreBelow(timeline, rows, limit, before);
    HotRowsNewestFirst(timeline, rows, limit, before);
    LastIsLeast(base, u);
    if |base| < limit {
      MissingRowIsWrong(rows, before, base, limit, v);
    } else {
      FullReadIsWrong(rows, before, base, u, v);
    }
    WrongOnce(timeline, rows, cap, limit, before);
  }

  lemma WrongOnce(timeline: ZSet, rows: set<Video>, cap: nat, limit: nat, before: Option<int>)
    requires ValidRows(rows) && timeline != map[] && limit <= cap
    requires !NewestPage(rows, limit, before, ServeRows(timeline, rows, limit, before, 0, true))
    ensures !AlwaysRight(timeline, rows, cap)
  {
  }

  lemma FullReadIsWrong(rows: set<Video>, before: Option<int>, base: seq<Video>, u: Video, v: Video)
    requires u in base && v in OlderThan(rows, before) && v !in base && u.createTime < v.createTime
    ensures !NewestPage(rows, |base|, before, base)
  {
    var i :| 0 <= i < |base| && base[i] == u;
  }

  /** A missing row newer than a live one is left out when the live one is within reach. */
  lemma UnlistedIsLost(timeline: ZSet, rows: set<Video>, cap: nat, u: Video, v: Video)
    requires ValidRows(rows) && GoodTimeline(timeline, rows) && timeline != map[]
    requires v in rows && u in rows && Live(timeline, u) && !Live(timeline, v) && u.createTime < v.createTime
    requires Depth(timeline, AtMost(v.createTime), FormatUint(u.id)) < cap
    ensures !AlwaysRight(timeline, rows, cap)
  {
    SkippedIsWrong(timeline, rows, cap, cap, v.createTime, u, v);
  }

  /** So is one of the same millisecond when a read can run out of entries. */
  lemma TiedIsLost(timeline: ZSet, rows: set<Video>, cap: nat, u: Video, v: Video)
    requires ValidRows(rows) && GoodTimeline(timeline, rows) && timeline != map[]
    requires v in rows && u in rows && Live(timeline, u) && !Live(timeline, v) && u.createTime == v.createTime
    requires |UpTo(timeline, AtMost(v.createTime))| < cap
    ensures !AlwaysRight(timeline, rows, cap)
  {
    RunsOut(timeline, rows, cap, v.createTime);
    DepthIsUpTo(timeline, AtMost(v.createTime), FormatUint(u.id));
    SkippedIsWrong(timeline, rows, cap, cap, v.createTime, u, v);
  }

  lemma RunsOut(timeline: ZSet, rows: set<Video>, limit: nat, score: int)
    requires ValidRows(rows) && GoodTimeline(timeline, rows) && |UpTo(timeline, AtMost(score))| < limit
    ensures ComesShort(timeline, rows, limit, score)
  {
    assert Bound(Some(score + 1)) == AtMost(score);
    HotSizes(timeline, rows, limit, Some(score + 1));
  }

  lemma HotSizes(timeline: ZSet, rows: set<Video>, limit: nat, before: Option<int>)
    requires ValidRows(rows) && GoodTimeline(timeline, rows)
    ensures |HotRows(timeline, rows, limit, before)| <= |UpTo(timeline, Bound(before))|
    ensures (exists m :: m in ZRevRangeByScore(timeline, Bound(before), limit) && Dead(rows, m)) ==>
              |HotRows(timeline, rows, limit, before)| < limit
  {
    HotMembersRead(timeline, before, limit);
    DeadMembersCost(rows, ZRevRangeByScore(timeline, Bound(before), limit));
  }

  /** A dead member within reach makes a request end between two tied rows. */
  lemma SplitIsLost(timeline: ZSet, rows: set<Video>, cap: nat, u: Video, v: Video, m: Member)
    requires ValidRows(rows) && GoodTimeline(timeline, rows) && timeline != map[]
    requires Splits(timeline, rows, u, v, m) && DeeperOf(timeline, u, m) < cap
    ensures !AlwaysRight(timeline, rows, cap)
  {
    var score, limit := Top(timeline, u, m), DeeperOf(timeline, u, m) + 1;
    assert Bound(Some(score + 1)) == AtMost(score);
    ReadExactly(timeline, AtMost(score), limit, m);
    HotSizes(timeline, rows, limit, Some(score + 1));
    if Live(timeline, v) {
      DeeperIsOlder(timeline, AtMost(score), FormatUint(u.id), FormatUint(v.id));
      DeeperIsOlder(timeline, AtMost(score), m, FormatUint(v.id));
    }
    SkippedIsWrong(timeline, rows, cap, limit, score, u, v);
  }

  /** On any table, rows of one millisecond included: every request with a limit up to the cap
      is answered rightly if and only if whatever could spoil it is hidden, a missing row
      behind deep entries, a missing tied row behind a full read, and a dead member beside a
      tie out of reach. */
  lemma RightExactly(timeline: ZSet, rows: set<Video>, cap: nat)
    requires ValidRows(rows) && GoodTimeline(timeline, rows) && timeline != map[]
    ensures AlwaysRight(timeline, rows, cap) <==> AllHidden(timeline, rows, cap)
  {
    if !HiddenGaps(timeline, rows, cap) {
      var v, u :| v in rows && u in rows && Live(timeline, u) && !Live(timeline, v) && u.createTime < v.createTime &&
        Depth(timeline, AtMost(v.createTime), FormatUint(u.id)) < cap;
      UnlistedIsLost(timeline, rows, cap, u, v);
    } else if !HiddenEnds(timeline, rows, cap) {
      var v, u :| v in rows && u in rows && Live(timeline, u) && !Live(timeline, v) && u.createTime == v.createTime &&
        |UpTo(timeline, AtMost(v.createTime))| < cap;
      TiedIsLost(timeline, rows, cap, u, v);
    } else if !HiddenSplits(timeline, rows, cap) {
      var u, v, m :| Splits(timeline, rows, u, v, m) && DeeperOf(timeline, u, m) < cap;
      SplitIsLost(timeline, rows, cap, u, v, m);
    } else {
      forall limit: nat, before, now | limit <= cap
        ensures NewestPage(rows, limit, before, ServeRows(timeline, rows, limit, before, now, true))
      {
        HiddenIsRight(timeline, rows, cap, limit, before, now);
      }
    }
  }

  // ---------- limits beyond the timeline ----------

  /** Rows as new as a live one are live. */
  ghost predicate LiveCoverWithTies(timeline: ZSet, rows: set<Video>)
  {
    forall v, u :: v in rows && u in rows && Live(timeline, u) && u.createTime <= v.createTime ==> Live(timeline, v)
  }

  /** No dead member ranks above the second of two live rows of one millisecond. */
  ghost predicate NoSplitTies(timeline: ZSet, rows: set<Video>)
  {
    forall u, v, m :: Splits(timeline, rows, u, v, m) ==> !Live(timeline, v)
  }

  /** Where a limit may exceed the timeline nothing is hidden, and what is left to ask is that
      no row as new as a live one be missing and no dead member split a tie. */
  lemma RightWithoutCap(timeline: ZSet, rows: set<Video>, cap: nat)
    requires ValidRows(rows) && GoodTimeline(timeline, rows) && timeline != map[] && cap > |timeline|
    ensures AlwaysRight(timeline, rows, cap) <==> LiveCoverWithTies(timeline, rows) && NoSplitTies(timeline, rows)
  {
    RightExactly(timeline, rows, cap);
    CoverExactly(timeline, rows, cap);
    NothingHidden(timeline, rows, cap);
  }

  lemma NothingHidden(timeline: ZSet, rows: set<Video>, cap: nat)
    requires cap > |timeline|
    ensures HiddenEnds(timeline, rows, cap) && LiveCover(timeline, rows) <==> LiveCoverWithTies(timeline, rows)
    ensures LiveCoverWithTies(timeline, rows) ==> (HiddenSplits(timeline, rows, cap) <==> NoSplitTies(timeline, rows))
  {
    forall score: int ensures |UpTo(timeline, AtMost(score))| < cap {
      SubsetSize(UpTo(timeline, AtMost(score)).Keys, timeline.Keys);
    }
    forall u, v, m | Splits(timeline, rows, u, v, m) ensures DeeperOf(timeline, u, m) < cap {
      DepthIsBounded(timeline, AtMost(Top(timeline, u, m)), FormatUint(u.id));
      DepthIsBounded(timeline, AtMost(Top(timeline, u, m)), m);
    }
  }
}
