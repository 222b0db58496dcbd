/** The Redis path of `ListByFollowing`: parse the inbox, pull from the followed big accounts
    and merge. The path is a heuristic; what it does guarantee is that
    its entries are genuine and that its pruning tests are lossless exactly on a full page. */
module FollowingFeed {
  import opened Collections
  import opened Wrappers
  import opened Decimal
  import opened Zset
  import opened VideoHeap
  import Merge
  import opened FollowingPage
  import opened BigAccounts

  const MAX_INT64: int := 0x7fff_ffff_ffff_ffff

  /** The text of the score bound: +inf on the first page, else one below the cursor. */
  function ScoreLimit(before: Option<int>): Option<int>
  {
    if before.None? then None else Some(before.value - 1)
  }

  /** A member that names a video. */
  ghost predicate WellFormed(e: Entry) { ParseUint(e.member).Some? && ParseUint(e.member).value != 0 }

  /** The bound as a number; without one the greatest 64-bit integer. */
  ghost predicate Within(score: int, maxScore: Option<int>)
  {
    match maxScore
    case None => score < 0x7fff_ffff_ffff_ffff
    case Some(max) => score < max
  }

  /** `ks` are, in order, the positions of the entries to keep: all of them and no other. */
  ghost predicate KeptAt(items: seq<Entry>, maxScore: Option<int>, ks: seq<nat>)
  {
    && (forall i, j :: 0 <= i < j < |ks| ==> ks[i] < ks[j])
    && (forall k: nat :: k in ks <==> k < |items| && WellFormed(items[k]) && Within(items[k].score, maxScore))
  }

  /** `s` holds the id and score of each of them. */
  ghost predicate Parses(items: seq<Entry>, maxScore: Option<int>, s: Merge.Stream, ks: seq<nat>)
  {
    && KeptAt(items, maxScore, ks) && |s| == |ks|
    && forall i :: 0 <= i < |s| ==> ks[i] in ks && s[i] == VideoWithTime(ParseUint(items[ks[i]].member).value, items[ks[i]].score)
  }

  ghost predicate ParsesTo(items: seq<Entry>, maxScore: Option<int>, s: Merge.Stream) { exists ks :: Parses(items, maxScore, s, ks) }

  lemma ParsesAt(items: seq<Entry>, maxScore: Option<int>, s: Merge.Stream, ks: seq<nat>, i: nat)
    requires Parses(items, maxScore, s, ks) && i < |s|
    ensures ks[i] < |items| && WellFormed(items[ks[i]]) && Within(items[ks[i]].score, maxScore)
    ensures s[i] == VideoWithTime(ParseUint(items[ks[i]].member).value, items[ks[i]].score)
  {
    assert ks[i] in ks;
  }

  method ParseZSetWithScores(items: seq<Entry>, maxScore: Option<int>) returns (result: seq<VideoWithTime>)
    ensures ParsesTo(items, maxScore, result)
  {
    var maxScoreVal := if maxScore.Some? then maxScore.value else MAX_INT64;
    result := [];
    ghost var ks: seq<nat> := [];
    for i := 0 to |items|
      invariant Parses(items[..i], maxScore, result, ks)
    {
      ghost var before, was := result, ks;
      var id := ParseUint(items[i].member);
      assert items[..i + 1] == items[..i] + [items[i]];
      if id.None? || id.value == 0 {
        ParsesPast(items[..i], maxScore, result, ks, items[i]);
        continue;
      }
      if items[i].score >= maxScoreVal {
        ParsesPast(items[..i], maxScore, result, ks, items[i]);
        continue;
      }
      result := result + [VideoWithTime(id.value, items[i].score)];
      ks := ks + [i];
      ParsesMore(items[..i], maxScore, before, was, items[i]);
    }
    assert items[..|items|] == items;
  }

  lemma ParsesPast(items: seq<Entry>, maxScore: Option<int>, s: Merge.Stream, ks: seq<nat>, e: Entry)
    requires Parses(items, maxScore, s, ks) && !(WellFormed(e) && Within(e.score, maxScore))
    ensures Parses(items + [e], maxScore, s, ks)
  {
    forall k: nat ensures k in ks <==> k < |items + [e]| && WellFormed((items + [e])[k]) && Within((items + [e])[k].score, maxScore) {
      if k < |items| { assert (items + [e])[k] == items[k]; }
    }
  }

  lemma ParsesMore(items: seq<Entry>, maxScore: Option<int>, s: Merge.Stream, ks: seq<nat>, e: Entry)
    requires Parses(items, maxScore, s, ks) && WellFormed(e) && Within(e.score, maxScore)
    ensures Parses(items + [e], maxScore, s + [VideoWithTime(ParseUint(e.member).value, e.score)], ks + [|items|])
  {
    var more := ks + [|items|];
    forall k: nat ensures k in more <==> k < |items + [e]| && WellFormed((items + [e])[k]) && Within((items + [e])[k].score, maxScore) {
      assert k in more <==> k in ks || k == |items|;
      if k < |items| { assert (items + [e])[k] == items[k]; }
    }
    forall i, j | 0 <= i < j < |more| ensures more[i] < more[j] {
      if j == |ks| { assert ks[i] in ks; }
    }
    var longer := s + [VideoWithTime(ParseUint(e.member).value, e.score)];
    forall i | 0 <= i < |longer|
      ensures more[i] in more && longer[i] == VideoWithTime(ParseUint((items + [e])[more[i]].member).value, (items + [e])[more[i]].score)
    {
      if i < |s| { assert ks[i] in ks; }
    }
  }

  /** Every member is the decimal text of an id, as the workers write them. */
  ghost predicate Canonical(z: ZSet)
  {
    forall m :: m in z ==> exists id: nat :: m == FormatUint(id)
  }

  /** A stream read from `z`: ordered, without repeats, older than the cursor, really stored. */
  ghost predicate Genuine(s: Merge.Stream, z: ZSet, before: Option<int>)
  {
    Merge.Sorted(s) && NoRepeats(s) && forall i :: 0 <= i < |s| ==> Stored(z, before, s[i])
  }

  ghost predicate Stored(z: ZSet, before: Option<int>, v: VideoWithTime)
  {
    && FormatUint(v.videoID) in z && z[FormatUint(v.videoID)] == v.createTime
    && (before.Some? ==> v.createTime < before.value)
  }

  /** `s` is what a read of the newest `count` entries of `z` parses to. */
  ghost predicate IsRead(s: Merge.Stream, z: ZSet, count: nat, before: Option<int>)
  {
    count > 0 && ParsesTo(ZRevRangeWithScores(z, 0, count - 1), ScoreLimit(before), s)
  }

  /** What the merge needs of a stream read from a sorted set: newest first, no id twice,
      everything older than the cursor and really stored. */
  lemma StreamIsGenuine(s: Merge.Stream, z: ZSet, count: nat, before: Option<int>)
    requires IsRead(s, z, count, before)
    ensures Merge.Sorted(s) && (Canonical(z) ==> Genuine(s, z, before))
  {
    var ks :| Parses(ZRevRangeWithScores(z, 0, count - 1), ScoreLimit(before), s, ks);
    forall i, j | 0 <= i < j < |s|
      ensures s[i].createTime >= s[j].createTime && (Canonical(z) ==> s[i].videoID != s[j].videoID)
    {
      EarlierIsNewer(s, z, count, before, ks, i, j);
    }
    if Canonical(z) {
      forall i | 0 <= i < |s| ensures Stored(z, before, s[i]) {
        ParsesAt(ZRevRangeWithScores(z, 0, count - 1), ScoreLimit(before), s, ks, i);
        EntryIsStored(z, count, before, ks[i]);
      }
    }
  }

  lemma EarlierIsNewer(s: Merge.Stream, z: ZSet, count: nat, before: Option<int>, ks: seq<nat>, i: nat, j: nat)
    requires count > 0 && Parses(ZRevRangeWithScores(z, 0, count - 1), ScoreLimit(before), s, ks) && i < j < |s|
    ensures s[i].createTime >= s[j].createTime && (Canonical(z) ==> s[i].videoID != s[j].videoID)
  {
    ParsesAt(ZRevRangeWithScores(z, 0, count - 1), ScoreLimit(before), s, ks, i);
    ParsesAt(ZRevRangeWithScores(z, 0, count - 1), ScoreLimit(before), s, ks, j);
    EntriesInOrder(z, 0, count - 1, ks[i], ks[j]);
    if Canonical(z) {
      EntryIsStored(z, count, before, ks[i]);
      EntryIsStored(z, count, before, ks[j]);
    }
  }

  lemma ReadIsOrdered(s: Merge.Stream, z: ZSet, count: nat, before: Option<int>)
    requires IsRead(s, z, count, before)
    ensures Merge.Sorted(s) && (Canonical(z) ==> NoRepeats(s))
  {
    StreamIsGenuine(s, z, count, before);
  }

  /** An entry of the read, under the id its member names. */
  lemma EntryIsStored(z: ZSet, count: nat, before: Option<int>, k: nat)
    requires count > 0 && Canonical(z) && k < |ZRevRangeWithScores(z, 0, count - 1)|
    requires WellFormed(ZRevRangeWithScores(z, 0, count - 1)[k])
    ensures var e := ZRevRangeWithScores(z, 0, count - 1)[k];
            && FormatUint(ParseUint(e.member).value) == e.member && e.member in z && z[e.member] == e.score
  {
    EntryAt(z, 0, count - 1, k);
    MemberOfId(z, ZRevRangeWithScores(z, 0, count - 1)[k].member);
  }

  lemma MemberOfId(z: ZSet, m: Member)
    requires Canonical(z) && m in z && ParseUint(m).Some?
    ensures FormatUint(ParseUint(m).value) == m
  {
    var id: nat :| m == FormatUint(id);
    ParseFormatRoundTrip(id);
  }

  lemma EntryAt(z: ZSet, start: nat, stop: int, k: nat)
    requires k < |ZRevRangeWithScores(z, start, stop)|
    ensures var e := ZRevRangeWithScores(z, start, stop)[k]; e.member in z && e.score == z[e.member]
  {
    assert ZRevRange(z, start, stop)[k] in ZRevRange(z, start, stop);
  }

  lemma EntriesInOrder(z: ZSet, start: nat, stop: int, i: nat, j: nat)
    requires i < j < |ZRevRangeWithScores(z, start, stop)|
    ensures var es := ZRevRangeWithScores(z, start, stop); es[i].score >= es[j].score && es[i].member != es[j].member
  {
    var d := Descending(z);
    DescendingIsSorted(z);
    var ms := ZRevRange(z, start, stop);
    assert ms[i] == d[start + i] && ms[j] == d[start + j];
    assert Newer(z, d[start + i], d[start + j]);
    NewerIrreflexive(z, d[start + i]);
  }

  /** A member of `z` among its newest `count` that names this video at this time, and passes
      the bound. */
  ghost predicate Readable(z: ZSet, count: nat, before: Option<int>, x: VideoWithTime)
  {
    x.videoID != 0 && Within(x.createTime, ScoreLimit(before)) &&
    exists m :: m in z && |Above(z, m)| < count && ParseUint(m) == Some(x.videoID) && z[m] == x.createTime
  }

  /** A read loses nothing: it holds exactly what is readable. */
  lemma ReadIsComplete(s: Merge.Stream, z: ZSet, count: nat, before: Option<int>, x: VideoWithTime)
    requires IsRead(s, z, count, before)
    ensures x in s <==> Readable(z, count, before, x)
  {
    var ks :| Parses(ZRevRangeWithScores(z, 0, count - 1), ScoreLimit(before), s, ks);
    if x in s {
      var i :| 0 <= i < |s| && s[i] == x;
      ReadIsReadable(s, z, count, before, ks, i);
    }
    if Readable(z, count, before, x) {
      var m :| m in z && |Above(z, m)| < count && ParseUint(m) == Some(x.videoID) && z[m] == x.createTime;
      ReadableIsRead(s, z, count, before, ks, x, m);
    }
  }

  lemma EntryOf(z: ZSet, count: nat, k: nat)
    requires count > 0 && k < |ZRevRangeWithScores(z, 0, count - 1)|
    ensures var e := ZRevRangeWithScores(z, 0, count - 1)[k]; e.member in z && |Above(z, e.member)| < count && e.score == z[e.member]
  {
    var ms := ZRevRange(z, 0, count - 1);
    assert ms[k] in ms;
    RangeExactly(z, count, ms[k]);
  }

  lemma ReadIsReadable(s: Merge.Stream, z: ZSet, count: nat, before: Option<int>, ks: seq<nat>, i: nat)
    requires count > 0 && Parses(ZRevRangeWithScores(z, 0, count - 1), ScoreLimit(before), s, ks) && i < |s|
    ensures Readable(z, count, before, s[i])
  {
    ParsesAt(ZRevRangeWithScores(z, 0, count - 1), ScoreLimit(before), s, ks, i);
    EntryOf(z, count, ks[i]);
  }

  lemma ReadableIsRead(s: Merge.Stream, z: ZSet, count: nat, before: Option<int>, ks: seq<nat>, x: VideoWithTime, m: Member)
    requires count > 0 && Parses(ZRevRangeWithScores(z, 0, count - 1), ScoreLimit(before), s, ks) && x.videoID != 0
    requires m in z && |Above(z, m)| < count && ParseUint(m) == Some(x.videoID) && z[m] == x.createTime
    requires Within(x.createTime, ScoreLimit(before))
    ensures x in s
  {
    var ms, items := ZRevRange(z, 0, count - 1), ZRevRangeWithScores(z, 0, count - 1);
    RangeExactly(z, count, m);
    var k: nat :| k < |ms| && ms[k] == m;
    assert items[k] == Entry(m, z[m]) && k in ks;
    var i :| 0 <= i < |ks| && ks[i] == k;
    assert s[i] == x;
  }

  /** The cursor filter is off by one: the text says cursor - 1 and the test is strict, so
      the entry of the preceding millisecond is lost. A read keeps every well-formed entry
      older than the cursor exactly when none of them is one millisecond older. */
  lemma CursorFilterExact(items: seq<Entry>, before: int, s: Merge.Stream, ks: seq<nat>)
    requires Parses(items, ScoreLimit(Some(before)), s, ks)
    ensures (forall k: nat :: k in ks <==> k < |items| && WellFormed(items[k]) && items[k].score < before)
       <==> (forall k :: 0 <= k < |items| && WellFormed(items[k]) ==> items[k].score != before - 1)
  {
    if k: nat :| k < |items| && WellFormed(items[k]) && items[k].score == before - 1 {
      assert k !in ks;
    }
  }

  /** And nothing in a read is newer than the newest entry of `z`. */
  lemma ReadIsOld(s: Merge.Stream, z: ZSet, count: nat, before: Option<int>)
    requires IsRead(s, z, count, before)
    ensures NoneNewer(multiset(s), HighestScore(z))
  {
    forall x | x in multiset(s) ensures x.createTime <= HighestScore(z) {
      assert x in s;
      ReadIsComplete(s, z, count, before, x);
      var m :| m in z && |Above(z, m)| < count && ParseUint(m) == Some(x.videoID) && z[m] == x.createTime;
      HighestScoreIsMaximum(z, m);
    }
  }

  // ---------- the whole Redis path ----------

  /** A share is read unless it is zero, the read fails or there is nothing to find. */
  ghost predicate Due(bv: BigV, take: nat, userVideos: map<nat, ZSet>, failed: set<nat>)
  {
    take > 0 && bv.id !in failed && bv.id in userVideos && userVideos[bv.id] != map[]
  }

  /** The streams pulled: in order of the accounts, one read of its share from each that is due. */
  ghost predicate ArePulls(pulls: seq<Merge.Stream>, sorted: seq<BigV>, takes: seq<nat>, userVideos: map<nat, ZSet>, failed: set<nat>,
      before: Option<int>, js: seq<nat>)
    requires |takes| == |sorted|
  {
    && |js| == |pulls| && DueAt(sorted, takes, userVideos, failed, js)
    && forall i :: 0 <= i < |pulls| ==> js[i] in js && IsRead(pulls[i], userVideos[sorted[js[i]].id], takes[js[i]], before)
  }

  /** In order, the positions of the accounts whose share is due. */
  ghost predicate DueAt(sorted: seq<BigV>, takes: seq<nat>, userVideos: map<nat, ZSet>, failed: set<nat>, js: seq<nat>)
    requires |takes| == |sorted|
  {
    && (forall i, j :: 0 <= i < j < |js| ==> js[i] < js[j])
    && (forall j: nat :: j in js <==> j < |sorted| && Due(sorted[j], takes[j], userVideos, failed))
  }

  lemma DueMore(sorted: seq<BigV>, takes: seq<nat>, userVideos: map<nat, ZSet>, failed: set<nat>, js: seq<nat>, bv: BigV, take: nat)
    requires |takes| == |sorted| && DueAt(sorted, takes, userVideos, failed, js)
    ensures DueAt(sorted + [bv], takes + [take], userVideos, failed, if Due(bv, take, userVideos, failed) then js + [|sorted|] else js)
  {
    var more := if Due(bv, take, userVideos, failed) then js + [|sorted|] else js;
    forall j: nat ensures j in more <==> j < |sorted + [bv]| && Due((sorted + [bv])[j], (takes + [take])[j], userVideos, failed) {
      if j < |sorted| { assert (sorted + [bv])[j] == sorted[j] && (takes + [take])[j] == takes[j]; }
    }
    forall i, j | 0 <= i < j < |more| ensures more[i] < more[j] {
      if j == |js| { assert js[i] in js; }
    }
  }

  lemma ReadIsEmpty(z: ZSet, count: nat)
    requires count > 0
    ensures ZRevRangeWithScores(z, 0, count - 1) == [] <==> z == map[]
  {
  }

  lemma PullsPast(pulls: seq<Merge.Stream>, sorted: seq<BigV>, takes: seq<nat>, userVideos: map<nat, ZSet>, failed: set<nat>,
      before: Option<int>, js: seq<nat>, bv: BigV, take: nat)
    requires |takes| == |sorted| && ArePulls(pulls, sorted, takes, userVideos, failed, before, js) && !Due(bv, take, userVideos, failed)
    ensures ArePulls(pulls, sorted + [bv], takes + [take], userVideos, failed, before, js)
  {
    DueMore(sorted, takes, userVideos, failed, js, bv, take);
  }

  lemma PullsMore(pulls: seq<Merge.Stream>, sorted: seq<BigV>, takes: seq<nat>, userVideos: map<nat, ZSet>, failed: set<nat>,
      before: Option<int>, js: seq<nat>, bv: BigV, take: nat, s: Merge.Stream)
    requires |takes| == |sorted| && ArePulls(pulls, sorted, takes, userVideos, failed, before, js) && Due(bv, take, userVideos, failed)
    requires IsRead(s, userVideos[bv.id], take, before)
    ensures ArePulls(pulls + [s], sorted + [bv], takes + [take], userVideos, failed, before, js + [|sorted|])
  {
    var more := js + [|sorted|];
    DueMore(sorted, takes, userVideos, failed, js, bv, take);
    forall i | 0 <= i < |pulls + [s]|
      ensures more[i] in more && IsRead((pulls + [s])[i], userVideos[(sorted + [bv])[more[i]].id], (takes + [take])[more[i]], before)
    {
      if i < |pulls| { assert js[i] in js; }
    }
  }

  method ReadShare(bv: BigV, take: nat, userVideos: map<nat, ZSet>, failed: set<nat>, before: Option<int>) returns (s: Option<Merge.Stream>)
    ensures s.Some? <==> Due(bv, take, userVideos, failed)
    ensures s.Some? ==> IsRead(s.value, userVideos[bv.id], take, before)
  {
    if take == 0 || bv.id in failed {
      return None;
    }
    var items := ZRevRangeWithScores(OutboxOf(userVideos, bv.id), 0, take - 1);
    ReadIsEmpty(OutboxOf(userVideos, bv.id), take);
    if |items| == 0 {
      return None;
    }
    var parsed := ParseZSetWithScores(items, ScoreLimit(before));
    s := Some(parsed);
  }

  method PullStreams(sorted: seq<BigV>, takes: seq<nat>, userVideos: map<nat, ZSet>, failed: set<nat>, before: Option<int>)
    returns (pulls: seq<Merge.Stream>)
    requires |takes| == |sorted|
    ensures exists js :: ArePulls(pulls, sorted, takes, userVideos, failed, before, js)
  {
    pulls := [];
    ghost var js: seq<nat> := [];
    for i := 0 to |sorted|
      invariant ArePulls(pulls, sorted[..i], takes[..i], userVideos, failed, before, js)
    {
      assert sorted[..i + 1] == sorted[..i] + [sorted[i]] && takes[..i + 1] == takes[..i] + [takes[i]];
      var share := ReadShare(sorted[i], takes[i], userVideos, failed, before);
      if share.Some? {
        PullsMore(pulls, sorted[..i], takes[..i], userVideos, failed, before, js, sorted[i], takes[i], share.value);
        pulls, js := pulls + [share.value], js + [i];
      } else {
        PullsPast(pulls, sorted[..i], takes[..i], userVideos, failed, before, js, sorted[i], takes[i]);
      }
    }
    assert sorted[..|sorted|] == sorted && takes[..|takes|] == takes;
  }

  lemma PullsAreSorted(pulls: seq<Merge.Stream>, sorted: seq<BigV>, takes: seq<nat>, userVideos: map<nat, ZSet>, failed: set<nat>,
      before: Option<int>, js: seq<nat>)
    requires |takes| == |sorted| && ArePulls(pulls, sorted, takes, userVideos, failed, before, js)
    ensures Merge.AllSorted(pulls)
  {
    forall i | 0 <= i < |pulls| ensures Merge.Sorted(pulls[i]) {
      StreamIsGenuine(pulls[i], userVideos[sorted[js[i]].id], takes[js[i]], before);
    }
  }

  method NewCursors(streams: seq<Merge.Stream>) returns (cursors: seq<StreamCursor>)
    ensures Merge.StreamsOf(cursors) == streams && Merge.DistinctCursors(cursors)
    ensures forall k :: 0 <= k < |cursors| ==> fresh(cursors[k]) && cursors[k].pos == 0
  {
    cursors := [];
    for i := 0 to |streams|
      invariant |cursors| == i && Merge.DistinctCursors(cursors)
      invariant forall k :: 0 <= k < i ==> fresh(cursors[k]) && cursors[k].pos == 0 && cursors[k].items == streams[k]
    {
      var c := new StreamCursor(streams[i]);
      cursors := cursors + [c];
    }
  }

  /** Merging any sorted streams gives their page. */
  method MergeStreams(streams: seq<Merge.Stream>, limit: nat) returns (ids: seq<nat>)
    requires Merge.AllSorted(streams)
    ensures IsPage(Merge.AllItems(streams), limit, ids)
  {
    var cursors := NewCursors(streams);
    ids := Merge.MergeAndDedup(cursors, limit);
    ghost var merged :| Merge.IsMergeOf(Merge.StreamsOf(cursors), merged) && ids == Take(Merge.DedupIds(merged), limit);
    MergeGivesPage(Merge.AllItems(streams), merged, limit);
  }

  /** What must be pulled beside the inbox stream: nothing when the page is full and no
      account has anything newer, else the fair shares of the accounts, most active first. */
  ghost predicate RightPulls(push: Merge.Stream, samples: map<nat, int>, userVideos: map<nat, ZSet>, failed: set<nat>,
      limit: nat, before: Option<int>, pulls: seq<Merge.Stream>)
  {
    if |push| >= limit && push != [] && Oldest(push) >= 0 && (forall id :: id in samples ==> samples[id] <= Oldest(push))
    then pulls == []
    else exists sorted, takes, js ::
      && Lists(sorted, samples) && MostActiveFirst(sorted) && FairShares(push, limit, sorted, takes)
      && ArePulls(pulls, sorted, takes, userVideos, failed, before, js)
  }

  method PullAround(push: Merge.Stream, samples: map<nat, int>, userVideos: map<nat, ZSet>, failed: set<nat>, limit: nat, before: Option<int>)
    returns (pulls: seq<Merge.Stream>)
    ensures Merge.AllSorted(pulls) && RightPulls(push, samples, userVideos, failed, limit, before, pulls)
  {
    var accounts := ReadOut(samples);
    var newest := NewestScore(accounts);
    ExitTest(push, samples, accounts, newest, limit);
    if |push| >= limit && push != [] && newest <= Oldest(push) {
      return [];
    }
    var sorted := SortedByActivity(accounts);
    SortStillLists(accounts, samples);
    var takes := AllocateQuota(push, limit, sorted);
    pulls := PullStreams(sorted, takes, userVideos, failed, before);
    ghost var js :| ArePulls(pulls, sorted, takes, userVideos, failed, before, js);
    PullsAreSorted(pulls, sorted, takes, userVideos, failed, before, js);
  }

  /** The exit test against the samples themselves. */
  lemma ExitTest(push: Merge.Stream, samples: map<nat, int>, accounts: seq<BigV>, newest: int, limit: nat)
    requires Lists(accounts, samples) && newest >= 0
    requires forall i :: 0 <= i < |accounts| ==> accounts[i].newestAt <= newest
    requires newest == 0 || exists i :: 0 <= i < |accounts| && accounts[i].newestAt == newest
    ensures |push| >= limit && push != [] && newest <= Oldest(push) <==>
              |push| >= limit && push != [] && Oldest(push) >= 0 && forall id :: id in samples ==> samples[id] <= Oldest(push)
  {
    forall id | id in samples ensures samples[id] <= newest {
      assert BigV(id, samples[id]) in accounts;
    }
    if newest != 0 {
      var i :| 0 <= i < |accounts| && accounts[i].newestAt == newest;
      assert accounts[i] in accounts;
    }
  }

  /** How the calls of one request go: the read of the inbox, the read of each sample and the
      read of each pull. */
  datatype Calls = Calls(inboxFails: bool, sampleFails: set<nat>, pullFails: set<nat>)

  /** Further reads of cold accounts: what the pruning leaves out. */
  ghost predicate ColdReads(extra: seq<Merge.Stream>, push: Merge.Stream, samples: map<nat, int>, userVideos: map<nat, ZSet>, before: Option<int>)
  {
    forall p :: 0 <= p < |extra| ==> exists id, count ::
      id in samples && Cold(push, BigV(id, samples[id])) && IsRead(extra[p], OutboxOf(userVideos, id), count, before)
  }

  /** Nothing would change on the page if the cold accounts were read as well. */
  ghost predicate PruningIsLossless(push: Merge.Stream, pulls: seq<Merge.Stream>, samples: map<nat, int>, userVideos: map<nat, ZSet>,
      limit: nat, before: Option<int>, ids: seq<nat>)
  {
    forall extra, full ::
      ColdReads(extra, push, samples, userVideos, before) && IsPage(Merge.AllItems([push] + pulls + extra), limit, full) ==>
      SameTimes(Merge.AllItems([push] + pulls + extra), full, Merge.AllItems([push] + pulls), ids)
  }

  method ReadNewest(z: ZSet, count: nat, before: Option<int>) returns (s: Merge.Stream)
    requires count > 0
    ensures IsRead(s, z, count, before)
  {
    s := ParseZSetWithScores(ZRevRangeWithScores(z, 0, count - 1), ScoreLimit(before));
  }

  /** The inbox, twice the page deep; a failed read counts as an empty one. */
  method ReadPush(inbox: ZSet, fails: bool, limit: nat, before: Option<int>) returns (push: Merge.Stream)
    requires limit >= 1
    ensures if fails then push == [] else IsRead(push, inbox, limit * 2, before)
    ensures Merge.Sorted(push) && (Canonical(inbox) ==> NoRepeats(push))
  {
    if fails {
      return [];
    }
    push := ReadNewest(inbox, limit * 2, before);
    ReadIsOrdered(push, inbox, limit * 2, before);
  }

  /** The newest time of every followed big account whose read succeeds and finds something. */
  method SampleMembers(members: seq<string>, userVideos: map<nat, ZSet>, failed: set<nat>) returns (accounts: seq<nat>, samples: map<nat, int>)
    ensures Sampled(samples, accounts, userVideos, failed)
    ensures forall id :: id in samples <==>
              (exists i :: 0 <= i < |members| && NamesAccount(members[i], id)) && id !in failed && OutboxOf(userVideos, id) != map[]
  {
    accounts := ParseAccounts(members);
    samples := Sample(accounts, userVideos, failed);
  }

  /** From the inbox and the followed accounts to the merged ids. The result is the page of the
      parsed inbox read and the pulled streams; and on a full inbox page, leaving out the cold
      accounts, on an early exit all of them, changes no time on it. */
  method MergedIds(inbox: ZSet, members: seq<string>, userVideos: map<nat, ZSet>, c: Calls, limit: nat, before: Option<int>)
    returns (ids: seq<nat>, push: Merge.Stream, pulls: seq<Merge.Stream>, samples: map<nat, int>)
    requires limit >= 1
    ensures Merge.Sorted(push) && (Canonical(inbox) ==> NoRepeats(push))
    ensures forall x :: x in push <==> !c.inboxFails && Readable(inbox, limit * 2, before, x)
    ensures forall id :: id in samples <==>
              (exists i :: 0 <= i < |members| && NamesAccount(members[i], id)) && id !in c.sampleFails && OutboxOf(userVideos, id) != map[]
    ensures forall id :: id in samples ==> samples[id] == HighestScore(OutboxOf(userVideos, id))
    ensures RightPulls(push, samples, userVideos, c.pullFails, limit, before, pulls)
    ensures IsPage(Merge.AllItems([push] + pulls), limit, ids)
    ensures Canonical(inbox) && |push| >= limit ==> PruningIsLossless(push, pulls, samples, userVideos, limit, before, ids)
  {
    push := ReadPush(inbox, c.inboxFails, limit, before);
    var accounts;
    accounts, samples := SampleMembers(members, userVideos, c.sampleFails);
    if !c.inboxFails {
      forall x ensures x in push <==> Readable(inbox, limit * 2, before, x) { ReadIsComplete(push, inbox, limit * 2, before, x); }
    }
    pulls := PullAround(push, samples, userVideos, c.pullFails, limit, before);
    OneMoreStream(push, pulls);
    ids := MergeStreams([push] + pulls, limit);
    if Canonical(inbox) && |push| >= limit {
      ColdSkipIsLossless(push, pulls, accounts, samples, userVideos, c.sampleFails, limit, before, ids);
    }
  }

  lemma OneMoreStream(push: Merge.Stream, pulls: seq<Merge.Stream>)
    requires Merge.Sorted(push) && Merge.AllSorted(pulls)
    ensures Merge.AllSorted([push] + pulls)
  {
  }

  // ---------- when the pruning is lossless ----------

  lemma ColdReadsAreOld(extra: seq<Merge.Stream>, push: Merge.Stream, accounts: seq<nat>, samples: map<nat, int>, userVideos: map<nat, ZSet>,
      failed: set<nat>, before: Option<int>)
    requires push != [] && Sampled(samples, accounts, userVideos, failed) && ColdReads(extra, push, samples, userVideos, before)
    ensures NoneNewer(Merge.AllItems(extra), Oldest(push))
  {
    forall x | x in Merge.AllItems(extra) ensures x.createTime <= Oldest(push) {
      Merge.ItemIsInStream(extra, x);
      var p :| 0 <= p < |extra| && x in multiset(extra[p]);
      var id, count :| id in samples && Cold(push, BigV(id, samples[id])) && IsRead(extra[p], OutboxOf(userVideos, id), count, before);
      ReadIsOld(extra[p], OutboxOf(userVideos, id), count, before);
    }
  }

  /** The inbox stream is part of what is merged. */
  lemma PushIsMerged(push: Merge.Stream, pulls: seq<Merge.Stream>)
    ensures multiset(push) <= Merge.AllItems([push] + pulls)
  {
    Merge.AllItemsConcat([push], pulls);
    Merge.AllItemsStep([], push);
    assert [] + [push] == [push];
  }

  /** On a full inbox page, leaving out the cold accounts loses nothing, whatever the others
      contribute. */
  lemma ColdSkipIsLossless(push: Merge.Stream, pulls: seq<Merge.Stream>, accounts: seq<nat>, samples: map<nat, int>, userVideos: map<nat, ZSet>,
      failed: set<nat>, limit: nat, before: Option<int>, ids: seq<nat>)
    requires Merge.Sorted(push) && NoRepeats(push) && push != [] && |push| >= limit
    requires Sampled(samples, accounts, userVideos, failed) && IsPage(Merge.AllItems([push] + pulls), limit, ids)
    ensures PruningIsLossless(push, pulls, samples, userVideos, limit, before, ids)
  {
    var kept := Merge.AllItems([push] + pulls);
    PushIsMerged(push, pulls);
    PushFillsPage(kept, push);
    forall extra, full
      | ColdReads(extra, push, samples, userVideos, before) && IsPage(Merge.AllItems([push] + pulls + extra), limit, full)
      ensures SameTimes(Merge.AllItems([push] + pulls + extra), full, kept, ids)
    {
      Merge.AllItemsConcat([push] + pulls, extra);
      ColdReadsAreOld(extra, push, accounts, samples, userVideos, failed, before);
      SkipIsLossless(kept, Merge.AllItems(extra), Oldest(push), limit, full, ids);
    }
  }

  /** The cold test is lossless exactly on a full inbox page: with a shorter one some video of
      a cold account belongs on the page. */
  lemma ColdSkipExactly(push: Merge.Stream, limit: nat)
    requires Merge.Sorted(push) && NoRepeats(push) && push != []
    ensures LosslessSkip(multiset(push), limit, Oldest(push)) <==> |push| >= limit
  {
    PushFillsExactly(push);
    SkipExactly(multiset(push), limit, Oldest(push));
  }

  /** With warm accounts pulled beside it, exactly when inbox and pulls together hold enough
      ids no older than the inbox's oldest entry. */
  lemma WarmColdSkipExactly(push: Merge.Stream, pulls: seq<Merge.Stream>, limit: nat)
    requires push != []
    ensures LosslessSkip(Merge.AllItems([push] + pulls), limit, Oldest(push)) <==>
              |NewerThan(Merge.AllItems([push] + pulls), Oldest(push))| >= limit
  {
    SkipExactly(Merge.AllItems([push] + pulls), limit, Oldest(push));
  }
}
