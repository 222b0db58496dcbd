/** What a merged page means to a reader, and when a stream may be left out of the merge
    without changing the page. */
module FollowingPage {
  import opened Collections
  import opened VideoHeap
  import opened Merge

  // ---------- the page of a multiset of items ----------

  function Ids(all: multiset<VideoWithTime>): set<nat>
  {
    set x | x in all :: x.videoID
  }

  /** `t` is the newest time under which `id` occurs. */
  ghost predicate IsBest(all: multiset<VideoWithTime>, id: nat, t: int)
  {
    VideoWithTime(id, t) in all && forall x :: x in all && x.videoID == id ==> x.createTime <= t
  }

  lemma {:induction false} BestExists(all: multiset<VideoWithTime>, id: nat)
    requires id in Ids(all)
    ensures exists t :: IsBest(all, id, t)
    decreases |all|
  {
    var x :| x in all && x.videoID == id;
    assert x == VideoWithTime(id, x.createTime);
    var rest := all - multiset{x};
    if id in Ids(rest) {
      BestExists(rest, id);
      var t :| IsBest(rest, id, t);
      var best := if t < x.createTime then x.createTime else t;
      forall y | y in all && y.videoID == id ensures y.createTime <= best { if y != x { assert y in rest; } }
      assert VideoWithTime(id, best) in all;
      assert IsBest(all, id, best);
    } else {
      forall y | y in all && y != x ensures y.videoID in Ids(rest) { assert y in rest; }
      assert IsBest(all, id, x.createTime);
    }
  }

  ghost function Best(all: multiset<VideoWithTime>, id: nat): (t: int)
    requires id in Ids(all)
    ensures IsBest(all, id, t)
  {
    BestExists(all, id);
    var t :| IsBest(all, id, t);
    t
  }

  function Min(a: nat, b: nat): nat { if a <= b then a else b }

  /** The newest `limit` ids, each once, newest first, each placed by its newest time. */
  ghost predicate IsPage(all: multiset<VideoWithTime>, limit: nat, page: seq<nat>)
  {
    && Distinct(page)
    && |page| == Min(limit, |Ids(all)|)
    && (forall id :: id in page ==> id in Ids(all))
    && (forall i, j :: 0 <= i < j < |page| ==> Best(all, page[i]) >= Best(all, page[j]))
    && (forall i, id :: 0 <= i < |page| && id in Ids(all) && id !in page ==> Best(all, page[i]) >= Best(all, id))
  }

  // ---------- sort, dedup, take yields that page ----------

  lemma {:induction false} DedupDistinct(s: seq<VideoWithTime>)
    ensures Distinct(DedupIds(s))
  {
    if s != [] { DedupDistinct(s[..|s| - 1]); }
  }

  /** Where the i-th deduplicated id first occurs: earlier ids occur earlier. */
  lemma {:induction false} DedupFirstAt(s: seq<VideoWithTime>, i: nat) returns (p: nat)
    requires i < |DedupIds(s)|
    ensures p < |s| && s[p].videoID == DedupIds(s)[i]
    ensures forall j :: 0 <= j < p ==> s[j].videoID != s[p].videoID
    ensures forall j :: 0 <= j < p ==> s[j].videoID in DedupIds(s)[..i]
  {
    var before := s[..|s| - 1];
    if i < |DedupIds(before)| {
      p := DedupFirstAt(before, i);
      assert DedupIds(s)[..i] == DedupIds(before)[..i];
    } else {
      p := |s| - 1;
      assert DedupIds(s)[..i] == DedupIds(before);
      forall j | 0 <= j < p ensures s[j].videoID in DedupIds(before) { assert before[j] == s[j]; }
    }
  }

  /** In a sorted list an id first occurs at its newest time. */
  lemma FirstIsBest(s: seq<VideoWithTime>, p: nat)
    requires Sorted(s) && p < |s| && forall j :: 0 <= j < p ==> s[j].videoID != s[p].videoID
    ensures s[p].videoID in Ids(multiset(s))
    ensures Best(multiset(s), s[p].videoID) == s[p].createTime
  {
    var id := s[p].videoID;
    assert s[p] in multiset(s);
    assert s[p] == VideoWithTime(id, s[p].createTime);
    forall x | x in multiset(s) && x.videoID == id ensures x.createTime <= s[p].createTime {
      assert x in s;
      var j :| 0 <= j < |s| && s[j] == x;
    }
  }

  /** Deduplicated ids stand in order of their newest times. */
  lemma DedupOrdered(s: seq<VideoWithTime>, i: nat, j: nat)
    requires Sorted(s) && i < j < |DedupIds(s)|
    ensures DedupIds(s)[i] in Ids(multiset(s)) && DedupIds(s)[j] in Ids(multiset(s))
    ensures Best(multiset(s), DedupIds(s)[i]) >= Best(multiset(s), DedupIds(s)[j])
  {
    var p := DedupFirstAt(s, i);
    var r := DedupFirstAt(s, j);
    FirstIsBest(s, p);
    FirstIsBest(s, r);
    DedupDistinct(s);
    assert s[r].videoID !in DedupIds(s)[..i];
    assert p <= r;
  }

  lemma DedupKeepsIds(all: multiset<VideoWithTime>, merged: seq<VideoWithTime>)
    requires multiset(merged) == all
    ensures forall id :: id in DedupIds(merged) <==> id in Ids(all)
    ensures |DedupIds(merged)| == |Ids(all)|
  {
    var ids := DedupIds(merged);
    forall id | id in ids ensures id in Ids(all) {
      var i :| 0 <= i < |merged| && merged[i].videoID == id;
      assert merged[i] in multiset(merged);
    }
    forall id | id in Ids(all) ensures id in ids {
      var x :| x in all && x.videoID == id;
      assert x in merged;
    }
    DedupDistinct(merged);
    DistinctSize(ids);
    assert Elements(ids) == Ids(all);
  }

  /** Sorting all items, dropping repeated ids and taking the first `limit` gives the page. */
  lemma MergeGivesPage(all: multiset<VideoWithTime>, merged: seq<VideoWithTime>, limit: nat)
    requires Sorted(merged) && multiset(merged) == all
    ensures IsPage(all, limit, Take(DedupIds(merged), limit))
  {
    var ids := DedupIds(merged);
    var page := Take(ids, limit);
    DedupDistinct(merged);
    DedupKeepsIds(all, merged);
    forall i, j | 0 <= i < j < |ids| ensures Best(all, ids[i]) >= Best(all, ids[j]) {
      DedupOrdered(merged, i, j);
    }
    assert forall i :: 0 <= i < |page| ==> page[i] == ids[i];
    forall i, id | 0 <= i < |page| && id in Ids(all) && id !in page ensures Best(all, page[i]) >= Best(all, id) {
      var j :| 0 <= j < |ids| && ids[j] == id;
      assert forall k :: 0 <= k < |page| ==> ids[k] != id;
      assert Best(all, ids[i]) >= Best(all, ids[j]);
    }
  }

  // ---------- a page's times are determined ----------

  /** The ids at least as new as `t`. */
  ghost function NewerThan(all: multiset<VideoWithTime>, t: int): set<nat>
  {
    set id | id in Ids(all) && Best(all, id) >= t
  }

  lemma OmittedIsOlder(all: multiset<VideoWithTime>, limit: nat, page: seq<nat>, i: nat, id: nat)
    requires IsPage(all, limit, page) && i < |page| && id in Ids(all)
    ensures id in page || Best(all, page[i]) >= Best(all, id)
  {
  }

  lemma LaterIsOlder(all: multiset<VideoWithTime>, limit: nat, page: seq<nat>, i: nat, j: nat)
    requires IsPage(all, limit, page) && i < |page| && j < |page|
    ensures j < i || Best(all, page[i]) >= Best(all, page[j])
  {
  }

  /** Position i of a page is at least as new as t exactly when more than i ids are. */
  lemma PagePosition(all: multiset<VideoWithTime>, limit: nat, page: seq<nat>, i: nat, t: int)
    requires IsPage(all, limit, page) && i < |page|
    ensures Best(all, page[i]) >= t <==> |NewerThan(all, t)| > i
  {
    if Best(all, page[i]) >= t { EarlierAreNewer(all, limit, page, i, t); } else { NewerAreEarlier(all, limit, page, i, t); }
  }

  lemma EarlierAreNewer(all: multiset<VideoWithTime>, limit: nat, page: seq<nat>, i: nat, t: int)
    requires IsPage(all, limit, page) && i < |page| && Best(all, page[i]) >= t
    ensures |NewerThan(all, t)| > i
  {
    var first := page[..i + 1];
    DistinctSize(first);
    forall id | id in first ensures id in NewerThan(all, t) {
      var j :| 0 <= j < |first| && first[j] == id;
      if j < i { assert Best(all, page[j]) >= Best(all, page[i]); }
    }
    SubsetSize(Elements(first), NewerThan(all, t));
  }

  lemma NewerAreEarlier(all: multiset<VideoWithTime>, limit: nat, page: seq<nat>, i: nat, t: int)
    requires IsPage(all, limit, page) && i < |page| && Best(all, page[i]) < t
    ensures |NewerThan(all, t)| <= i
  {
    var first := page[..i];
    DistinctSize(first);
    forall id | id in NewerThan(all, t) ensures id in first {
      OmittedIsOlder(all, limit, page, i, id);
      var j :| 0 <= j < |page| && page[j] == id;
      LaterIsOlder(all, limit, page, i, j);
      assert first[j] == id;
    }
    SubsetSize(NewerThan(all, t), Elements(first));
  }

  /** Equal times may be broken either way by the heap, but never the times themselves. */
  lemma PageTimesUnique(all: multiset<VideoWithTime>, limit: nat, a: seq<nat>, b: seq<nat>)
    requires IsPage(all, limit, a) && IsPage(all, limit, b)
    ensures |a| == |b|
    ensures forall i :: 0 <= i < |a| ==> Best(all, a[i]) == Best(all, b[i])
  {
    forall i | 0 <= i < |a| ensures Best(all, a[i]) == Best(all, b[i]) {
      PagePosition(all, limit, a, i, Best(all, b[i]));
      PagePosition(all, limit, b, i, Best(all, b[i]));
      PagePosition(all, limit, a, i, Best(all, a[i]));
      PagePosition(all, limit, b, i, Best(all, a[i]));
    }
  }

  // ---------- leaving out streams ----------

  ghost predicate NoneNewer(items: multiset<VideoWithTime>, t: int) { forall x :: x in items ==> x.createTime <= t }

  /** Two pages of the same length that carry the same times. */
  ghost predicate SameTimes(a: multiset<VideoWithTime>, pageA: seq<nat>, b: multiset<VideoWithTime>, pageB: seq<nat>)
  {
    && |pageA| == |pageB|
    && forall i :: 0 <= i < |pageA| ==> pageA[i] in Ids(a) && pageB[i] in Ids(b) && Best(a, pageA[i]) == Best(b, pageB[i])
  }

  /** Whatever no newer than `t` is left out, the page keeps its length and its times. */
  ghost predicate LosslessSkip(kept: multiset<VideoWithTime>, limit: nat, t: int)
  {
    forall skipped, full, short ::
      NoneNewer(skipped, t) && IsPage(kept + skipped, limit, full) && IsPage(kept, limit, short) ==>
      SameTimes(kept + skipped, full, kept, short)
  }

  lemma NewerThanMonotone(all: multiset<VideoWithTime>, t: int, u: int)
    requires t <= u
    ensures |NewerThan(all, u)| <= |NewerThan(all, t)|
  {
    SubsetSize(NewerThan(all, u), NewerThan(all, t));
  }

  /** More items only make more ids at least as new. */
  lemma NewerThanGrows(kept: multiset<VideoWithTime>, more: multiset<VideoWithTime>, t: int)
    ensures NewerThan(kept, t) <= NewerThan(kept + more, t)
    ensures |NewerThan(kept, t)| <= |NewerThan(kept + more, t)|
  {
    forall id | id in NewerThan(kept, t) ensures id in NewerThan(kept + more, t) {
      assert VideoWithTime(id, Best(kept, id)) in kept + more;
      assert id in Ids(kept + more);
    }
    SubsetSize(NewerThan(kept, t), NewerThan(kept + more, t));
  }

  /** Items no newer than `oldest` add no ids above it and improve no times there. */
  lemma NewerThanSkip(kept: multiset<VideoWithTime>, skipped: multiset<VideoWithTime>, oldest: int, t: int)
    requires NoneNewer(skipped, oldest) && t > oldest
    ensures NewerThan(kept, t) == NewerThan(kept + skipped, t)
  {
    NewerThanGrows(kept, skipped, t);
    forall id | id in NewerThan(kept + skipped, t) ensures id in NewerThan(kept, t) {
      var x := VideoWithTime(id, Best(kept + skipped, id));
      assert x in kept + skipped && x !in skipped;
      assert x in kept;
      assert id in Ids(kept);
    }
  }

  /** On a full page, the count of newer ids is the same with and without the skipped items. */
  lemma SkipKeepsCounts(kept: multiset<VideoWithTime>, skipped: multiset<VideoWithTime>, oldest: int, limit: nat, i: nat, t: int)
    requires NoneNewer(skipped, oldest) && |NewerThan(kept, oldest)| >= limit > i
    ensures |NewerThan(kept, t)| > i <==> |NewerThan(kept + skipped, t)| > i
  {
    if t <= oldest {
      NewerThanMonotone(kept, t, oldest);
      NewerThanGrows(kept, skipped, t);
    } else {
      NewerThanSkip(kept, skipped, oldest, t);
    }
  }

  lemma SameTimeAt(kept: multiset<VideoWithTime>, skipped: multiset<VideoWithTime>, oldest: int, limit: nat, full: seq<nat>, short: seq<nat>, i: nat)
    requires NoneNewer(skipped, oldest) && |NewerThan(kept, oldest)| >= limit
    requires IsPage(kept + skipped, limit, full) && IsPage(kept, limit, short) && i < |full| == |short| == limit
    ensures Best(kept + skipped, full[i]) == Best(kept, short[i])
  {
    var a, b := Best(kept + skipped, full[i]), Best(kept, short[i]);
    PagePosition(kept + skipped, limit, full, i, a);
    PagePosition(kept, limit, short, i, a);
    PagePosition(kept + skipped, limit, full, i, b);
    PagePosition(kept, limit, short, i, b);
    SkipKeepsCounts(kept, skipped, oldest, limit, i, a);
    SkipKeepsCounts(kept, skipped, oldest, limit, i, b);
  }

  /** Leaving out items is lossless when enough ids at least as new as all of them remain. */
  lemma SkipIsLossless(kept: multiset<VideoWithTime>, skipped: multiset<VideoWithTime>, oldest: int, limit: nat, full: seq<nat>, short: seq<nat>)
    requires NoneNewer(skipped, oldest) && |NewerThan(kept, oldest)| >= limit
    requires IsPage(kept + skipped, limit, full) && IsPage(kept, limit, short)
    ensures |full| == limit && SameTimes(kept + skipped, full, kept, short)
  {
    SubsetSize(NewerThan(kept, oldest), Ids(kept));
    NewerThanGrows(kept, skipped, oldest);
    SubsetSize(NewerThan(kept + skipped, oldest), Ids(kept + skipped));
    forall i | 0 <= i < limit
      ensures full[i] in Ids(kept + skipped) && short[i] in Ids(kept) && Best(kept + skipped, full[i]) == Best(kept, short[i])
    {
      SameTimeAt(kept, skipped, oldest, limit, full, short, i);
    }
  }

  // ---------- when it is not ----------

  lemma {:induction false} IdsAreBounded(ids: set<nat>) returns (above: nat)
    ensures forall id :: id in ids ==> id < above
    decreases |ids|
  {
    above := 0;
    if ids != {} {
      var id :| id in ids;
      var rest := ids - {id};
      above := IdsAreBounded(rest);
      if above <= id { above := id + 1; }
      forall x | x in ids ensures x < above { assert x == id || x in rest; }
    }
  }

  lemma PageExists(all: multiset<VideoWithTime>, limit: nat) returns (page: seq<nat>)
    ensures IsPage(all, limit, page)
  {
    var merged := SortExists(all);
    MergeGivesPage(all, merged, limit);
    page := Take(DedupIds(merged), limit);
  }

  lemma FreshItemCounts(kept: multiset<VideoWithTime>, x: VideoWithTime)
    requires x.videoID !in Ids(kept)
    ensures NewerThan(kept + multiset{x}, x.createTime) == NewerThan(kept, x.createTime) + {x.videoID}
    ensures |NewerThan(kept + multiset{x}, x.createTime)| == |NewerThan(kept, x.createTime)| + 1
  {
    var all := kept + multiset{x};
    assert x in all;
    assert x.videoID in Ids(all);
    NewerThanGrows(kept, multiset{x}, x.createTime);
    forall id | id in NewerThan(all, x.createTime) && id != x.videoID ensures id in NewerThan(kept, x.createTime) {
      var y := VideoWithTime(id, Best(all, id));
      assert y in all && y != x;
      assert y in kept;
      assert id in Ids(kept);
    }
  }

  /** With too few newer ids left, one more video of time `t` shows on the page. */
  lemma SkipLoses(kept: multiset<VideoWithTime>, limit: nat, t: int)
    requires |NewerThan(kept, t)| < limit
    ensures !LosslessSkip(kept, limit, t)
  {
    var x := VideoWithTime(FreshOf(kept), t);
    var n := |NewerThan(kept, t)|;
    FreshItemCounts(kept, x);
    var all := kept + multiset{x};
    var full := PageExists(all, limit);
    var short := PageExists(kept, limit);
    SubsetSize(NewerThan(all, t), Ids(all));
    PagePosition(all, limit, full, n, t);
    assert NoneNewer(multiset{x}, t);
    if SameTimes(all, full, kept, short) { PagePosition(kept, limit, short, n, t); }
  }

  ghost function FreshOf(kept: multiset<VideoWithTime>): (id: nat)
    ensures id !in Ids(kept)
  {
    AnIdIsFresh(Ids(kept));
    var id: nat :| id !in Ids(kept);
    id
  }

  lemma AnIdIsFresh(ids: set<nat>)
    ensures exists id: nat :: id !in ids
  {
    var above := IdsAreBounded(ids);
    assert above !in ids;
  }

  /** Leaving out everything no newer than `t` is lossless exactly when the rest has enough
      ids at least as new to fill the page. */
  lemma SkipExactly(kept: multiset<VideoWithTime>, limit: nat, t: int)
    ensures LosslessSkip(kept, limit, t) <==> |NewerThan(kept, t)| >= limit
  {
    if |NewerThan(kept, t)| >= limit {
      forall skipped, full, short
        | NoneNewer(skipped, t) && IsPage(kept + skipped, limit, full) && IsPage(kept, limit, short)
        ensures SameTimes(kept + skipped, full, kept, short)
      {
        SkipIsLossless(kept, skipped, t, limit, full, short);
      }
    } else {
      SkipLoses(kept, limit, t);
    }
  }

  // ---------- the inbox stream ----------

  predicate NoRepeats(s: Stream) { forall i, j :: 0 <= i < j < |s| ==> s[i].videoID != s[j].videoID }

  /** A stream supplies |push| distinct ids no older than its last entry. */
  lemma PushFillsPage(all: multiset<VideoWithTime>, push: Stream)
    requires Sorted(push) && NoRepeats(push) && push != [] && multiset(push) <= all
    ensures |NewerThan(all, push[|push| - 1].createTime)| >= |push|
  {
    var ids := seq(|push|, i requires 0 <= i < |push| => push[i].videoID);
    DistinctSize(ids);
    forall id | id in ids ensures id in NewerThan(all, push[|push| - 1].createTime) {
      var i :| 0 <= i < |push| && push[i].videoID == id;
      assert push[i] in multiset(push);
      assert push[i] in all;
    }
    SubsetSize(Elements(ids), NewerThan(all, push[|push| - 1].createTime));
  }

  /** And no more than that by itself. */
  lemma PushFillsExactly(push: Stream)
    requires Sorted(push) && NoRepeats(push) && push != []
    ensures |NewerThan(multiset(push), push[|push| - 1].createTime)| == |push|
  {
    PushFillsPage(multiset(push), push);
    var ids := seq(|push|, i requires 0 <= i < |push| => push[i].videoID);
    DistinctSize(ids);
    forall id | id in Ids(multiset(push)) ensures id in Elements(ids) {
      var x :| x in multiset(push) && x.videoID == id;
      var i :| 0 <= i < |push| && push[i] == x;
      assert ids[i] == id;
    }
    SubsetSize(NewerThan(multiset(push), push[|push| - 1].createTime), Elements(ids));
  }
}
