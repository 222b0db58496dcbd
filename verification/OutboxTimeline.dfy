/** What the pipeline from outbox to timeline delivers: the newest 1000 videos ever
    published, and with them exactly the pages the database would serve. */
module OutboxTimeline {
  import opened Collections
  import opened Wrappers
  import opened Decimal
  import opened Zset
  import opened BoundedZset
  import opened Outbox
  import opened FeedTable
  import opened LatestFeed
  import opened LatestExact

  /** Every video ever published, as timeline entries. */
  function Scores(published: map<nat, Post>): ZSet
  {
    Entries(published, published.Keys)
  }

  /** The entries of the given videos. */
  function Entries(published: map<nat, Post>, ids: set<nat>): (z: ZSet)
    requires ids <= published.Keys
    ensures forall v :: v in ids ==> FormatUint(v) in z && z[FormatUint(v)] == published[v].createTime
    ensures forall m :: m in z ==> exists v :: v in ids && m == FormatUint(v)
  {
    FormatsDiffer();
    map v | v in ids :: FormatUint(v) := published[v].createTime
  }

  lemma FormatsDiffer()
    ensures forall a, b {:trigger FormatUint(a), FormatUint(b)} :: FormatUint(a) == FormatUint(b) ==> a == b
  {
    forall a, b | FormatUint(a) == FormatUint(b) ensures a == b { FormatInjective(a, b); }
  }

  /** Nothing pending, and nothing queued but bodies that do not decode. */
  predicate Drained(s: State) { s.rows == {} && forall e :: e in s.queue ==> e.Undecodable? }

  lemma GenuineEntry(s: State, c: Command)
    requires TimelineOk(s) && c in s.history && c.Add?
    ensures c.member in Scores(s.published) && Scores(s.published)[c.member] == c.score
  {
    assert Genuine(s.published, c);
  }

  lemma GenuineScoresAreFixed(s: State)
    requires TimelineOk(s)
    ensures FixedScores(s.history)
  {
    forall a, b | a in s.history && b in s.history && a.Add? && b.Add? && a.member == b.member ensures a.score == b.score {
      GenuineEntry(s, a);
      GenuineEntry(s, b);
    }
  }

  /** After draining, every video has been written. */
  lemma DrainedIsAllWritten(s: State)
    requires Inv(s) && Drained(s)
    ensures FixedScores(s.history) && Untrimmed(s.history) == Scores(s.published)
  {
    GenuineScoresAreFixed(s);
    UntrimmedIsWhatWasAdded(s.history);
    var u, all := Untrimmed(s.history), Scores(s.published);
    forall m | m in u ensures m in all && all[m] == u[m] {
      assert Add(m, u[m]) in s.history;
      GenuineEntry(s, Add(m, u[m]));
    }
    forall m | m in all ensures m in u {
      var v :| v in s.published && m == FormatUint(v);
      DrainedWasWritten(s, v);
    }
  }

  lemma DrainedWasWritten(s: State, v: nat)
    requires NothingLost(s) && SentArrives(s) && Drained(s) && v in s.published
    ensures Add(FormatUint(v), s.published[v].createTime) in s.history
  {
    assert Pending(s, v) || Relayed(s, v);
    assert Arrived(s, TimelineEvent(v, s.published[v].createTime));
  }

  predicate LastTrimSucceeded(s: State) { s.history == [] || s.history[|s.history| - 1] == Trim }

  /** In every reachable state the timeline holds the newest 1000 of all it was ever told,
      and only published videos at their creation times. */
  lemma TimelineIsSandwiched(s: State)
    requires Reachable(s)
    ensures Part(TopK(Untrimmed(s.history), TIMELINE_CAP), s.timeline)
    ensures Part(s.timeline, Scores(s.published))
  {
    ReachableInv(s);
    GenuineScoresAreFixed(s);
    HistoryIsSandwiched(s.history, TIMELINE_CAP);
    UntrimmedIsWhatWasAdded(s.history);
    forall m | m in s.timeline ensures m in Scores(s.published) && Scores(s.published)[m] == s.timeline[m] {
      GenuineEntry(s, Add(m, s.timeline[m]));
    }
  }

  /** Once outbox and queue are drained and the last trim succeeded, the timeline is exactly
      the 1000 newest videos ever published, whatever failed or was redelivered on the way. */
  lemma DrainedTimelineIsTopK(s: State)
    requires Reachable(s) && Drained(s) && LastTrimSucceeded(s)
    ensures s.timeline == TopK(Scores(s.published), TIMELINE_CAP)
  {
    ReachableInv(s);
    DrainedIsAllWritten(s);
    if s.history != [] { TrimRestoresTopK(s.history, TIMELINE_CAP); }
  }

  // ---------- from publishing to reading ----------

  /** The table holds published videos at their creation times; some may have been deleted. */
  ghost predicate TableOf(published: map<nat, Post>, rows: set<Video>)
  {
    && ValidRows(rows) && DistinctTimes(rows)
    && forall v :: v in rows ==> Known(published, v.id, v.createTime)
  }

  lemma TopKIsUpwardClosed(z: ZSet, k: nat, low: Member, high: Member)
    requires low in TopK(z, k) && high in z && z[low] < z[high]
    ensures high in TopK(z, k)
  {
    assert Above(z, high) <= Above(z, low) by {
      forall m | m in Above(z, high) ensures m in Above(z, low) { NewerTransitive(z, m, high, low); }
    }
    SubsetSize(Above(z, high), Above(z, low));
  }

  lemma TopKCovers(published: map<nat, Post>, rows: set<Video>, k: nat)
    requires TableOf(published, rows) && forall v :: v in published ==> v < UINT_LIMIT
    ensures GoodTimeline(TopK(Scores(published), k), rows)
    ensures LiveCover(TopK(Scores(published), k), rows)
  {
    var all := Scores(published);
    var z := TopK(all, k);
    forall m | m in z ensures IsIdMember(m) { assert m in all; }
    forall v | v in rows && FormatUint(v.id) in z ensures z[FormatUint(v.id)] == v.createTime {
      assert Known(published, v.id, v.createTime);
    }
    forall v, u | v in rows && u in rows && Live(z, u) && u.createTime < v.createTime ensures Live(z, v) {
      assert Known(published, v.id, v.createTime) && Known(published, u.id, u.createTime);
      TopKIsUpwardClosed(all, k, FormatUint(u.id), FormatUint(v.id));
    }
  }

  /** End to end, from the publishing transaction to the feed: after the pipeline has drained,
      ListLatest answers every limit and cursor with exactly the database's page, even though
      the timeline forgot all but 1000 videos and still lists deleted ones. */
  lemma PublishedVideosAreServed(s: State, rows: set<Video>, limit: nat, before: Option<int>, now: int)
    requires Reachable(s) && Drained(s) && LastTrimSucceeded(s) && s.timeline != map[]
    requires TableOf(s.published, rows) && forall v :: v in s.published ==> v < UINT_LIMIT
    ensures ServeRows(s.timeline, rows, limit, before, now, true) == ListLatest(rows, limit, before)
  {
    DrainedTimelineIsTopK(s);
    TopKCovers(s.published, rows, TIMELINE_CAP);
    CoverGivesSqlPage(s.timeline, rows, limit, before, now, true);
  }
}
