# Feed system: verified model

A Dafny 4.11 model of the server side of a short-video feed (the Go code under
`backend_repeat/internal/`), with proofs of what its algorithms and protocols guarantee. Redis
keys, SQL tables and message queues are explicit state. Code that works by mutation is a class
whose methods are proved against specification functions; every protocol is a step system over
an explicit state whose runs interleave freely, with failures, crashes, lost and repeated
messages as arbitrary inputs. `dafny verify dfyconfig.toml` checks everything.

## The parts

- **K-way merge** (`VideoHeap`, `Merge`, `FollowingPage`, `BigAccounts`, `FollowingFeed`). The
  binary heap in an array, with the sift-up and sift-down of Go's `container/heap`; the merge
  loop refines "sort, drop repeated ids, take"; that is the page a reader expects; and the
  pruning of the following feed, from sampling to quota, is lossless exactly when what is read
  besides fills the page with nothing older than the oldest inbox entry.
- **Bounded sorted sets** (`Zset`, `BoundedZset`, `Fanout`). "ZADD, then maybe trim by rank" is
  confluent, always lies between its top k and everything written, and its trims cannot be
  seen by a read up to the cap, however the commands of the workers interleave. `Zset` orders
  members as Redis does, by score and then member bytes.
- **Latest feed** (`FeedTable`, `KeysetPages`, `LatestFeed`, `LatestExact`, `LatestTies`,
  `LatestService`, `LatestOutcomes`). The cached timeline stitched to SQL equals the plain SQL
  page, for all requests up to a cap on the limit, exactly when no gap of the timeline is within
  their reach, with an exact condition of its own for tables with tied rows; what failed calls
  cost is exact, too; pages partition the table under all three cursors.
- **Publishing** (`Outbox`, `OutboxWorkers`, `OutboxTimeline`). Transactional outbox, dual
  publish, delete, timeline consumer. No publish event is lost, the drained timeline is the
  newest 1000, and the feed read from it is the SQL page.
- **Counters** (`LikeTables`, `LikeRuns`, `LikeSteps`, `CommentTables`). Likes written by message
  or by fallback transaction, by a worker racing the API; comments in two statements; and the
  code of each against the step system.
- **Follow relation** (`SocialReplay`). Double writes, synchronous and by replay.
- **Limiters and lock** (`SlidingWindow`, `FixedWindow`, `RedisLock`, `VideoDetail`,
  `DetailRuns`).
- **Three-level lookup** (`VideoLookup`).

`Wrappers`, `Collections`, `Runs` and `Decimal` are shared by the parts: options, sequences and
finite sets, runs of step systems, decimal ids.

## What the proofs found

- `ListLatest` serves the SQL page for every request the handler accepts (limits up to 100,
  `handler.go:33`) if and only if at least 100 entries shield each live row from each missing
  row newer than it: entries no newer than the missing row that rank above the live one
  (`ExactlyWhenHidden`). For limits as large as the timeline that means that every row newer than a live entry is in the
  timeline itself (`ExactlyWhenCovered`). The watermark plays no part in either condition.
- `GetVideoByIDs` drops an id whose lookup fails and reports no error. If a later hot row is
  found, the page skips the lost row and NextTime passes it; if none is, the stitch restores it
  (`LostRowsExactly`).
- A shared rebuild whose ZADD fails makes `ListLatest` call itself again, as often as that
  happens (`UnfinishedExactly`).
- A request that rebuilds the timeline alone (`shared == false`) goes on to index the empty
  slice it read before the rebuild (`service.go:95`); it is the only kind of request that fails
  when all calls succeed (`ServesSqlPageExactly`).
- The following feed's cursor is off by one: the bound is `cursor - 1` and the test against it
  is strict, so an entry exactly one millisecond older is lost (`CursorFilterExact`).
- Without a Redis client `GetVideoByIDs` never asks the database for what the local cache
  misses (`GetVideoByIDs`, `CompleteExactlyWhenNothingLost`). Neither caller gets there:
  `ListLatest` fails before without a client, and `ListByFollowing` goes to MySQL
  (`service.go:245`).
- The sliding-window script removes entries with score equal to `now - window`, where its
  comment says strictly older; the window is therefore `(now - window, now]`.
- A comment in `sliding_window.go` describes the fixed window as aligned to clock minutes,
  allowing twice the limit around a boundary. The code starts the window at the first request,
  and the sharp bound for an interval of one window is `2 * limit - 1`.
- The sliding window needs a clock that does not run back for every limit of two or more; a
  step of one millisecond is enough to break it (`ClockMattersExactly`).
- The time cursor of the latest feed loses rows exactly when two rows share a millisecond
  (`NextTimeExactly`). The hot path adds a loss of its own: a deleted video ranked above the
  second of two tied ones makes a request end between them, provided that it and the first of
  the two lie less than the cap deep (`RightExactly`).
- Skipping a cold big account loses videos exactly when inbox and pulled streams together hold
  fewer than `limit` ids no older than the oldest inbox entry (`WarmColdSkipExactly`); with
  nothing pulled that is when the inbox page is not full (`ColdSkipExactly`). The code makes the
  test on every page.
- A lost publish goes wrong exactly when, at the moment of the write, an opposite operation on
  the pair is queued last (`LostPublishExactly`); the damage stays on that pair
  (`DoubtStaysOnOnePair`) and ends with its next published request (`NextPublishHeals`).
- A comment is stored once exactly when every delivery before the acknowledged one failed in
  the lookup or the insert (`StoredOnceExactly`).
- A body in the timeline queue that does not decode is redelivered for ever
  (`UndecodableIsNeverSettled`); the other consumers acknowledge such bodies.

## Assumptions

- Ids, row keys, lock tokens and limiter members are never reused; ids fit in 64 bits.
- A SQL transaction, a Redis command and a Lua script each take effect in one step or not at
  all. MySQL statements see committed rows.
- Creation times are millisecond integers (`datetime(3)`), and where a statement says
  `DistinctTimes`, no two rows share one. Where SQL leaves ties open, the greater id is first.
- Scores are integers below 2^53, which Redis stores exactly.
- The social queue is consumed in order, and requests on one pair do not overlap.
- A key is not dropped before its time to live ends, and where a statement about a limiter says
  `ValidRun`, its clock does not run backwards.
- Fan-out messages come from the pollers, which is why they agree on the time of each video
  (`FanoutsAgree`); ids and authors are not 0, which `PublishVideo` and `PublishFanout` refuse.
- Timeline messages that decode come from the pollers.

## Model

| member | source | states |
|---|---|---|
| `VideoHeap.StreamCursor.Peek` | backend_repeat/internal/feed/service.go:540-545 | the head of the stream, or the end exactly when pos has reached the length |
| `VideoHeap.RootIsNewest` | backend_repeat/internal/feed/service.go:557-561 | in any slice where each entry is no newer than its parent, no entry is newer than the root |
| `VideoHeap.MergeHeap.Push` | backend_repeat/internal/feed/service.go:563 | restores the heap order and adds exactly the pushed entry to the multiset held |
| `VideoHeap.MergeHeap.Pop` | backend_repeat/internal/feed/service.go:564-570 | removes one entry, which is at least as new as every other, and restores the heap order |
| `Merge.UnreadAdvance` | backend_repeat/internal/feed/service.go:601-606 | moving one cursor on removes exactly its head from the multiset of unread items |
| `Merge.Turn` | backend_repeat/internal/feed/service.go:595-607 | one turn of the loop keeps the heads in the heap, the merge invariant and the seen set, and shrinks what is unread |
| `Merge.PopAndRefill` | backend_repeat/internal/feed/service.go:596-606 | the popped item is the newest head, and after the refill the heap again holds one entry per unfinished stream |
| `Merge.PopKeepsMerging` | backend_repeat/internal/feed/service.go:595-607 | popped plus unread stays the input multiset, popped times bound all heads, and the number of unread items strictly decreases |
| `Merge.MergeLoop` | backend_repeat/internal/feed/service.go:592-608 | the loop ends with the distinct ids of a popped prefix, either at the limit or with every stream finished |
| `Merge.Completion` | backend_repeat/internal/feed/service.go:595-608 | wherever the loop stops, the popped items begin some sorted list of all items |
| `Merge.MergeAndDedup` | backend_repeat/internal/feed/service.go:580-609 | the heap merge refines sort, dedup, take: the result is the first `limit` distinct ids of a sorted permutation of all items |
| `FollowingPage.MergeGivesPage` | backend_repeat/internal/feed/service.go:580-609 | such a result is the page: distinct ids, min(limit, number of ids) of them, ordered by newest time, every omitted id no newer than a kept one |
| `FollowingPage.PagePosition` | backend_repeat/internal/feed/service.go:580-609 | position i is at least as new as t if and only if more than i ids are |
| `FollowingPage.PageTimesUnique` | backend_repeat/internal/feed/service.go:561 | the heap may break ties either way, but any two pages of the same input carry the same times |
| `FollowingPage.SkipIsLossless` | backend_repeat/internal/feed/service.go:340-354 | with a full push stream, leaving out items no newer than its oldest entry changes no time on the page |
| `FollowingPage.SkipExactly` | backend_repeat/internal/feed/service.go:380-383 | leaving out items no newer than t is lossless, whatever those items are, if and only if at least limit of the kept ids are no older than t |
| `FollowingFeed.ParseZSetWithScores` | backend_repeat/internal/feed/service.go:506-531 | the result holds, in order, the id and score of every entry with a non-zero decimal id and a score below the bound, and of no other |
| `FollowingFeed.StreamIsGenuine` | backend_repeat/internal/feed/service.go:506-531 | a parsed read of a sorted set is newest first; when the members are decimal ids it repeats none, is older than the cursor and really stored |
| `FollowingFeed.ReadIsComplete` | backend_repeat/internal/feed/service.go:279-293 | a read of the newest n entries holds a video at a time if and only if one of the n highest-ranked members names it, at that score, and passes the bound |
| `FollowingFeed.CursorFilterExact` | backend_repeat/internal/feed/service.go:253-257 | the bound is cursor - 1 and the test is strict: the entries kept are all those older than the cursor if and only if none is exactly one millisecond older |
| `FollowingFeed.ReadIsOld` | backend_repeat/internal/feed/service.go:319-329 | nothing in a parsed read of an outbox is newer than what sampling the outbox finds |
| `FollowingFeed.PullStreams` | backend_repeat/internal/feed/service.go:372-423 | in the order given, one read of its share from exactly the accounts that have one, whose read succeeds and finds something |
| `BigAccounts.ParseAccounts` | backend_repeat/internal/feed/service.go:302-309 | exactly the accounts some set member names in decimal, zero excepted |
| `BigAccounts.Sample` | backend_repeat/internal/feed/service.go:314-338 | a sample for exactly the accounts whose read succeeds and finds something, and it is the highest score of the outbox |
| `BigAccounts.NewestScore` | backend_repeat/internal/feed/service.go:341-346 | the maximum of the samples, or 0 |
| `BigAccounts.AllocateQuota` | backend_repeat/internal/feed/service.go:366-391 | at most 10 per account, none for cold ones, within the needed total, less than the total only when every warm account has its 10, and anything for an account only when all warm accounts more active have their 10 |
| `BigAccounts.FairSharesUnique` | backend_repeat/internal/feed/service.go:366-391 | these conditions leave no choice: two allocations that meet them are equal |
| `FollowingFeed.MergeStreams` | backend_repeat/internal/feed/service.go:426-437 | for any sorted streams and limit, the merged ids are their page |
| `FollowingFeed.PullAround` | backend_repeat/internal/feed/service.go:340-424 | nothing is pulled when the inbox page is full and no sample is newer than its oldest entry (times being non-negative); otherwise exactly the fair shares of the sampled outboxes, most active first, as far as their reads succeed |
| `FollowingFeed.MergedIds` | backend_repeat/internal/feed/service.go:259-437 | from the inbox and the account set to the ids: the inbox stream is complete, the right accounts are sampled and pulled, the ids are the page of what was read, and on a full inbox page reading the cold accounts as well, to any depth, would change no time on it |
| `FollowingFeed.ColdSkipIsLossless` | backend_repeat/internal/feed/service.go:348-383 | on a full inbox page, leaving out the cold accounts (on the early exit, all of them) gives a page of the same length with the same times as reading their outboxes too |
| `FollowingFeed.ColdSkipExactly` | backend_repeat/internal/feed/service.go:380-383 | the cold test is lossless beside the inbox if and only if the inbox page is full |
| `FollowingFeed.WarmColdSkipExactly` | backend_repeat/internal/feed/service.go:380-383 | beside inbox and pulls, if and only if together they hold limit ids no older than the oldest inbox entry |
| `Decimal.ParseFormatRoundTrip` | backend_repeat/internal/feed/service.go:134 | parsing a formatted id gives the id back exactly when it fits in 64 bits |
| `Decimal.FormatInjective` | backend_repeat/internal/worker/outboxworker.go:83 | two videos never share a member string |
| `Decimal.ParseExactly` | backend_repeat/internal/feed/service.go:134 | what parses, and to what: exactly the decimal texts of 64-bit numbers behind any zeros |
| `Zset.TrimKeepsTopK` | backend_repeat/internal/middleware/redis/zset.go:58-76 | ZREMRANGEBYRANK 0 -(k+1) keeps exactly the k highest-ranked members by (score, member) |
| `Zset.TopKSize` | backend_repeat/internal/middleware/redis/zset.go:58-76 | a top k holds min(k, n) members |
| `Zset.DescendingUnique` | backend_repeat/internal/middleware/redis/zset.go:132-154 | a list of exactly the members, each ranked above the next, is the descending list |
| `Zset.SandwichTopK` | backend_repeat/internal/worker/outboxworker.go:95 | any set between a top k and the whole has the same top k |
| `Zset.TopKAfterAdd` | backend_repeat/internal/worker/outboxworker.go:82-85 | adding to a set that holds the top k keeps the new top k inside it |
| `Zset.ReadsIgnoreTruncation` | backend_repeat/internal/middleware/redis/zset.go:132-154 | a read of at most k entries cannot tell a truncated set from the full one |
| `Zset.ReadExactly` | backend_repeat/internal/feed/service.go:124 | a bounded read of n entries returns exactly the members the bound admits that have fewer than n admitted members above them |
| `Zset.RangeExactly` | backend_repeat/internal/middleware/redis/zset.go:132-154 | a read of the newest n entries returns exactly the members with fewer than n above them |
| `BoundedZset.UntrimmedIsWhatWasAdded` | backend_repeat/internal/worker/outboxworker.go:82-85 | with fixed scores the never-trimmed set holds exactly what was ever written |
| `BoundedZset.HistoryIsSandwiched` | backend_repeat/internal/worker/outboxworker.go:82-98 | after any history of writes, repeats, failed and successful trims the set lies between the top k and everything written |
| `BoundedZset.TrimRestoresTopK` | backend_repeat/internal/worker/outboxworker.go:95-98 | after a trim the set is exactly the top k of everything ever written |
| `BoundedZset.Confluence` | backend_repeat/internal/worker/fanoutworker.go:122-130 | order, repetition and earlier trims do not matter: the same writes and a final trim give the same set |
| `Fanout.FanoutStore.Process` | backend_repeat/internal/worker/fanoutworker.go:103-174 | with a sound message and a confirmed outbox write, each active follower of an author known to have fewer than 10000 followers is sent its ZADD and trim, and nobody else anything; the author's outbox gets the video in any case; Nack exactly when the outbox write is unconfirmed or an ordinary author's followers cannot be listed |
| `Fanout.FanoutStore.FanoutAll` | backend_repeat/internal/worker/fanoutworker.go:163-171 | the batches send the commands of all targets in order, each once |
| `Fanout.EachTargetOnce` | backend_repeat/internal/worker/fanoutworker.go:163-171 | those commands are one ZADD and at most one trim for each target and nothing for anyone else |
| `Fanout.FanoutStore.FanoutBatch` | backend_repeat/internal/worker/fanoutworker.go:178-209 | a ZADD for each follower of the batch, and the trim when the coin says so |
| `Fanout.FanoutStore.BackfillInbox` | backend_repeat/internal/worker/socialworker.go:181-214 | if the outbox can be read, each of the newest 50 entries it had then, unless its write fails, is written to the follower's inbox in order, and then comes the trim; no other box is touched, whatever others write meanwhile |
| `Fanout.WovenKeepsOrder` | backend_repeat/internal/worker/fanoutworker.go:178-203 | among any commands of other workers a worker sends its own, in their order, and everything else in the log is the others' |
| `Fanout.OthersAreHeard` | backend_repeat/internal/worker/fanoutworker.go:178-203 | and nothing the others send is left out |
| `Fanout.OutboxKeepsNewest` | backend_repeat/internal/worker/fanoutworker.go:117-128 | the newest 50 of an outbox are those of one never trimmed |
| `Fanout.TrimmingIsUnobservable` | backend_repeat/internal/worker/fanoutworker.go:189-209 | for every order in which the commands of fan-outs and back-fills may fall, with any failures and coin flips, the newest n entries of an inbox, for any n up to its cap of 500, are those of one never trimmed, scores included |
| `Fanout.ScoresAreFixed` | backend_repeat/internal/worker/socialworker.go:192-207 | when all messages about a video carry one time, every write to every inbox does, copies of entries read from outboxes at any earlier moment included |
| `Fanout.FanoutStore.ReadInbox` | backend_repeat/internal/feed/service.go:279 | what the feed reads of an inbox is what it would read had no trim ever run |
| `FeedTable.SortDescUnique` | backend_repeat/internal/feed/repo.go:24-34 | ORDER BY has one answer: an ordered list of exactly the rows is the sorted list |
| `FeedTable.SortSplit` | backend_repeat/internal/feed/repo.go:24-34 | sorting splits at any cut of the order |
| `KeysetPages.PageSplits` | backend_repeat/internal/feed/repo.go:38-51 | a full page followed by the rows behind its last row is the whole list, and fewer rows are left |
| `KeysetPages.ListLatestIsNewestPage` | backend_repeat/internal/feed/repo.go:24-34 | the query returns distinct rows below the cursor, newest first, as many as there are up to the limit, and leaves out none newer than one it returns |
| `KeysetPages.NextTimeExactly` | backend_repeat/internal/feed/service.go:197-211 | passing NextTime back loses no row, for every limit and cursor, if and only if no two rows share a creation millisecond |
| `KeysetPages.LikesNextIsBehind` | backend_repeat/internal/feed/service.go:229-235 | the (likes_count, id) cursor selects exactly the rows behind the last one returned |
| `KeysetPages.LikesWalkIsTable` | backend_repeat/internal/feed/service.go:215-237 | following the cursors until HasMore is false ends and yields the whole table once, in (likes_count, id) order |
| `KeysetPages.PopularityNextIsBehind` | backend_repeat/internal/feed/service.go:703-711 | the (popularity, create_time, id) cursor selects exactly the rows behind the last one returned |
| `KeysetPages.PartialCursorIsNone` | backend_repeat/internal/feed/repo.go:75-92 | a popularity cursor without a time or an id counts as none |
| `KeysetPages.PopularityWalkIsTable` | backend_repeat/internal/feed/service.go:689-712 | the same for the three-field cursor |
| `LatestFeed.FeedService.FetchFromDB` | backend_repeat/internal/feed/service.go:193-212 | the page holds the newest rows below the cursor; without HasMore it holds all of them; with HasMore and distinct times NextTime selects exactly the rest |
| `LatestFeed.FeedService.Rebuild` | backend_repeat/internal/feed/service.go:59-78 | an empty timeline becomes the newest 1000 rows under their ids and times, or stays empty when the ZADD, whose error nobody reads, is not applied |
| `LatestFeed.FeedService.ReadHotIds` | backend_repeat/internal/feed/service.go:116-137 | in order, the numbers of exactly those members below the cursor that parse |
| `LatestFeed.FeedService.Stitch` | backend_repeat/internal/feed/service.go:147-167 | rows short of the limit are completed from behind the last hot row; a failed query leaves them as they are |
| `LatestFeed.FeedService.ReadTimeline` | backend_repeat/internal/feed/service.go:94-189 | cold, hot and stitched answers, for every failure, single lookups that drop their row included |
| `LatestFeed.FeedService.ListLatestVideos` | backend_repeat/internal/feed/service.go:44-190 | the whole request, with every start over after a shared rebuild, and the timeline it leaves |
| `LatestExact.HotRowsFacts` | backend_repeat/internal/feed/service.go:124-145 | the hot read returns rows newest first and with each row every live row between it and the cursor |
| `LatestExact.HiddenGapsGiveSqlPage` | backend_repeat/internal/feed/service.go:94-169 | if every live row older than a missing one lies at least limit deep among the entries no newer than the missing one, the answer is the SQL page for every cursor and clock, deleted members notwithstanding |
| `LatestExact.CoverGivesSqlPage` | backend_repeat/internal/feed/service.go:94-169 | so it is for every limit when every row newer than a live entry is in the timeline |
| `LatestExact.GapIsVisible` | backend_repeat/internal/feed/service.go:116-145 | a missing row is skipped by any request that starts at it with a limit that reaches an older live row |
| `LatestExact.ExactlyWhenHidden` | backend_repeat/internal/feed/service.go:94-169 | for every cap on the limit (the handler accepts 100): the timeline may stand in for the database, for all requests up to the cap, if and only if every gap lies out of its reach |
| `LatestExact.ExactlyWhenCovered` | backend_repeat/internal/feed/service.go:94-169 | with limits as large as the timeline, if and only if it covers the rows above its live entries |
| `LatestExact.WatermarkCoverSuffices` | backend_repeat/internal/feed/service.go:94-169 | having every row from the watermark on is sufficient, whatever the cap |
| `LatestExact.DeletionKeepsPages` | backend_repeat/internal/video/video_repo.go:55-58 | a timeline that serves every request up to the cap with its SQL page still does after videos are deleted, although their members stay in it |
| `LatestExact.RebuiltCovers` | backend_repeat/internal/feed/service.go:59-78 | a rebuilt timeline covers the table |
| `LatestService.ServesSqlPageExactly` | backend_repeat/internal/feed/service.go:44-190 | with all calls succeeding a request gets the SQL page if and only if it is not the leader of an unshared rebuild, which indexes an empty slice |
| `LatestService.UnfinishedExactly` | backend_repeat/internal/feed/service.go:53-91 | a request is still starting over after any number of starts if and only if all its rebuilds were shared and none but perhaps the last had its ZADD applied |
| `LatestService.LostRowsExactly` | backend_repeat/internal/feed/service.go:139-167 | when single lookups fail, the rows served are a prefix of the SQL page if and only if no lost row stands before a found one, and then with a successful stitch they are the whole page |
| `LatestService.ServedPageExactly` | backend_repeat/internal/feed/service.go:44-190 | whatever calls fail, a served page is a prefix of the SQL page if and only if the hot branch does not lose a row before one it finds |
| `LatestOutcomes.FailedExactly` | backend_repeat/internal/feed/service.go:44-190 | a request fails if and only if a start it comes to does: a Redis read with an error other than the open breaker, or a failed query on the branch taken, named for each branch |
| `LatestOutcomes.FallbackIsPage` | backend_repeat/internal/feed/service.go:46-51 | with the breaker open at either read, or on a cold request, a working database answers with the newest rows below the cursor, whatever the timeline holds |
| `LatestOutcomes.PanicsExactly` | backend_repeat/internal/feed/service.go:84-95 | a request indexes the empty slice if and only if it rebuilds the timeline alone |
| `LatestOutcomes.PagesAreMarked` | backend_repeat/internal/feed/service.go:170-189 | HasMore says whether the page is full, and NextTime is the time of its last row |
| `LatestOutcomes.TimelineAfterExactly` | backend_repeat/internal/feed/service.go:53-84 | the request leaves the timeline as it was, or the newest 1000 rows if and only if a rebuild of its own writes them |
| `LatestService.LatestWalk` | backend_repeat/internal/feed/service.go:170-189 | following NextTime through hot, stitched and cold pages yields every row once, newest first, although timeline, clock and call outcomes may differ from page to page |
| `LatestTies.StitchExactly` | backend_repeat/internal/feed/service.go:147-167 | the stitched answer is right for every limit if and only if no older row outside the hot rows shares the millisecond of the last of them |
| `LatestTies.HiddenIsRight` | backend_repeat/internal/feed/service.go:94-169 | on any table, ties included: when missing rows, ends of the timeline and deleted members beside ties are all out of reach of the cap, every request is answered rightly |
| `LatestTies.UnlistedIsLost` | backend_repeat/internal/feed/service.go:94-169 | a missing row newer than a live one within reach makes some request up to the cap wrong |
| `LatestTies.TiedIsLost` | backend_repeat/internal/feed/service.go:147-159 | so does one of the same millisecond, when fewer entries than the cap are no newer than it |
| `LatestTies.SplitIsLost` | backend_repeat/internal/feed/service.go:147-159 | a deleted video within reach beside a tie, above its second row or with that row missing, makes some request up to the cap skip a row |
| `LatestTies.RightExactly` | backend_repeat/internal/feed/service.go:94-169 | so, without assuming distinct times and for every cap on the limit, every request is answered rightly if and only if none of the three is within reach |
| `LatestTies.RightWithoutCap` | backend_repeat/internal/feed/service.go:94-169 | where limits may exceed the timeline, if and only if every row as new as a live one is live and no dead member ranks above the second of two tied rows |
| `Outbox.StepKeepsPollers` | backend_repeat/internal/worker/outboxworker.go:32-48 | whatever step is taken, a poller about to delete a row has had its timeline message enqueued, and its fan-out message where there is a fan-out queue |
| `Outbox.StepKeepsTimeline` | backend_repeat/internal/worker/outboxworker.go:70-101 | the timeline stays the result of genuine writes: published videos under their own ids and creation times |
| `Outbox.StepLosesNothing` | backend_repeat/internal/worker/outboxworker.go:32-48 | no step, in particular no delete, drops a video that is neither pending nor relayed |
| `Outbox.StepLetsArrive` | backend_repeat/internal/worker/outboxworker.go:86-100 | no step, in particular no Ack, drops a relayed video that is neither queued nor written |
| `Outbox.NextKeepsInv` | backend_repeat/internal/worker/outboxworker.go:23-103 | every step of publishing, polling, consuming, crashing and rebuilding keeps the invariant |
| `Outbox.NoPublishEventIsLost` | backend_repeat/internal/video/video_repo.go:34-53 | in every reachable state a committed video has a pending row or has had all its messages enqueued; row and messages carry the author and time it was published with |
| `Outbox.MessagesAreGenuine` | backend_repeat/internal/worker/outboxworker.go:35-46 | every fan-out message ever sent carries the author and time of its video, whose timeline message was sent before |
| `Outbox.FanoutsAgree` | backend_repeat/internal/worker/outboxworker.go:41 | so all that fan-out workers can make of them agrees on the time of each video |
| `Outbox.InboxReadsAreUntrimmed` | backend_repeat/internal/feed/service.go:279 | and in every reachable state of the whole system the newest entries of an inbox are those of one never trimmed |
| `Outbox.UndecodableIsNeverSettled` | backend_repeat/internal/worker/outboxworker.go:72-78 | a body that does not decode, once queued, is queued at every later point of every run, ready to be delivered again, and never about to be acknowledged |
| `OutboxWorkers.OutboxRelay.RelayRow` | backend_repeat/internal/worker/outboxworker.go:33-47 | the row is deleted exactly when every send and the delete succeed, through legal protocol steps only |
| `OutboxWorkers.OutboxRelay.PublishVideo` | backend_repeat/internal/video/video_repo.go:34-53 | the video and an outbox row with its author and time, or neither |
| `OutboxWorkers.OutboxRelay.PollRound` | backend_repeat/internal/worker/outboxworker.go:25-49 | a round removes exactly the rows all of whose calls succeeded; when all succeed, min(100, n) of n rows |
| `OutboxWorkers.OutboxRelay.HandleDelivery` | backend_repeat/internal/worker/outboxworker.go:71-101 | a body that does not decode goes back to the queue and changes nothing; an event whose ZADD is not confirmed goes back too, though it may have been added; otherwise it is added, trimmed unless the trim fails, and leaves the queue when acknowledged |
| `OutboxWorkers.FullRoundShrinks` | backend_repeat/internal/worker/outboxworker.go:27 | the size of what a fully successful round leaves |
| `OutboxWorkers.NoStarvation` | backend_repeat/internal/worker/outboxworker.go:27 | a row not relayed by a fully successful round has 100 rows fewer before it, however many newer ones arrive |
| `OutboxTimeline.TimelineIsSandwiched` | backend_repeat/internal/worker/outboxworker.go:82-98 | in every reachable state the timeline holds the newest 1000 of all it was told and only published videos |
| `OutboxTimeline.DrainedTimelineIsTopK` | backend_repeat/internal/worker/outboxworker.go:23-103 | drained (but for undecodable bodies) and trimmed, the timeline is exactly the 1000 newest videos ever published |
| `OutboxTimeline.PublishedVideosAreServed` | backend_repeat/internal/feed/service.go:94-169 | end to end: after the pipeline has drained, ListLatest serves exactly the SQL page of the surviving videos |
| `LikeTables.LikeDatabase.LikeIgnoreDuplicateInTx` | backend_repeat/internal/video/like_repo.go:26-39 | created exactly when the row was absent; a duplicate is no error |
| `LikeTables.LikeDatabase.LikeInTx` | backend_repeat/internal/video/like_repo.go:115-123 | a duplicate is an error |
| `LikeTables.LikeDatabase.DeleteByVideoAndAccountInTx` | backend_repeat/internal/video/like_repo.go:128-139 | deleting no row is an error |
| `LikeTables.LikeDatabase.DeleteByVideoAndAccountTx` | backend_repeat/internal/video/like_repo.go:144-155 | deleted exactly when the row was there; no row is no error |
| `LikeTables.CounterRoundTrip` | backend_repeat/internal/video/video_repo.go:72-101 | a step up and the same step down restore the whole table; a step down and the same step up do so if and only if the counter was at least that large, both for likes and for popularity |
| `LikeTables.LikeDatabase.HandleDelivery` | backend_repeat/internal/worker/likeworker.go:68-105 | acknowledged exactly when no statement it comes to fails; then exactly the row the message names has come or gone, if its video is there, and both counters with it; otherwise the tables are untouched |
| `LikeTables.LikeDatabase.ApplyLike` | backend_repeat/internal/worker/likeworker.go:111-145 | all or nothing: the row present and both counters moved once, or no change |
| `LikeTables.LikeDatabase.ApplyUnlike` | backend_repeat/internal/worker/likeworker.go:152-179 | the same for removal |
| `LikeTables.LikeDatabase.LikeFallback` | backend_repeat/internal/video/like_service.go:97-117 | commits exactly when no statement fails and the row was absent, else rolls back |
| `LikeTables.LikeDatabase.UnlikeFallback` | backend_repeat/internal/video/like_service.go:168-188 | commits exactly when no statement fails and the row was present, else rolls back |
| `LikeTables.LikeService.Write` | backend_repeat/internal/video/like_service.go:50-196 | message first, transaction only when the message was not reported sent, cache update only when the popularity message was not; refused requests change nothing |
| `LikeTables.RedeliveryIsHarmless` | backend_repeat/internal/worker/likeworker.go:107-110 | handling an event again changes nothing |
| `LikeTables.LastEventDecides` | backend_repeat/internal/worker/likeworker.go:95-104 | after any sequence of events, repeats included, each pair is as its last event says, or as it was |
| `LikeRuns.LikeKeepsExact` | backend_repeat/internal/video/like_service.go:98-113 | making a row present keeps every counter equal to its rows |
| `LikeRuns.UnlikeKeepsExact` | backend_repeat/internal/worker/likeworker.go:162-178 | making a row absent does too, and never below zero |
| `LikeRuns.NextKeepsInv` | backend_repeat/internal/worker/likeworker.go:111-179 | every step of API requests, deliveries, comments, creation and deletion keeps the invariant, for arbitrary queue contents |
| `LikeRuns.LikesCountIsExact` | backend_repeat/internal/video/video_repo.go:74-82 | in every reachable state likes_count of an existing video is the number of its like rows |
| `LikeRuns.PopularityIsSandwiched` | backend_repeat/internal/worker/commentworker.go:103-124 | likes <= popularity <= likes + comments ever inserted, in every reachable state |
| `LikeRuns.ClampNeverFires` | backend_repeat/internal/video/video_repo.go:79-81 | in every reachable state plain addition gives the same tables as GREATEST(..., 0) |
| `LikeSteps.Deliver` | backend_repeat/internal/worker/likeworker.go:68-179 | one delivery to the worker is a sequence of enabled steps of the run system that leaves the same tables and queue |
| `LikeSteps.Request` | backend_repeat/internal/video/like_service.go:50-196 | so is one like or unlike request to the API |
| `LikeSteps.DeliverComment` | backend_repeat/internal/worker/commentworker.go:103-124 | so is one comment delivery |
| `LikeSteps.WriteComment` | backend_repeat/internal/video/comment_service.go:76-95 | so is one comment transaction of the API |
| `LikeSteps.DeleteVideo` | backend_repeat/internal/video/video_repo.go:55-58 | so is deleting a video, which leaves its like rows |
| `LikeSteps.WorkerDoesAsAsked` | backend_repeat/internal/worker/likeworker.go:95-104 | after a committed worker transaction the row of its event is there if and only if the action is like, and every other row is as before |
| `LikeSteps.ApiDoesAsAsked` | backend_repeat/internal/video/like_service.go:97-188 | the same for the API's transaction |
| `CommentTables.CommentDatabase.ApplyPublish` | backend_repeat/internal/worker/commentworker.go:103-124 | insert and increment are separate: the comment may stay without its increment and without an Ack |
| `CommentTables.CommentDatabase.PublishFallback` | backend_repeat/internal/video/comment_service.go:76-95 | the fallback does both or neither |
| `CommentTables.CommentDatabase.Redeliver` | backend_repeat/internal/worker/commentworker.go:58-124 | an event is delivered until it is acknowledged and the Ack gets through, and adds one copy for each delivery that reached the insert |
| `CommentTables.StoredOnceExactly` | backend_repeat/internal/worker/commentworker.go:103-124 | the event of a living video is stored exactly once if and only if every earlier delivery failed in the lookup or in the insert; a failed increment or a lost Ack stores it again |
| `CommentTables.CountedIsAtMostStored` | backend_repeat/internal/worker/commentworker.go:119-123 | popularity is raised at most once per stored copy, and not at all before the event settles unless an Ack is lost |
| `SlidingWindow.SlidingWindowLimiter.RunScript` | backend_repeat/internal/middleware/ratelimit/sliding_window.go:35-52 | the script command by command |
| `SlidingWindow.SlidingWindowLimiter.Handle` | backend_repeat/internal/middleware/ratelimit/sliding_window.go:70-118 | which requests bypass the script, that only its verdict aborts, and that a request whose verdict is lost passes though it may have been counted |
| `SlidingWindow.SeenIsWithin` | backend_repeat/internal/middleware/ratelimit/sliding_window.go:42-43 | after expiry and pruning the key holds exactly the admissions of (now - window, now] |
| `SlidingWindow.ScriptIsExact` | backend_repeat/internal/middleware/ratelimit/sliding_window.go:42-51 | a request is admitted if and only if fewer than limit earlier admissions lie in (now - window, now] |
| `SlidingWindow.NoWindowExceedsLimit` | backend_repeat/internal/middleware/ratelimit/sliding_window.go:62 | any interval (t - window, t] of any run holds at most limit admissions |
| `SlidingWindow.ExpiryIsUnobservable` | backend_repeat/internal/middleware/ratelimit/sliding_window.go:47 | whether the due key has been dropped changes neither an answer nor the key left behind |
| `SlidingWindow.BackRunExceeds` | backend_repeat/internal/middleware/ratelimit/sliding_window.go:39-46 | for every limit of two or more and every window, a clock that steps back one millisecond lets limit + 1 requests into one window |
| `SlidingWindow.ClockMattersExactly` | backend_repeat/internal/middleware/ratelimit/sliding_window.go:39-51 | the limit holds under every clock if and only if it is at most one or the window is empty |
| `FixedWindow.FixedWindowLimiter.IncrementWithExpire` | backend_repeat/internal/middleware/redis/redis.go:61-82 | the script, and the count it returns |
| `FixedWindow.FixedWindowLimiter.Limit` | backend_repeat/internal/middleware/ratelimit/ratelimit.go:30-55 | aborts exactly when the script's reply arrives and counts past the limit; a request whose reply is lost passes though it may have been counted |
| `FixedWindow.ExpiryIsFixed` | backend_repeat/internal/middleware/redis/redis.go:63-68 | increments after the first of a life never move its end |
| `FixedWindow.EachLifeIsLimited` | backend_repeat/internal/middleware/ratelimit/ratelimit.go:41-54 | no life of the counter admits more than the limit |
| `FixedWindow.AnyIntervalIsLimited` | backend_repeat/internal/middleware/ratelimit/ratelimit.go:41-54 | no interval of one window's length admits more than 2 * limit - 1 |
| `FixedWindow.BoundIsSharp` | backend_repeat/internal/middleware/ratelimit/ratelimit.go:41-54 | for every limit and window a run meets that bound |
| `RedisLock.LockKey.Lock` | backend_repeat/internal/middleware/redis/redis.go:97-110 | set if absent; an error reply may still have set the key |
| `RedisLock.LockKey.UnLock` | backend_repeat/internal/middleware/redis/redis.go:112-130 | deletes the key exactly when it holds the caller's token |
| `RedisLock.AtMostOneHolder` | backend_repeat/internal/middleware/redis/redis.go:97-130 | at every point of every run at most one client holds an unexpired lease |
| `RedisLock.LateUnlockIsHarmless` | backend_repeat/internal/middleware/redis/redis.go:112-121 | an unlock by anyone else leaves the holder's lock in place |
| `RedisLock.HolderIsUndisturbed` | backend_repeat/internal/middleware/redis/redis.go:97-130 | from grant to its own unlock or the end of its lease the key stays the holder's |
| `RedisLock.GrantExactly` | backend_repeat/internal/middleware/redis/redis.go:97-110 | a client comes to hold the lock if and only if the key is free and it hears so |
| `RedisLock.LapsedLockIsGranted` | backend_repeat/internal/middleware/redis/redis.go:97-110 | when the key of an ended lease is dropped the next client gets the lock |
| `VideoDetail.VideoService.GetDetail` | backend_repeat/internal/video/video_service.go:43-151 | the answer is the row, both caches stay coherent; whether it queries is fixed for every case: with the lock, only when the second look fails or finds nothing; without it, only when no refill shows up in five waits; without Redis, at once; a lock taken is given back, and if its lease ran out during the load the next holder keeps it |
| `VideoDetail.VideoService.LoadLocked` | backend_repeat/internal/video/video_service.go:96-119 | one query exactly when the second look fails or finds nothing; then the row is in Redis unless the SET fails |
| `VideoDetail.VideoService.WaitForRefill` | backend_repeat/internal/video/video_service.go:121-132 | an answer if and only if one of the five waits before a cancellation reads a row somebody has stored |
| `DetailRuns.OneClientInSection` | backend_repeat/internal/video/video_service.go:86-119 | in every run of concurrent clients, at most one with an unexpired lease is between Lock and UnLock |
| `DetailRuns.OneQueryPerLease` | backend_repeat/internal/video/video_service.go:96-110 | in every run, whatever pauses and failures, one grant of the lock leads to at most one query |
| `DetailRuns.OneQueryForAll` | backend_repeat/internal/video/video_service.go:86-119 | from any moment when nobody holds the lock, while no call fails, nothing is evicted and no lease runs out in use, all clients together query once at most under the lock |
| `DetailRuns.EnterExactly` | backend_repeat/internal/video/video_service.go:86-95 | a client comes between Lock and UnLock if and only if the lock is free and it hears that it got it |
| `DetailRuns.LeaveFrees` | backend_repeat/internal/middleware/redis/redis.go:112-130 | leaving in time frees the lock |
| `DetailRuns.LoadInSection` | backend_repeat/internal/video/video_service.go:96-119 | the code between Lock and UnLock is a sequence of steps of these runs, with the same cache and a recorded query for each one made |
| `VideoLookup.BuildOrderedResult` | backend_repeat/internal/feed/service.go:860-868 | the known videos in the order asked for, repeats included |
| `VideoLookup.VideoCaches.ReadRemote` | backend_repeat/internal/feed/service.go:756-781 | hits are taken over and written back coherently, the rest is missing |
| `VideoLookup.VideoCaches.ReadDatabase` | backend_repeat/internal/feed/service.go:790-828 | for every completion order, exactly the existing rows whose lookup did not fail become known and go into the local cache, and into Redis unless the write fails |
| `VideoLookup.VideoCaches.GetVideoByIDs` | backend_repeat/internal/feed/service.go:719-830 | exactly the rows asked for that the local cache, Redis or a lookup of their own answers for, in the order asked; both caches hold afterwards what they held and what was found; with Redis present and no failed lookup, exactly the database's rows |
| `VideoLookup.OrderedIsRows` | backend_repeat/internal/feed/service.go:860-868 | knowing exactly the existing rows gives exactly their list |
| `VideoLookup.RowsInOrderAt` | backend_repeat/internal/feed/service.go:860-868 | that list has, in order, one row for each position whose id has one, repeats included |
| `VideoLookup.CompleteExactlyWhenNothingLost` | backend_repeat/internal/feed/service.go:746-786 | the answer is complete if and only if no existing row was lost, as happens without a Redis client |
| `SocialReplay.SocialStore.Follow` | backend_repeat/internal/social/service.go:31-61 | every refusal in its order; an accepted request is published and written, or published and failed, by the steps of the protocol |
| `SocialReplay.SocialStore.Unfollow` | backend_repeat/internal/social/service.go:68-90 | the same for unfollow |
| `SocialReplay.SocialStore.HandleDelivery` | backend_repeat/internal/worker/socialworker.go:81-119 | exactly the pair a follow or unfollow message names comes or goes; a body that does not decode, lacks an id or has another action is acknowledged without effect, and a fault makes any other come back; on the head of the queue this is the step of the protocol |
| `SocialReplay.LastDecides` | backend_repeat/internal/worker/socialworker.go:90-115 | replaying a queue leaves each pair as its last queued operation says, or as it was |
| `SocialReplay.ReplayIsIntent` | backend_repeat/internal/social/service.go:46-60 | without lost publishes, replaying the queue onto the relation always gives each pair's last accepted request |
| `SocialReplay.DrainedIsIntent` | backend_repeat/internal/social/service.go:77-89 | so a drained queue leaves exactly what users last asked for |
| `SocialReplay.LostPublishExactly` | backend_repeat/internal/social/service.go:56-60 | after a lost publish, whatever reliable steps come before the write, the write brings replay and intent together if and only if, when it happens, no opposite operation on the pair is queued last |
| `SocialReplay.WriteSettlesExactly` | backend_repeat/internal/social/service.go:56-60 | the same at the write itself, from any state in which only that pair is in doubt |
| `SocialReplay.DoubtStaysOnOnePair` | backend_repeat/internal/social/service.go:46-60 | a lost publish never puts another pair in doubt, at any later point |
| `SocialReplay.NextPublishHeals` | backend_repeat/internal/social/service.go:46-60 | the next published request on the pair settles it for good |
| `SocialReplay.StaleFollowReturns` | backend_repeat/internal/social/service.go:85-89 | where the condition fails: a queued follow comes back after the unfollow |

## Left out

- HTTP handlers, routing, JWT, uploads, configuration, metrics and the frontend: plumbing.
- JSON encoding: a body decodes to an event or does not.
- SetLikesCount: overwrites the counter from outside, so exactness of likes_count cannot hold
  across it; the counter runs exclude it.
- The Redis hot list of ListByPopularity (ZUNIONSTORE with floating weights, as_of/offset
  paging): only its MySQL path is modelled.
- Completeness and paging of ListByFollowing's Redis path: the quota loses items by design, and
  its handler reads the cursor in seconds; only the soundness and pruning facts above are
  claimed. The path without a Redis connection, the final re-sort of looked-up videos and the
  MySQL fallback are not part of the model. Pulled streams are merged in the order of activity,
  where the code takes the order of a Go map, which the ids' times do not depend on.
- The likes lookup that completes every feed response: its failure fails the request.
- Writes to the timeline by other clients while a ListLatest request is under way.
- Time-based staleness of the video and comment caches, comment paging and its cache
  invalidation, comment deletion, follower-count caching, the bigv set and the active-follower
  filter's freshness: best effort by design.
- Expiry of author outboxes and of the detail caches: entries may be missing, which the lookup
  and merge statements already allow.
- Clock differences between Redis and the servers, beyond a Redis clock that lags.
- Circuit breaker, singleflight, go-redis, gorm and amqp internals: a rejection is an arbitrary
  failure, a shared call returns its leader's result.
- Redis popularity updates that are delivered although reported failed, and so applied twice.
