/** Likes and the counters they move: the likes table with its unique index, the counter
    columns of the videos table, and the transactions that change both. A statement or commit
    may fail, and a failed transaction leaves the tables as they were. */
module LikeTables {
  import opened Wrappers

  /** A row of the likes table; (video, account) is its unique index. */
  datatype Like = Like(videoID: nat, accountID: nat)

  /** The counter columns of a video row. */
  datatype Counters = Counters(likesCount: int, popularity: int)

  datatype Tables = Tables(videos: map<nat, Counters>, likes: set<Like>)

  function Greatest(a: int, b: int): int { if a >= b then a else b }

  /** UPDATE videos SET likes_count = GREATEST(likes_count + change, 0) WHERE id = ... */
  function WithLikesCount(t: Tables, id: nat, change: int): Tables
  {
    if id in t.videos
    then t.(videos := t.videos[id := t.videos[id].(likesCount := Greatest(t.videos[id].likesCount + change, 0))])
    else t
  }

  function WithPopularity(t: Tables, id: nat, change: int): Tables
  {
    if id in t.videos
    then t.(videos := t.videos[id := t.videos[id].(popularity := Greatest(t.videos[id].popularity + change, 0))])
    else t
  }

  /** An update touches one column of one row: no like row, no other video. */
  predicate OnlyVideo(t: Tables, u: Tables, id: nat)
  {
    u.likes == t.likes && u.videos.Keys == t.videos.Keys && forall v :: v in t.videos && v != id ==> u.videos[v] == t.videos[v]
  }

  /** Both counters behave alike: an update is local, never leaves a negative count, is plain
      addition above the floor, and a video that is gone takes it without effect. */
  lemma CounterUpdate(t: Tables, id: nat, change: int)
    ensures OnlyVideo(t, WithLikesCount(t, id, change), id) && OnlyVideo(t, WithPopularity(t, id, change), id)
    ensures id !in t.videos ==> WithLikesCount(t, id, change) == t && WithPopularity(t, id, change) == t
    ensures id in t.videos ==>
              var was, likes, popularity := t.videos[id], WithLikesCount(t, id, change).videos[id], WithPopularity(t, id, change).videos[id];
              && likes.popularity == was.popularity && popularity.likesCount == was.likesCount
              && likes.likesCount >= 0 && popularity.popularity >= 0
              && (was.likesCount + change >= 0 ==> likes.likesCount == was.likesCount + change)
              && (was.popularity + change >= 0 ==> popularity.popularity == was.popularity + change)
  {
  }

  /** Taking back an increment always restores the row; making good a decrement restores it
      exactly when the floor did not act. */
  lemma CounterRoundTrip(t: Tables, id: nat, step: int)
    requires step >= 0 && id in t.videos && t.videos[id].likesCount >= 0 && t.videos[id].popularity >= 0
    ensures WithLikesCount(WithLikesCount(t, id, step), id, -step) == t
    ensures WithPopularity(WithPopularity(t, id, step), id, -step) == t
    ensures WithLikesCount(WithLikesCount(t, id, -step), id, step) == t <==> t.videos[id].likesCount >= step
    ensures WithPopularity(WithPopularity(t, id, -step), id, step) == t <==> t.videos[id].popularity >= step
  {
    LikesRoundTrip(t, id, step);
    LikesRoundTrip(t, id, -step);
    PopularityRoundTrip(t, id, step);
    PopularityRoundTrip(t, id, -step);
  }

  lemma LikesRoundTrip(t: Tables, id: nat, change: int)
    requires id in t.videos && t.videos[id].likesCount >= 0
    ensures WithLikesCount(WithLikesCount(t, id, change), id, -change) == t <==> t.videos[id].likesCount + change >= 0
  {
    var u := WithLikesCount(WithLikesCount(t, id, change), id, -change);
    assert u.videos == t.videos[id := u.videos[id]];
    if t.videos[id].likesCount + change >= 0 {
      assert u.videos[id] == t.videos[id];
      assert t.videos[id := t.videos[id]] == t.videos;
    } else {
      assert u.videos[id].likesCount != t.videos[id].likesCount;
    }
  }

  lemma PopularityRoundTrip(t: Tables, id: nat, change: int)
    requires id in t.videos && t.videos[id].popularity >= 0
    ensures WithPopularity(WithPopularity(t, id, change), id, -change) == t <==> t.videos[id].popularity + change >= 0
  {
    var u := WithPopularity(WithPopularity(t, id, change), id, -change);
    assert u.videos == t.videos[id := u.videos[id]];
    if t.videos[id].popularity + change >= 0 {
      assert u.videos[id] == t.videos[id];
      assert t.videos[id := t.videos[id]] == t.videos;
    } else {
      assert u.videos[id].popularity != t.videos[id].popularity;
    }
  }

  function WithBoth(t: Tables, id: nat, change: int): Tables
  {
    WithPopularity(WithLikesCount(t, id, change), id, change)
  }

  /** The tables once `l` is liked, whether or not it was before. */
  function AfterLike(t: Tables, l: Like): Tables
  {
    if l in t.likes then t else WithBoth(t.(likes := t.likes + {l}), l.videoID, 1)
  }

  function AfterUnlike(t: Tables, l: Like): Tables
  {
    if l in t.likes then WithBoth(t.(likes := t.likes - {l}), l.videoID, -1) else t
  }

  // ---------- messages ----------

  datatype LikeEvent = LikeEvent(action: string, userID: nat, videoID: nat)

  predicate WellFormed(e: LikeEvent) { e.userID != 0 && e.videoID != 0 && e.action in {"like", "unlike"} }

  /** What handling an event must do to the tables: nothing for a malformed event or a video
      that is gone, otherwise make the like row present or absent. */
  function Applied(t: Tables, e: LikeEvent): Tables
  {
    if !WellFormed(e) || e.videoID !in t.videos then t
    else if e.action == "like" then AfterLike(t, Like(e.videoID, e.userID))
    else AfterUnlike(t, Like(e.videoID, e.userID))
  }

  /** A redelivered event changes nothing. */
  lemma RedeliveryIsHarmless(t: Tables, e: LikeEvent)
    ensures Applied(Applied(t, e), e) == Applied(t, e)
  {
  }

  function AppliedAll(t: Tables, events: seq<LikeEvent>): Tables
  {
    if events == [] then t else Applied(AppliedAll(t, events[..|events| - 1]), events[|events| - 1])
  }

  /** Whether the last well-formed event on a pair is a like, if there is one. */
  function LastOn(events: seq<LikeEvent>, l: Like): Option<bool>
  {
    if events == [] then None
    else
      var e := events[|events| - 1];
      if WellFormed(e) && Like(e.videoID, e.userID) == l then Some(e.action == "like")
      else LastOn(events[..|events| - 1], l)
  }

  /** However often events repeat, a pair ends as its last event says, or as it was. */
  lemma {:induction false} LastEventDecides(t: Tables, events: seq<LikeEvent>, l: Like)
    requires l.videoID in t.videos
    ensures AppliedAll(t, events).videos.Keys == t.videos.Keys
    ensures l in AppliedAll(t, events).likes <==> (if LastOn(events, l).Some? then LastOn(events, l).value else l in t.likes)
    decreases |events|
  {
    if events != [] {
      LastEventDecides(t, events[..|events| - 1], l);
    }
  }

  // ---------- statements and transactions ----------

  datatype InsertResult = Inserted | DuplicateKey | InsertError

  /** Which statement of a transaction fails, or its commit. */
  datatype Faults = Faults(row: bool, likesCount: bool, popularity: bool, commit: bool) {
    predicate None() { !row && !likesCount && !popularity && !commit }

    /** No statement fails that the transaction comes to; the counters move only with the row. */
    predicate Spare(moves: bool) { !row && !commit && (moves ==> !likesCount && !popularity) }
  }

  /** The body asks for this action on this row. */
  ghost predicate Names(body: Option<LikeEvent>, action: string, l: Like)
  {
    body == Some(LikeEvent(action, l.accountID, l.videoID)) && l.accountID != 0 && l.videoID != 0
  }

  /** Neither the lookup nor a statement the transaction comes to fails. */
  ghost predicate LikeGoesThrough(t: Tables, l: Like, existsFault: bool, f: Faults)
  {
    !existsFault && (l.videoID in t.videos ==> f.Spare(l !in t.likes))
  }

  ghost predicate UnlikeGoesThrough(t: Tables, l: Like, existsFault: bool, f: Faults)
  {
    !existsFault && (l.videoID in t.videos ==> f.Spare(l in t.likes))
  }

  class LikeDatabase {
    var tables: Tables

    constructor (tables: Tables)
      ensures this.tables == tables
    {
      this.tables := tables;
    }

    method CreateLike(l: Like, fault: bool) returns (r: InsertResult)
      modifies this
      ensures r == if fault then InsertError else if l in old(tables.likes) then DuplicateKey else Inserted
      ensures tables == if r.Inserted? then old(tables).(likes := old(tables.likes) + {l}) else old(tables)
    {
      if fault {
        return InsertError;
      }
      if l in tables.likes {
        return DuplicateKey;
      }
      tables := tables.(likes := tables.likes + {l});
      r := Inserted;
    }

    /** None is an error; otherwise the number of rows deleted. */
    method DeleteLike(l: Like, fault: bool) returns (affected: Option<nat>)
      modifies this
      ensures affected == if fault then None else if l in old(tables.likes) then Some(1) else Some(0)
      ensures tables == if fault then old(tables) else old(tables).(likes := old(tables.likes) - {l})
    {
      if fault {
        return None;
      }
      affected := Some(if l in tables.likes then 1 else 0);
      tables := tables.(likes := tables.likes - {l});
    }

    method ChangeLikesCount(id: nat, change: int, fault: bool) returns (ok: bool)
      modifies this
      ensures ok == !fault && tables == if ok then WithLikesCount(old(tables), id, change) else old(tables)
      ensures OnlyVideo(old(tables), tables, id)
    {
      CounterUpdate(tables, id, change);
      if !fault {
        tables := WithLikesCount(tables, id, change);
      }
      ok := !fault;
    }

    method ChangePopularity(id: nat, change: int, fault: bool) returns (ok: bool)
      modifies this
      ensures ok == !fault && tables == if ok then WithPopularity(old(tables), id, change) else old(tables)
      ensures OnlyVideo(old(tables), tables, id)
    {
      CounterUpdate(tables, id, change);
      if !fault {
        tables := WithPopularity(tables, id, change);
      }
      ok := !fault;
    }

    /** The API's insert: a duplicate is an error. */
    method LikeInTx(l: Like, fault: bool) returns (ok: bool)
      modifies this
      ensures ok == (!fault && l !in old(tables.likes))
      ensures tables == if ok then old(tables).(likes := old(tables.likes) + {l}) else old(tables)
    {
      var r := CreateLike(l, fault);
      ok := r.Inserted?;
    }

    /** The worker's insert: a duplicate is not an error, but nothing was created either. */
    method LikeIgnoreDuplicateInTx(l: Like, fault: bool) returns (created: bool, ok: bool)
      modifies this
      ensures l.videoID == 0 || l.accountID == 0 ==> ok && !created
      ensures l.videoID != 0 && l.accountID != 0 ==> ok == !fault && created == (!fault && l !in old(tables.likes))
      ensures tables == if created then old(tables).(likes := old(tables.likes) + {l}) else old(tables)
    {
      if l.videoID == 0 || l.accountID == 0 {
        return false, true;
      }
      var r := CreateLike(l, fault);
      created, ok := r.Inserted?, !r.InsertError?;
    }

    /** The API's delete: deleting no row is an error. */
    method DeleteByVideoAndAccountInTx(l: Like, fault: bool) returns (ok: bool)
      modifies this
      ensures ok == (!fault && l in old(tables.likes))
      ensures tables == if ok then old(tables).(likes := old(tables.likes) - {l}) else old(tables)
    {
      var affected := DeleteLike(l, fault);
      ok := affected.Some? && affected.value > 0;
      assert l !in old(tables.likes) ==> old(tables.likes) - {l} == old(tables.likes);
    }

    /** The worker's delete reports whether a row was there. */
    method DeleteByVideoAndAccountTx(l: Like, fault: bool) returns (deleted: bool, ok: bool)
      modifies this
      ensures l.videoID == 0 || l.accountID == 0 ==> ok && !deleted
      ensures l.videoID != 0 && l.accountID != 0 ==> ok == !fault && deleted == (!fault && l in old(tables.likes))
      ensures tables == if deleted then old(tables).(likes := old(tables.likes) - {l}) else old(tables)
    {
      if l.videoID == 0 || l.accountID == 0 {
        return false, true;
      }
      var affected := DeleteLike(l, fault);
      deleted, ok := affected.Some? && affected.value > 0, affected.Some?;
      assert l !in old(tables.likes) ==> old(tables.likes) - {l} == old(tables.likes);
    }

    /** A new video starts at zero. */
    method CreateVideo(id: nat, fault: bool) returns (ok: bool)
      requires id !in tables.videos
      modifies this
      ensures ok == !fault && tables.likes == old(tables.likes)
      ensures tables.videos == if ok then old(tables.videos)[id := Counters(0, 0)] else old(tables.videos)
    {
      ok := !fault;
      if ok {
        tables := tables.(videos := tables.videos[id := Counters(0, 0)]);
      }
    }

    /** Deleting a video leaves its like rows behind. */
    method DeleteVideo(id: nat, fault: bool) returns (ok: bool)
      modifies this
      ensures ok == !fault && tables.likes == old(tables.likes)
      ensures tables.videos == if ok then old(tables.videos) - {id} else old(tables.videos)
    {
      ok := !fault;
      if ok {
        tables := tables.(videos := tables.videos - {id});
      }
    }

    /** Both counters; false as soon as one update fails. */
    method ChangeBoth(id: nat, change: int, f: Faults) returns (ok: bool)
      modifies this
      ensures ok == (!f.likesCount && !f.popularity)
      ensures ok ==> tables == WithBoth(old(tables), id, change)
    {
      ok := ChangeLikesCount(id, change, f.likesCount);
      if ok {
        ok := ChangePopularity(id, change, f.popularity);
      }
    }

    /** The end of a transaction that began at `before`: commit, or roll back when the body or
        the commit failed. */
    method Finish(before: Tables, bodyOk: bool, f: Faults) returns (ok: bool)
      modifies this
      ensures ok == (bodyOk && !f.commit) && tables == if ok then old(tables) else before
    {
      ok := bodyOk && !f.commit;
      if !ok {
        tables := before;
      }
    }

    // ---------- the worker ----------

    method ApplyLike(userID: nat, videoID: nat, existsFault: bool, f: Faults) returns (ok: bool)
      requires userID != 0 && videoID != 0
      modifies this
      ensures tables == if ok then Applied(old(tables), LikeEvent("like", userID, videoID)) else old(tables)
      ensures ok <==> LikeGoesThrough(old(tables), Like(videoID, userID), existsFault, f)
    {
      if existsFault {
        return false;
      }
      if videoID !in tables.videos {
        return true;
      }
      var before, created := tables, false;
      created, ok := LikeIgnoreDuplicateInTx(Like(videoID, userID), f.row);
      if ok && created {
        ok := ChangeBoth(videoID, 1, f);
      }
      ok := Finish(before, ok, f);
    }

    method ApplyUnlike(userID: nat, videoID: nat, existsFault: bool, f: Faults) returns (ok: bool)
      requires userID != 0 && videoID != 0
      modifies this
      ensures tables == if ok then Applied(old(tables), LikeEvent("unlike", userID, videoID)) else old(tables)
      ensures ok <==> UnlikeGoesThrough(old(tables), Like(videoID, userID), existsFault, f)
    {
      if existsFault {
        return false;
      }
      if videoID !in tables.videos {
        return true;
      }
      var before, deleted := tables, false;
      deleted, ok := DeleteByVideoAndAccountTx(Like(videoID, userID), f.row);
      if ok && deleted {
        ok := ChangeBoth(videoID, -1, f);
      }
      ok := Finish(before, ok, f);
    }

    /** Ack exactly when the event has been applied in full; Nack leaves the tables alone. A
        body that does not parse (None) is acknowledged and dropped. */
    method HandleDelivery(body: Option<LikeEvent>, existsFault: bool, f: Faults) returns (acked: bool)
      modifies this
      ensures tables == if acked && body.Some? then Applied(old(tables), body.value) else old(tables)
      // Exactly the row the message names comes or goes, if its video is there.
      ensures acked ==> forall l :: l in tables.likes <==>
                if Names(body, "like", l) && l.videoID in old(tables.videos) then true
                else if Names(body, "unlike", l) && l.videoID in old(tables.videos) then false
                else l in old(tables.likes)
      // What means nothing is acknowledged; the rest unless a statement it comes to fails.
      ensures acked <==> forall l ::
                && (Names(body, "like", l) ==> LikeGoesThrough(old(tables), l, existsFault, f))
                && (Names(body, "unlike", l) ==> UnlikeGoesThrough(old(tables), l, existsFault, f))
    {
      if body.None? {
        return true;
      }
      var e := body.value;
      if e.userID == 0 || e.videoID == 0 {
        return true;
      }
      if e.action == "like" {
        acked := ApplyLike(e.userID, e.videoID, existsFault, f);
      } else if e.action == "unlike" {
        acked := ApplyUnlike(e.userID, e.videoID, existsFault, f);
      } else {
        acked := true;
      }
    }

    // ---------- the API's synchronous fallback ----------

    method LikeFallback(l: Like, f: Faults) returns (ok: bool)
      modifies this
      ensures tables == if ok then AfterLike(old(tables), l) else old(tables)
      ensures ok == (f.None() && l !in old(tables.likes))
    {
      var before := tables;
      ok := LikeInTx(l, f.row);
      if ok {
        ok := ChangeBoth(l.videoID, 1, f);
      }
      ok := Finish(before, ok, f);
    }

    method UnlikeFallback(l: Like, f: Faults) returns (ok: bool)
      modifies this
      ensures tables == if ok then AfterUnlike(old(tables), l) else old(tables)
      ensures ok == (f.None() && l in old(tables.likes))
    {
      var before := tables;
      ok := DeleteByVideoAndAccountInTx(l, f.row);
      if ok {
        ok := ChangeBoth(l.videoID, -1, f);
      }
      ok := Finish(before, ok, f);
    }
  }

  // ---------- the API ----------

  /** A publish through a message queue: no queue configured, or a result that may be wrong
      about a delivery that did happen. */
  datatype Publish = NoQueue | Reported(reply: Reply) {
    predicate Sent() { Reported? && reply.Heard? }
    predicate Delivered() { Reported? && reply.Applied() }
  }

  datatype ApiResult = Done | InvalidArguments | LookupFailed | VideoNotFound | FallbackFailed

  function EventOf(like: bool, accountID: nat, videoID: nat): LikeEvent
  {
    LikeEvent(if like then "like" else "unlike", accountID, videoID)
  }

  class LikeService {
    const db: LikeDatabase
    var queue: multiset<LikeEvent>
    /** Synchronous updates of the Redis popularity cache. */
    var cacheUpdates: multiset<(nat, int)>

    constructor (db: LikeDatabase)
      ensures this.db == db && queue == multiset{} && cacheUpdates == multiset{}
    {
      this.db, queue, cacheUpdates := db, multiset{}, multiset{};
    }

    /** Message first, synchronous transaction when the message was not reported sent. */
    method Write(like: bool, accountID: nat, videoID: nat, existsFault: bool,
        likeMQ: Publish, popularityMQ: Publish, f: Faults) returns (r: ApiResult)
      modifies this, db
      // Refusals come before any write.
      ensures r == InvalidArguments <==> accountID == 0 || videoID == 0
      ensures r == LookupFailed <==> accountID != 0 && videoID != 0 && existsFault
      ensures r == VideoNotFound <==> accountID != 0 && videoID != 0 && !existsFault && videoID !in old(db.tables.videos)
      ensures r in {InvalidArguments, LookupFailed, VideoNotFound} ==>
                queue == old(queue) && db.tables == old(db.tables) && cacheUpdates == old(cacheUpdates)
      // Otherwise the message goes out, and the row is written at once when it is not reported sent.
      ensures r in {Done, FallbackFailed} ==>
                && queue == old(queue) + (if likeMQ.Delivered()
                     then multiset{LikeEvent(if like then "like" else "unlike", accountID, videoID)} else multiset{})
                && (r.Done? <==> likeMQ.Sent() || (f.None() && ((Like(videoID, accountID) in old(db.tables.likes)) == !like)))
                && db.tables == (if r.Done? && !likeMQ.Sent()
                     then (if like then AfterLike(old(db.tables), Like(videoID, accountID)) else AfterUnlike(old(db.tables), Like(videoID, accountID)))
                     else old(db.tables))
                && cacheUpdates == old(cacheUpdates) + (if r.Done? && !popularityMQ.Sent() then multiset{(videoID, if like then 1 else -1)} else multiset{})
    {
      if accountID == 0 || videoID == 0 {
        return InvalidArguments;
      }
      if existsFault {
        return LookupFailed;
      }
      if videoID !in db.tables.videos {
        return VideoNotFound;
      }
      if likeMQ.Delivered() {
        queue := queue + multiset{EventOf(like, accountID, videoID)};
      }
      var likeMQSent, popularityMQSent := likeMQ.Sent(), popularityMQ.Sent();
      if likeMQSent && popularityMQSent {
        return Done;
      }
      if !likeMQSent {
        var ok;
        if like {
          ok := db.LikeFallback(Like(videoID, accountID), f);
        } else {
          ok := db.UnlikeFallback(Like(videoID, accountID), f);
        }
        if !ok {
          return FallbackFailed;
        }
      }
      if !popularityMQSent {
        cacheUpdates := cacheUpdates + multiset{(videoID, if like then 1 else -1)};
      }
      r := Done;
    }
  }
}
