/** The code of the like and comment workers and of the API, against the step system of
    `LikeRuns`: each call is a sequence of enabled steps that leaves tables and queue exactly as
    the system has them. */
module LikeSteps {
  import opened Wrappers
  import opened LikeTables
  import opened LikeRuns
  import opened Runs
  import CommentTables

  lemma Take(from: State, s: State, a: Action)
    requires Leads(from, Steps, s) && Enabled(s, a)
    ensures Leads(from, Steps, Next(s, a))
  {
    assert Steps(s, Next(s, a));
    LeadsOn(from, Steps, s, Next(s, a));
  }

  // ---------- the like worker ----------

  /** One task more in flight. */
  function With(s: State, task: Task): State { s.(tasks := s.tasks + multiset{task}) }

  lemma SwapBack(s: State, task: Task, next: multiset<Task>)
    ensures task in With(s, task).tasks && Swap(With(s, task), task, next) == s.(tasks := s.tasks + next)
  {
    assert s.tasks + multiset{task} - multiset{task} == s.tasks;
  }

  lemma NoTask(s: State)
    ensures s.(tasks := s.tasks + multiset{}) == s
  {
  }

  lemma AbandonLast(s: State, task: Task)
    ensures Enabled(With(s, task), Abandon(task)) && Next(With(s, task), Abandon(task)) == s
  {
    SwapBack(s, task, multiset{});
    NoTask(s);
  }

  lemma CheckDrops(s: State, e: LikeEvent)
    requires !(WellFormed(e) && e.videoID in s.tables.videos)
    ensures Enabled(With(s, WorkerGot(e)), WorkerCheck(WorkerGot(e)))
    ensures Next(With(s, WorkerGot(e)), WorkerCheck(WorkerGot(e))) == s.(queue := s.queue - multiset{e})
  {
    SwapBack(s, WorkerGot(e), multiset{});
    NoTask(s);
  }

  lemma CheckPasses(s: State, e: LikeEvent)
    requires WellFormed(e) && e.videoID in s.tables.videos
    ensures Enabled(With(s, WorkerGot(e)), WorkerCheck(WorkerGot(e)))
    ensures Next(With(s, WorkerGot(e)), WorkerCheck(WorkerGot(e))) == With(s, WorkerChecked(e))
  {
    SwapBack(s, WorkerGot(e), multiset{WorkerChecked(e)});
  }

  lemma TransactionEnds(s: State, e: LikeEvent, committed: bool, settled: bool)
    requires WellFormed(e) && e.videoID in s.tables.videos && (settled ==> committed)
    ensures Enabled(With(s, WorkerChecked(e)), WorkerTransaction(WorkerChecked(e), committed, settled))
    ensures Next(With(s, WorkerChecked(e)), WorkerTransaction(WorkerChecked(e), committed, settled)) ==
              s.(tables := if committed then Applied(s.tables, e) else s.tables, queue := s.queue - if settled then multiset{e} else multiset{})
  {
    SwapBack(s, WorkerChecked(e), multiset{});
    NoTask(s);
    assert s.queue - multiset{} == s.queue;
  }

  /** A delivery that ends without a transaction. */
  lemma DroppedSteps(s: State, e: LikeEvent, settled: bool) returns (t: State)
    requires e in s.queue && (settled ==> !(WellFormed(e) && e.videoID in s.tables.videos))
    ensures Leads(s, Steps, t)
    ensures t == s.(queue := s.queue - if settled then multiset{e} else multiset{})
  {
    LeadsNowhere(s, Steps);
    Take(s, s, WorkerTake(e));
    if settled {
      CheckDrops(s, e);
      Take(s, With(s, WorkerGot(e)), WorkerCheck(WorkerGot(e)));
      t := s.(queue := s.queue - multiset{e});
    } else {
      AbandonLast(s, WorkerGot(e));
      Take(s, With(s, WorkerGot(e)), Abandon(WorkerGot(e)));
      assert s.queue - multiset{} == s.queue;
      t := s;
    }
  }

  /** One that comes to the transaction. */
  lemma TransactionSteps(s: State, e: LikeEvent, committed: bool, settled: bool) returns (t: State)
    requires e in s.queue && WellFormed(e) && e.videoID in s.tables.videos && (settled ==> committed)
    ensures Leads(s, Steps, t)
    ensures t == s.(tables := if committed then Applied(s.tables, e) else s.tables,
                    queue := s.queue - if settled then multiset{e} else multiset{})
  {
    LeadsNowhere(s, Steps);
    Take(s, s, WorkerTake(e));
    CheckPasses(s, e);
    Take(s, With(s, WorkerGot(e)), WorkerCheck(WorkerGot(e)));
    TransactionEnds(s, e, committed, settled);
    Take(s, With(s, WorkerChecked(e)), WorkerTransaction(WorkerChecked(e), committed, settled));
    t := Next(With(s, WorkerChecked(e)), WorkerTransaction(WorkerChecked(e), committed, settled));
  }

  /** One delivery to the worker, whose Ack may be lost, in a system that stands at `s`. */
  method Deliver(service: LikeService, ghost s: State, e: LikeEvent, existsFault: bool, f: Faults, ackArrives: bool)
    returns (acked: bool, ghost t: State)
    requires s.tables == service.db.tables && s.queue == service.queue && e in service.queue
    modifies service, service.db
    ensures Leads(s, Steps, t) && t.tables == service.db.tables && t.queue == service.queue
    ensures t == s.(tables := t.tables, queue := t.queue)
    ensures service.queue == old(service.queue) - if acked && ackArrives then multiset{e} else multiset{}
  {
    acked := service.db.HandleDelivery(Some(e), existsFault, f);
    if acked && ackArrives {
      service.queue := service.queue - multiset{e};
    }
    if WellFormed(e) && e.videoID in s.tables.videos && !existsFault {
      t := TransactionSteps(s, e, acked, acked && ackArrives);
    } else {
      assert WellFormed(e) && existsFault ==> !acked by { assert Names(Some(e), e.action, RowOf(e)) || !WellFormed(e); }
      t := DroppedSteps(s, e, acked && ackArrives);
    }
  }

  // ---------- the API ----------

  lemma PublishEnds(s: State, like: bool, row: Like, sent: Publish)
    ensures Enabled(With(s, ApiChecked(like, row)), ApiPublish(ApiChecked(like, row), sent))
    ensures var queued := s.(queue := s.queue + if sent.Delivered() then multiset{EventOf(like, row.accountID, row.videoID)} else multiset{});
            Next(With(s, ApiChecked(like, row)), ApiPublish(ApiChecked(like, row), sent)) ==
              if sent.Sent() then queued else With(queued, ApiFallback(like, row))
  {
    SwapBack(s, ApiChecked(like, row), if sent.Sent() then multiset{} else multiset{ApiFallback(like, row)});
    NoTask(s);
    assert s.queue + multiset{} == s.queue;
  }

  lemma FallbackEnds(s: State, like: bool, row: Like, committed: bool)
    ensures Enabled(With(s, ApiFallback(like, row)), ApiTransaction(ApiFallback(like, row), committed))
    ensures Next(With(s, ApiFallback(like, row)), ApiTransaction(ApiFallback(like, row), committed)) ==
              s.(tables := if !committed then s.tables else if like then AfterLike(s.tables, row) else AfterUnlike(s.tables, row))
  {
    SwapBack(s, ApiFallback(like, row), multiset{});
    NoTask(s);
  }

  lemma RequestSteps(s: State, like: bool, row: Like, sent: Publish, committed: bool) returns (t: State)
    requires row.videoID in s.tables.videos && row.accountID != 0
    ensures Leads(s, Steps, t)
    ensures t == s.(tables := if sent.Sent() || !committed then s.tables
                              else if like then AfterLike(s.tables, row) else AfterUnlike(s.tables, row),
                    queue := s.queue + if sent.Delivered() then multiset{EventOf(like, row.accountID, row.videoID)} else multiset{})
  {
    LeadsNowhere(s, Steps);
    Take(s, s, ApiCheck(like, row));
    PublishEnds(s, like, row, sent);
    Take(s, With(s, ApiChecked(like, row)), ApiPublish(ApiChecked(like, row), sent));
    t := s.(queue := s.queue + if sent.Delivered() then multiset{EventOf(like, row.accountID, row.videoID)} else multiset{});
    if !sent.Sent() {
      FallbackEnds(t, like, row, committed);
      Take(s, With(t, ApiFallback(like, row)), ApiTransaction(ApiFallback(like, row), committed));
      t := Next(With(t, ApiFallback(like, row)), ApiTransaction(ApiFallback(like, row), committed));
    }
  }

  /** One request to the API. */
  method Request(service: LikeService, ghost s: State, like: bool, accountID: nat, videoID: nat, existsFault: bool,
                 likeMQ: Publish, popularityMQ: Publish, f: Faults)
    returns (r: ApiResult, ghost t: State)
    requires s.tables == service.db.tables && s.queue == service.queue
    modifies service, service.db
    ensures Leads(s, Steps, t) && t.tables == service.db.tables && t.queue == service.queue
    ensures t == s.(tables := t.tables, queue := t.queue)
  {
    r := service.Write(like, accountID, videoID, existsFault, likeMQ, popularityMQ, f);
    t := s;
    LeadsNowhere(s, Steps);
    if r.Done? || r.FallbackFailed? {
      t := RequestSteps(s, like, Like(videoID, accountID), likeMQ, r.Done?);
    }
  }

  // ---------- comments ----------

  lemma InsertEnds(s: State, v: nat)
    ensures Enabled(With(s, CommentChecked(v)), CommentInsert(CommentChecked(v)))
    ensures Next(With(s, CommentChecked(v)), CommentInsert(CommentChecked(v))) ==
              With(s.(commented := s.commented + multiset{v}), CommentInserted(v))
  {
    SwapBack(s, CommentChecked(v), multiset{CommentInserted(v)});
  }

  lemma CountEnds(s: State, v: nat)
    ensures Enabled(With(s, CommentInserted(v)), CommentCount(CommentInserted(v)))
    ensures Next(With(s, CommentInserted(v)), CommentCount(CommentInserted(v))) ==
              s.(tables := WithPopularity(s.tables, v, 1), counted := s.counted + multiset{v})
  {
    SwapBack(s, CommentInserted(v), multiset{});
    NoTask(s);
  }

  /** How far the worker's two statements get. */
  lemma CommentSteps(s: State, v: nat, inserted: bool, counted: bool) returns (t: State)
    requires v in s.tables.videos && (counted ==> inserted)
    ensures Leads(s, Steps, t)
    ensures t == s.(tables := if counted then WithPopularity(s.tables, v, 1) else s.tables,
                    commented := s.commented + if inserted then multiset{v} else multiset{},
                    counted := s.counted + if counted then multiset{v} else multiset{})
  {
    assert s.commented + multiset{} == s.commented && s.counted + multiset{} == s.counted;
    LeadsNowhere(s, Steps);
    Take(s, s, CommentCheck(v));
    t := s;
    if !inserted {
      AbandonLast(s, CommentChecked(v));
      Take(s, With(s, CommentChecked(v)), Abandon(CommentChecked(v)));
    } else {
      InsertEnds(s, v);
      Take(s, With(s, CommentChecked(v)), CommentInsert(CommentChecked(v)));
      t := s.(commented := s.commented + multiset{v});
      CountEnds(t, v);
      AbandonLast(t, CommentInserted(v));
      var last := if counted then CommentCount(CommentInserted(v)) else Abandon(CommentInserted(v));
      Take(s, With(t, CommentInserted(v)), last);
      t := Next(With(t, CommentInserted(v)), last);
    }
  }

  /** One delivery to the comment worker. */
  method DeliverComment(db: CommentTables.CommentDatabase, ghost s: State, c: CommentTables.Comment, f: CommentTables.PublishFaults)
    returns (acked: bool, ghost t: State)
    requires s.tables == db.tables
    modifies db
    ensures Leads(s, Steps, t) && t.tables == db.tables
    ensures t == s.(tables := t.tables, commented := t.commented, counted := t.counted)
    ensures t.commented == s.commented + if db.comments == old(db.comments) then multiset{} else multiset{c.videoID}
  {
    acked := db.ApplyPublish(c, f);
    t := s;
    LeadsNowhere(s, Steps);
    if !f.lookup && c.videoID in s.tables.videos {
      t := CommentSteps(s, c.videoID, !f.insert, !f.insert && !f.count);
    }
  }

  /** One comment written by the API's transaction. */
  method WriteComment(db: CommentTables.CommentDatabase, ghost s: State, c: CommentTables.Comment, f: CommentTables.PublishFaults)
    returns (ok: bool, ghost t: State)
    requires s.tables == db.tables
    modifies db
    ensures Leads(s, Steps, t) && t.tables == db.tables
    ensures t == s.(tables := t.tables, commented := t.commented, counted := t.counted)
    ensures t.commented == s.commented + if db.comments == old(db.comments) then multiset{} else multiset{c.videoID}
  {
    ok := db.PublishFallback(c, f);
    t := s;
    LeadsNowhere(s, Steps);
    if ok {
      Take(s, s, CommentTransaction(c.videoID));
      t := Next(s, CommentTransaction(c.videoID));
    }
  }

  // ---------- videos ----------

  /** `id` is the auto-increment key the database draws. */
  method CreateVideo(db: LikeDatabase, ghost s: State, id: nat, fault: bool) returns (ok: bool, ghost t: State)
    requires s.tables == db.tables && id == s.nextVideo && id !in db.tables.videos
    modifies db
    ensures Leads(s, Steps, t) && t.tables == db.tables
    ensures t == s.(tables := t.tables, nextVideo := s.nextVideo + if ok then 1 else 0)
  {
    t := s;
    LeadsNowhere(s, Steps);
    ok := db.CreateVideo(id, fault);
    if ok {
      Take(s, s, LikeRuns.CreateVideo);
      t := Next(s, LikeRuns.CreateVideo);
    }
  }

  method DeleteVideo(db: LikeDatabase, ghost s: State, id: nat, fault: bool) returns (ok: bool, ghost t: State)
    requires s.tables == db.tables
    modifies db
    ensures Leads(s, Steps, t) && t.tables == db.tables && t == s.(tables := t.tables)
  {
    t := s;
    LeadsNowhere(s, Steps);
    ok := db.DeleteVideo(id, fault);
    if ok {
      Take(s, s, LikeRuns.DeleteVideo(id));
      t := Next(s, LikeRuns.DeleteVideo(id));
    }
  }

  /** What a committed transaction of the worker leaves of the likes table: the row of its event,
      and of no other, is as the event asks. */
  lemma WorkerDoesAsAsked(s: State, e: LikeEvent, acked: bool, l: Like)
    requires WorkerChecked(e) in s.tasks && WellFormed(e)
    ensures var t := Next(s, WorkerTransaction(WorkerChecked(e), true, acked));
            l in t.tables.likes <==> if l == Like(e.videoID, e.userID) then e.action == "like" else l in s.tables.likes
  {
  }

  /** The same of the API's. */
  lemma ApiDoesAsAsked(s: State, like: bool, row: Like, l: Like)
    requires ApiFallback(like, row) in s.tasks
    ensures var t := Next(s, ApiTransaction(ApiFallback(like, row), true));
            l in t.tables.likes <==> if l == row then like else l in s.tables.likes
  {
  }
}
