/** Counters under concurrency: any interleaving of API requests, worker deliveries, comment
    publishes, video creation and deletion, over queues that may lose, repeat, reorder and
    invent messages. A transaction takes effect in one step or not at all. */
module LikeRuns {
  import opened LikeTables
  import opened Runs

  /** Work in flight, between two of its atomic steps. */
  datatype Task =
    | ApiChecked(like: bool, row: Like)       // video seen, message not yet published
    | ApiFallback(like: bool, row: Like)      // publish reported failed
    | WorkerGot(event: LikeEvent)             // delivered, video not yet looked up
    | WorkerChecked(event: LikeEvent)         // video seen, transaction not yet run
    | CommentChecked(videoID: nat)            // video seen, comment not yet inserted
    | CommentInserted(videoID: nat)           // comment inserted, popularity not yet raised

  datatype State = State(
    tables: Tables,
    nextVideo: nat,              // auto-increment key of the videos table
    queue: multiset<LikeEvent>,
    tasks: multiset<Task>,
    commented: multiset<nat>,    // video of every comment ever inserted
    counted: multiset<nat>)      // video of every popularity increment made for a comment

  datatype Action =
    | CreateVideo
    | DeleteVideo(videoID: nat)
    | QueueBecomes(queue: multiset<LikeEvent>)
    | ApiCheck(like: bool, row: Like)
    | ApiPublish(task: Task, sent: Publish)
    | ApiTransaction(task: Task, committed: bool)
    | WorkerTake(event: LikeEvent)
    | WorkerCheck(task: Task)
    | WorkerTransaction(task: Task, committed: bool, acked: bool)
    | CommentCheck(videoID: nat)
    | CommentInsert(task: Task)
    | CommentCount(task: Task)
    | CommentTransaction(videoID: nat)
    | Abandon(task: Task)                     // error return, Nack or crash

  function Init(): State { State(Tables(map[], {}), 1, multiset{}, multiset{}, multiset{}, multiset{}) }

  function RowOf(e: LikeEvent): Like { Like(e.videoID, e.userID) }

  predicate Enabled(s: State, a: Action)
  {
    match a
    case CreateVideo => true
    case DeleteVideo(_) => true
    case QueueBecomes(_) => true
    case ApiCheck(_, row) => row.videoID in s.tables.videos && row.accountID != 0
    case ApiPublish(task, _) => task in s.tasks && task.ApiChecked?
    case ApiTransaction(task, _) => task in s.tasks && task.ApiFallback?
    case WorkerTake(e) => e in s.queue
    case WorkerCheck(task) => task in s.tasks && task.WorkerGot?
    case WorkerTransaction(task, _, _) => task in s.tasks && task.WorkerChecked?
    case CommentCheck(v) => v in s.tables.videos
    case CommentInsert(task) => task in s.tasks && task.CommentChecked?
    case CommentCount(task) => task in s.tasks && task.CommentInserted?
    case CommentTransaction(v) => v in s.tables.videos
    case Abandon(task) => task in s.tasks
  }

  function Swap(s: State, done: Task, next: multiset<Task>): State
  {
    s.(tasks := s.tasks - multiset{done} + next)
  }

  function Written(t: Tables, like: bool, row: Like): Tables
  {
    if like then AfterLike(t, row) else AfterUnlike(t, row)
  }

  function Next(s: State, a: Action): State
    requires Enabled(s, a)
  {
    match a
    case CreateVideo =>
      s.(tables := s.tables.(videos := s.tables.videos[s.nextVideo := Counters(0, 0)]), nextVideo := s.nextVideo + 1)
    case DeleteVideo(v) => s.(tables := s.tables.(videos := s.tables.videos - {v}))
    case QueueBecomes(queue) => s.(queue := queue)
    case ApiCheck(like, row) => s.(tasks := s.tasks + multiset{ApiChecked(like, row)})
    case ApiPublish(task, sent) =>
      var s1 := Swap(s, task, if sent.Sent() then multiset{} else multiset{ApiFallback(task.like, task.row)});
      if sent.Delivered()
      then s1.(queue := s1.queue + multiset{LikeTables.EventOf(task.like, task.row.accountID, task.row.videoID)})
      else s1
    case ApiTransaction(task, committed) =>
      var s1 := Swap(s, task, multiset{});
      if committed then s1.(tables := Written(s.tables, task.like, task.row)) else s1
    case WorkerTake(e) => s.(tasks := s.tasks + multiset{WorkerGot(e)})
    case WorkerCheck(task) =>
      var e := task.event;
      if WellFormed(e) && e.videoID in s.tables.videos then Swap(s, task, multiset{WorkerChecked(e)})
      else Swap(s, task, multiset{}).(queue := s.queue - multiset{e})
    case WorkerTransaction(task, committed, acked) =>
      var s1 := Swap(s, task, multiset{});
      if !committed then s1
      else s1.(tables := Written(s.tables, task.event.action == "like", RowOf(task.event)),
               queue := if acked then s.queue - multiset{task.event} else s.queue)
    case CommentCheck(v) => s.(tasks := s.tasks + multiset{CommentChecked(v)})
    case CommentInsert(task) =>
      Swap(s, task, multiset{CommentInserted(task.videoID)}).(commented := s.commented + multiset{task.videoID})
    case CommentCount(task) =>
      Swap(s, task, multiset{}).(tables := WithPopularity(s.tables, task.videoID, 1),
                                 counted := s.counted + multiset{task.videoID})
    case CommentTransaction(v) =>
      s.(tables := WithPopularity(s.tables, v, 1), commented := s.commented + multiset{v}, counted := s.counted + multiset{v})
    case Abandon(task) => Swap(s, task, multiset{})
  }

  // ---------- the invariant ----------

  /** The like rows of a video. */
  function LikesOf(likes: set<Like>, v: nat): set<Like> { set l | l in likes && l.videoID == v }

  /** Every counter column is what its rows say. */
  predicate Exact(t: Tables, counted: multiset<nat>)
  {
    forall v :: v in t.videos ==>
      && t.videos[v].likesCount == |LikesOf(t.likes, v)|
      && t.videos[v].popularity == |LikesOf(t.likes, v)| + counted[v]
  }

  /** Ids are handed out in order: whatever was seen lies below the next one. */
  predicate Known(s: State, v: nat) { v < s.nextVideo }

  predicate TaskKnown(s: State, t: Task)
  {
    match t
    case ApiChecked(_, row) => Known(s, row.videoID)
    case ApiFallback(_, row) => Known(s, row.videoID)
    case WorkerGot(_) => true
    case WorkerChecked(e) => Known(s, e.videoID)
    case CommentChecked(v) => Known(s, v)
    case CommentInserted(v) => Known(s, v)
  }

  ghost predicate IdsOk(s: State)
  {
    && (forall v :: v in s.tables.videos ==> Known(s, v))
    && (forall l :: l in s.tables.likes ==> Known(s, l.videoID))
    && (forall t :: t in s.tasks ==> TaskKnown(s, t))
    && (forall v :: v in s.commented ==> Known(s, v))
  }

  /** Each increment, made or still owed, belongs to its own inserted comment. */
  ghost predicate CommentsOk(s: State)
  {
    forall v: nat :: s.counted[v] + s.tasks[CommentInserted(v)] <= s.commented[v]
  }

  ghost predicate Inv(s: State) { Exact(s.tables, s.counted) && IdsOk(s) && CommentsOk(s) }

  // ---------- one row more or less ----------

  lemma LikesOfAdd(likes: set<Like>, l: Like, v: nat)
    requires l !in likes
    ensures |LikesOf(likes + {l}, v)| == |LikesOf(likes, v)| + if l.videoID == v then 1 else 0
  {
    if l.videoID == v {
      assert LikesOf(likes + {l}, v) == LikesOf(likes, v) + {l};
    } else {
      assert LikesOf(likes + {l}, v) == LikesOf(likes, v);
    }
  }

  lemma LikesOfRemove(likes: set<Like>, l: Like, v: nat)
    requires l in likes
    ensures |LikesOf(likes, v)| == |LikesOf(likes - {l}, v)| + if l.videoID == v then 1 else 0
  {
    assert (likes - {l}) + {l} == likes;
    LikesOfAdd(likes - {l}, l, v);
  }

  lemma LikeKeepsExact(t: Tables, counted: multiset<nat>, l: Like)
    requires Exact(t, counted)
    ensures Exact(AfterLike(t, l), counted)
  {
    if l !in t.likes {
      forall v | v in t.videos ensures |LikesOf(t.likes + {l}, v)| == |LikesOf(t.likes, v)| + if l.videoID == v then 1 else 0 {
        LikesOfAdd(t.likes, l, v);
      }
    }
  }

  /** Removing a row that is there never meets the floor of GREATEST(..., 0). */
  lemma UnlikeKeepsExact(t: Tables, counted: multiset<nat>, l: Like)
    requires Exact(t, counted)
    ensures Exact(AfterUnlike(t, l), counted)
    ensures l in t.likes && l.videoID in t.videos ==>
              t.videos[l.videoID].likesCount - 1 >= 0 && t.videos[l.videoID].popularity - 1 >= 0
  {
    if l in t.likes {
      forall v | v in t.videos ensures |LikesOf(t.likes, v)| == |LikesOf(t.likes - {l}, v)| + if l.videoID == v then 1 else 0 {
        LikesOfRemove(t.likes, l, v);
      }
    }
  }

  lemma CountKeepsExact(t: Tables, counted: multiset<nat>, v: nat)
    requires Exact(t, counted)
    ensures Exact(WithPopularity(t, v, 1), counted + multiset{v})
  {
  }

  lemma WrittenKeepsExact(t: Tables, counted: multiset<nat>, like: bool, row: Like)
    requires Exact(t, counted)
    ensures Exact(Written(t, like, row), counted)
  {
    LikeKeepsExact(t, counted, row);
    UnlikeKeepsExact(t, counted, row);
  }

  lemma CreateKeepsExact(s: State)
    requires Inv(s)
    ensures Exact(Next(s, CreateVideo).tables, s.counted)
  {
    var v := s.nextVideo;
    assert LikesOf(s.tables.likes, v) == {};
    assert s.commented[v] == 0 by { assert v !in s.commented; }
    assert s.counted[v] + s.tasks[CommentInserted(v)] <= s.commented[v];
  }

  // ---------- every step ----------

  lemma StepKeepsExact(s: State, a: Action)
    requires Inv(s) && Enabled(s, a)
    ensures Exact(Next(s, a).tables, Next(s, a).counted)
  {
    match a
    case CreateVideo => CreateKeepsExact(s);
    case ApiTransaction(task, _) => WrittenKeepsExact(s.tables, s.counted, task.like, task.row);
    case WorkerTransaction(task, _, _) =>
      WrittenKeepsExact(s.tables, s.counted, task.event.action == "like", RowOf(task.event));
    case CommentCount(task) => CountKeepsExact(s.tables, s.counted, task.videoID);
    case CommentTransaction(v) => CountKeepsExact(s.tables, s.counted, v);
    case _ =>
  }

  lemma WrittenRows(t: Tables, like: bool, row: Like)
    ensures Written(t, like, row).videos.Keys == t.videos.Keys
    ensures Written(t, like, row).likes <= t.likes + {row}
  {
  }

  lemma CountedRows(t: Tables, id: nat)
    ensures WithPopularity(t, id, 1).videos.Keys == t.videos.Keys && WithPopularity(t, id, 1).likes == t.likes
  {
  }

  /** Only CreateVideo adds a video. */
  lemma VideoOrigin(s: State, a: Action)
    requires Enabled(s, a)
    ensures Next(s, a).tables.videos.Keys <= s.tables.videos.Keys + if a.CreateVideo? then {s.nextVideo} else {}
  {
    match a
    case ApiTransaction(task, _) => WrittenRows(s.tables, task.like, task.row);
    case WorkerTransaction(task, _, _) => WrittenRows(s.tables, task.event.action == "like", RowOf(task.event));
    case CommentCount(task) => CountedRows(s.tables, task.videoID);
    case CommentTransaction(v) => CountedRows(s.tables, v);
    case _ =>
  }

  lemma StepKeepsVideo(s: State, a: Action, v: nat)
    requires IdsOk(s) && Enabled(s, a) && v in Next(s, a).tables.videos
    ensures Known(Next(s, a), v)
  {
    VideoOrigin(s, a);
    assert v in Next(s, a).tables.videos.Keys;
  }

  /** Only a transaction adds a like row: the one it was started for. */
  lemma LikeOrigin(s: State, a: Action)
    requires Enabled(s, a)
    ensures Next(s, a).tables.likes <= s.tables.likes +
              if a.ApiTransaction? then {a.task.row} else if a.WorkerTransaction? then {RowOf(a.task.event)} else {}
  {
    match a
    case ApiTransaction(task, _) => WrittenRows(s.tables, task.like, task.row);
    case WorkerTransaction(task, _, _) => WrittenRows(s.tables, task.event.action == "like", RowOf(task.event));
    case CommentCount(task) => CountedRows(s.tables, task.videoID);
    case CommentTransaction(v) => CountedRows(s.tables, v);
    case _ =>
  }

  lemma StepKeepsLike(s: State, a: Action, l: Like)
    requires IdsOk(s) && Enabled(s, a) && l in Next(s, a).tables.likes
    ensures Known(Next(s, a), l.videoID)
  {
    LikeOrigin(s, a);
    if l !in s.tables.likes { assert TaskKnown(s, a.task); }
  }

  /** What a step adds to the work in flight. */
  predicate Adds(s: State, a: Action, task: Task)
    requires Enabled(s, a)
  {
    match a
    case ApiCheck(like, row) => task == ApiChecked(like, row)
    case ApiPublish(t, _) => task == ApiFallback(t.like, t.row)
    case WorkerTake(e) => task == WorkerGot(e)
    case WorkerCheck(t) => task == WorkerChecked(t.event) && t.event.videoID in s.tables.videos
    case CommentCheck(v) => task == CommentChecked(v)
    case CommentInsert(t) => task == CommentInserted(t.videoID)
    case _ => false
  }

  lemma TaskOrigin(s: State, a: Action, task: Task)
    requires Enabled(s, a) && task in Next(s, a).tasks
    ensures task in s.tasks || Adds(s, a, task)
  {
    match a
    case CreateVideo =>
    case DeleteVideo(_) =>
    case QueueBecomes(_) =>
    case ApiCheck(_, _) =>
    case ApiPublish(_, _) =>
    case ApiTransaction(_, _) =>
    case WorkerTake(_) =>
    case WorkerCheck(_) =>
    case WorkerTransaction(_, _, _) =>
    case CommentCheck(_) =>
    case CommentInsert(_) =>
    case CommentCount(_) =>
    case CommentTransaction(_) =>
    case Abandon(_) =>
  }

  lemma NewTaskKnown(s: State, a: Action, task: Task)
    requires IdsOk(s) && Enabled(s, a) && Adds(s, a, task)
    ensures TaskKnown(s, task)
  {
    if a.ApiPublish? || a.CommentInsert? { assert TaskKnown(s, a.task); }
  }

  lemma IdsGrow(s: State, a: Action)
    requires Enabled(s, a)
    ensures s.nextVideo <= Next(s, a).nextVideo
  {
  }

  lemma StepKeepsTask(s: State, a: Action, task: Task)
    requires IdsOk(s) && Enabled(s, a) && task in Next(s, a).tasks
    ensures TaskKnown(Next(s, a), task)
  {
    TaskOrigin(s, a, task);
    IdsGrow(s, a);
    if task !in s.tasks { NewTaskKnown(s, a, task); }
    assert TaskKnown(s, task);
  }

  lemma StepKeepsCommented(s: State, a: Action, v: nat)
    requires IdsOk(s) && Enabled(s, a) && v in Next(s, a).commented
    ensures Known(Next(s, a), v)
  {
    if a.CommentInsert? { assert TaskKnown(s, a.task); }
  }

  lemma StepKeepsIds(s: State, a: Action)
    requires IdsOk(s) && Enabled(s, a)
    ensures IdsOk(Next(s, a))
  {
    forall v | v in Next(s, a).tables.videos ensures Known(Next(s, a), v) { StepKeepsVideo(s, a, v); }
    forall l | l in Next(s, a).tables.likes ensures Known(Next(s, a), l.videoID) { StepKeepsLike(s, a, l); }
    forall task | task in Next(s, a).tasks ensures TaskKnown(Next(s, a), task) { StepKeepsTask(s, a, task); }
    forall v | v in Next(s, a).commented ensures Known(Next(s, a), v) { StepKeepsCommented(s, a, v); }
  }

  lemma SwapCounts(s: State, done: Task, next: multiset<Task>, t: Task)
    requires done in s.tasks
    ensures Swap(s, done, next).tasks[t] + (if t == done then 1 else 0) == s.tasks[t] + next[t]
  {
  }

  lemma CommentsMove(s: State, a: Action, v: nat)
    requires Enabled(s, a)
    ensures Next(s, a).counted[v] + Next(s, a).tasks[CommentInserted(v)] + s.commented[v]
              <= s.counted[v] + s.tasks[CommentInserted(v)] + Next(s, a).commented[v]
  {
    var t := CommentInserted(v);
    match a
    case CommentInsert(done) => SwapCounts(s, done, multiset{CommentInserted(done.videoID)}, t);
    case CommentCount(done) => SwapCounts(s, done, multiset{}, t);
    case Abandon(done) => SwapCounts(s, done, multiset{}, t);
    case _ => OthersMoveNoComment(s, a, v);
  }

  lemma OthersMoveNoComment(s: State, a: Action, v: nat)
    requires Enabled(s, a) && !a.CommentInsert? && !a.CommentCount? && !a.Abandon?
    ensures Next(s, a).tasks[CommentInserted(v)] <= s.tasks[CommentInserted(v)]
    ensures Next(s, a).counted[v] + s.commented[v] == s.counted[v] + Next(s, a).commented[v]
  {
    match a
    case CreateVideo =>
    case DeleteVideo(_) =>
    case QueueBecomes(_) =>
    case ApiCheck(_, _) =>
    case ApiPublish(_, _) =>
    case ApiTransaction(_, _) =>
    case WorkerTake(_) =>
    case WorkerCheck(_) =>
    case WorkerTransaction(_, _, _) =>
    case CommentCheck(_) =>
    case CommentTransaction(_) =>
  }

  lemma StepKeepsComments(s: State, a: Action)
    requires CommentsOk(s) && Enabled(s, a)
    ensures CommentsOk(Next(s, a))
  {
    forall v: nat ensures Next(s, a).counted[v] + Next(s, a).tasks[CommentInserted(v)] <= Next(s, a).commented[v] {
      CommentsMove(s, a, v);
      assert s.counted[v] + s.tasks[CommentInserted(v)] <= s.commented[v];
    }
  }

  lemma NextKeepsInv(s: State, a: Action)
    requires Inv(s) && Enabled(s, a)
    ensures Inv(Next(s, a))
  {
    StepKeepsExact(s, a);
    StepKeepsIds(s, a);
    StepKeepsComments(s, a);
  }

  // ---------- runs ----------

  ghost predicate Steps(s: State, t: State) { exists a :: Enabled(s, a) && Next(s, a) == t }

  lemma StepsKeepInv(s: State, t: State)
    requires Inv(s) && Steps(s, t)
    ensures Inv(t)
  {
    var a :| Enabled(s, a) && Next(s, a) == t;
    NextKeepsInv(s, a);
  }

  ghost predicate IsHistory(run: seq<State>) { IsRun(run, Steps) && run[0] == Init() }

  lemma HistoryKeepsInv(run: seq<State>, i: nat)
    requires IsHistory(run) && i < |run|
    ensures Inv(run[i])
  {
    forall s, t | Inv(s) && Steps(s, t) ensures Inv(t) { StepsKeepInv(s, t); }
    Invariant(run, Steps, Inv, i);
  }

  /** In every reachable state likes_count is the number of like rows. */
  lemma LikesCountIsExact(run: seq<State>, i: nat, v: nat)
    requires IsHistory(run) && i < |run| && v in run[i].tables.videos
    ensures run[i].tables.videos[v].likesCount == |LikesOf(run[i].tables.likes, v)|
  {
    HistoryKeepsInv(run, i);
  }

  /** Popularity lies between the like rows and the like rows plus the comments ever
      inserted; a crash between insert and increment may lose a count, never invent one. */
  lemma PopularityIsSandwiched(run: seq<State>, i: nat, v: nat)
    requires IsHistory(run) && i < |run| && v in run[i].tables.videos
    ensures |LikesOf(run[i].tables.likes, v)| <= run[i].tables.videos[v].popularity
    ensures run[i].tables.videos[v].popularity <= |LikesOf(run[i].tables.likes, v)| + run[i].commented[v]
  {
    HistoryKeepsInv(run, i);
    assert run[i].counted[v] + run[i].tasks[CommentInserted(v)] <= run[i].commented[v];
  }

  /** The tables without the floor. */
  function Unclamped(t: Tables, id: nat, change: int): Tables
  {
    if id in t.videos
    then t.(videos := t.videos[id := Counters(t.videos[id].likesCount + change, t.videos[id].popularity + change)])
    else t
  }

  /** So the floor of GREATEST(..., 0) never acts: whatever transaction runs in a reachable
      state, plain addition would leave the same tables. */
  lemma ClampNeverFires(run: seq<State>, i: nat, like: bool, row: Like)
    requires IsHistory(run) && i < |run|
    ensures Written(run[i].tables, like, row) ==
              if like == (row in run[i].tables.likes) then run[i].tables
              else Unclamped(run[i].tables.(likes := if like then run[i].tables.likes + {row} else run[i].tables.likes - {row}),
                             row.videoID, if like then 1 else -1)
  {
    HistoryKeepsInv(run, i);
    ExactNeedsNoClamp(run[i].tables, run[i].counted, like, row);
  }

  lemma ExactNeedsNoClamp(t: Tables, counted: multiset<nat>, like: bool, row: Like)
    requires Exact(t, counted)
    ensures Written(t, like, row) ==
              if like == (row in t.likes) then t
              else Unclamped(t.(likes := if like then t.likes + {row} else t.likes - {row}), row.videoID, if like then 1 else -1)
  {
    UnlikeKeepsExact(t, counted, row);
  }
}
